/** The time-ordered merge of module logs in src/panel/panel.py. */
module LogMerge {
  import opened Sequences
  import opened Sorting
  import opened Wrappers

  /** One line with its sort key: the inherited time stamp, the module's rank, the line number. */
  datatype Entry = Entry(stamp: string, rank: nat, line: nat, text: string)

  /** A module log; None stands for a missing file. */
  datatype Log = Log(module_: string, lines: Option<seq<string>>)

  // ---- time stamps ----

  predicate IsDigit(c: char) {
    '0' <= c <= '9'
  }

  /** [dddd-dd-ddTdd:dd:ddZ], character by character. */
  predicate StampChar(i: nat, c: char) {
    match i
    case 4 => c == '-'
    case 7 => c == '-'
    case 10 => c == 'T'
    case 13 => c == ':'
    case 16 => c == ':'
    case 19 => c == 'Z'
    case _ => IsDigit(c)
  }

  predicate IsStamp(stamp: string) {
    |stamp| == 20 && forall i :: 0 <= i < 20 ==> StampChar(i, stamp[i])
  }

  /** The time stamp a line starts with, if it has one. */
  function OwnStamp(line: string): Option<string> {
    if |line| >= 22 && line[0] == '[' && line[21] == ']' && IsStamp(line[1..21])
    then Some(line[1..21]) else None
  }

  predicate AllDigits(s: string) {
    forall c :: c in s ==> c in "0123456789"
  }

  /** Year, month, day and the time of day, in digits, with T, Z, dashes and colons in their places. */
  lemma StampLayout(stamp: string)
    requires |stamp| == 20
    ensures IsStamp(stamp) <==>
            && AllDigits(stamp[0..4]) && AllDigits(stamp[5..7]) && AllDigits(stamp[8..10])
            && AllDigits(stamp[11..13]) && AllDigits(stamp[14..16]) && AllDigits(stamp[17..19])
            && stamp[4] == stamp[7] == '-' && stamp[10] == 'T' && stamp[13] == stamp[16] == ':' && stamp[19] == 'Z'
  {
    hide AllDigits, IsDigit;
    DigitsAt(stamp, 0, 4);
    DigitsAt(stamp, 5, 7);
    DigitsAt(stamp, 8, 10);
    DigitsAt(stamp, 11, 13);
    DigitsAt(stamp, 14, 16);
    DigitsAt(stamp, 17, 19);
  }

  lemma DigitsAt(s: string, lo: nat, hi: nat)
    requires lo <= hi <= |s|
    ensures AllDigits(s[lo..hi]) <==> forall i :: lo <= i < hi ==> IsDigit(s[i])
  {
    assert forall i :: lo <= i < hi ==> s[lo..hi][i - lo] == s[i];
    assert forall c: char :: IsDigit(c) <==> c in "0123456789" by { TenDigits(); }
  }

  lemma TenDigits()
    ensures forall c: char :: IsDigit(c) <==> c in "0123456789"
  {
    forall c: char
      ensures IsDigit(c) <==> c in "0123456789"
    {
    }
  }

  /** A line has a stamp exactly when it starts with that stamp in brackets. */
  lemma OwnStampIff(line: string, stamp: string)
    ensures OwnStamp(line) == Some(stamp) <==> IsStamp(stamp) && "[" + stamp + "]" <= line
  {
    hide StampChar;
    if IsStamp(stamp) && "[" + stamp + "]" <= line {
      assert line[..22] == "[" + stamp + "]";
      assert line[1..21] == line[..22][1..21] == stamp;
    }
    if OwnStamp(line) == Some(stamp) {
      assert line[..22] == [line[0]] + line[1..21] + [line[21]];
    }
  }

  /** Strings are compared character by character, as Python compares them. */
  predicate StringLe(a: string, b: string) {
    if a == "" then true
    else if b == "" then false
    else if a[0] != b[0] then a[0] < b[0]
    else StringLe(a[1..], b[1..])
  }

  lemma {:induction false} StringLeTotal(a: string, b: string)
    ensures StringLe(a, b) || StringLe(b, a)
    ensures StringLe(a, b) && StringLe(b, a) ==> a == b
  {
    if a != "" && b != "" && a[0] == b[0] {
      StringLeTotal(a[1..], b[1..]);
      assert a == [a[0]] + a[1..] && b == [b[0]] + b[1..];
    }
  }

  lemma {:induction false} StringLeTransitive(a: string, b: string, c: string)
    requires StringLe(a, b) && StringLe(b, c)
    ensures StringLe(a, c)
  {
    if a != "" && b != "" && c != "" && a[0] == b[0] == c[0] {
      StringLeTransitive(a[1..], b[1..], c[1..]);
    }
  }

  predicate KeyLe(a: Entry, b: Entry) {
    if a.stamp != b.stamp then StringLe(a.stamp, b.stamp)
    else if a.rank != b.rank then a.rank < b.rank
    else a.line <= b.line
  }

  lemma KeyIsPreorder()
    ensures TotalPreorder(KeyLe)
  {
    hide StringLe;
    forall a: Entry, b: Entry
      ensures KeyLe(a, b) || KeyLe(b, a)
    {
      StringLeTotal(a.stamp, b.stamp);
    }
    forall a: Entry, b: Entry, c: Entry | KeyLe(a, b) && KeyLe(b, c)
      ensures KeyLe(a, c)
    {
      StringLeTotal(a.stamp, b.stamp);
      StringLeTotal(b.stamp, c.stamp);
      if StringLe(a.stamp, b.stamp) && StringLe(b.stamp, c.stamp) {
        StringLeTransitive(a.stamp, b.stamp, c.stamp);
      }
    }
  }

  // ---- collecting ----

  /** The stamp in force after the given lines: the last one seen, or "". */
  function StampAfter(lines: seq<string>): string {
    if lines == [] then ""
    else match OwnStamp(lines[|lines| - 1]) case Some(stamp) => stamp case None => StampAfter(lines[..|lines| - 1])
  }

  function TagFor(module_: string): string {
    if module_ == "actions" then "" else "[" + module_ + "] "
  }

  function EntryAt(module_: string, rank: nat, lines: seq<string>, i: nat): Entry
    requires i < |lines|
  {
    Entry(StampAt(lines, i), rank, i, TagFor(module_) + lines[i])
  }

  /** The stamp line i is sorted by: its own, or the one of the last stamped line before it. */
  function StampAt(lines: seq<string>, i: nat): string
    requires i < |lines|
  {
    StampAfter(lines[..i + 1])
  }

  function FileEntries(module_: string, rank: nat, lines: seq<string>): (r: seq<Entry>)
    ensures |r| == |lines|
    ensures forall i :: 0 <= i < |r| ==> r[i] == EntryAt(module_, rank, lines, i)
  {
    seq(|lines|, i requires 0 <= i < |lines| => EntryAt(module_, rank, lines, i))
  }

  function LinesOf(log: Log): seq<string> {
    match log.lines case Some(lines) => lines case None => []
  }

  /** The entries of all logs, one file after the other. */
  function AllEntries(logs: seq<Log>): seq<Entry> {
    if logs == [] then []
    else
      var n := |logs| - 1;
      AllEntries(logs[..n]) + FileEntries(logs[n].module_, n, LinesOf(logs[n]))
  }

  function Merged(logs: seq<Log>): seq<Entry> {
    Sort(KeyLe, AllEntries(logs))
  }

  /** The loop over the lines of one file. */
  method CollectFile(module_: string, rank: nat, lines: seq<string>) returns (entries: seq<Entry>)
    ensures entries == FileEntries(module_, rank, lines)
  {
    hide OwnStamp, TagFor;
    entries := [];
    var lastStamp := "";
    for i := 0 to |lines|
      invariant lastStamp == StampAfter(lines[..i])
      invariant |entries| == i && forall j :: 0 <= j < i ==> entries[j] == EntryAt(module_, rank, lines, j)
    {
      assert lines[..i + 1][..i] == lines[..i];
      var own := OwnStamp(lines[i]);
      if own.Some? {
        lastStamp := own.value;
      }
      entries := entries + [Entry(lastStamp, rank, i, TagFor(module_) + lines[i])];
    }
  }

  /** _collected_entries: collect every log, then sort. */
  method CollectedEntries(logs: seq<Log>) returns (entries: seq<Entry>)
    ensures entries == Merged(logs)
  {
    hide FileEntries;
    entries := [];
    for rank := 0 to |logs|
      invariant entries == AllEntries(logs[..rank])
    {
      assert logs[..rank + 1][..rank] == logs[..rank];
      if logs[rank].lines.Some? {
        var file := CollectFile(logs[rank].module_, rank, logs[rank].lines.value);
        entries := entries + file;
      } else {
        NoEntries(logs[rank].module_, rank);
      }
    }
    assert logs[..|logs|] == logs;
    entries := Sort(KeyLe, entries);
  }

  lemma NoEntries(module_: string, rank: nat)
    ensures FileEntries(module_, rank, []) == []
  {
  }

  // ---- the merge ----

  /** The merge is sorted, and a permutation of all tagged lines. */
  lemma MergeIsSortedPermutation(logs: seq<Log>)
    ensures IsSorted(KeyLe, Merged(logs))
    ensures multiset(Merged(logs)) == multiset(AllEntries(logs))
  {
    KeyIsPreorder();
    SortSorted(KeyLe, AllEntries(logs));
    SortPermutes(KeyLe, AllEntries(logs));
  }

  /** Two entries in the merge: the earlier stamp first, then the earlier module, then the earlier line. */
  lemma MergeOrder(logs: seq<Log>, i: nat, j: nat)
    requires i < j < |Merged(logs)|
    ensures var a, b := Merged(logs)[i], Merged(logs)[j];
            && StringLe(a.stamp, b.stamp)
            && (a.stamp == b.stamp ==> a.rank <= b.rank)
            && (a.stamp == b.stamp && a.rank == b.rank ==> a.line <= b.line)
  {
    hide Merged, StringLe;
    MergeIsSortedPermutation(logs);
    var a, b := Merged(logs)[i], Merged(logs)[j];
    StringLeTotal(a.stamp, b.stamp);
    assert KeyLe(a, b);
  }

  function OfRank(rank: nat): Entry -> bool {
    (e: Entry) => e.rank == rank
  }

  /** The entries of one rank are the entries of that file, in file order. */
  lemma {:induction false} RankEntries(logs: seq<Log>, rank: nat)
    requires rank < |logs|
    ensures Filter(OfRank(rank), AllEntries(logs)) == FileEntries(logs[rank].module_, rank, LinesOf(logs[rank]))
  {
    var n := |logs| - 1;
    var file := FileEntries(logs[n].module_, n, LinesOf(logs[n]));
    FilterAppend(OfRank(rank), AllEntries(logs[..n]), file);
    if rank == n {
      RanksBelow(logs[..n], rank);
      FilterAll(OfRank(rank), file);
    } else {
      RankEntries(logs[..n], rank);
      FilterNone(OfRank(rank), file);
    }
  }

  lemma {:induction false} RanksBelow(logs: seq<Log>, rank: nat)
    requires rank >= |logs|
    ensures Filter(OfRank(rank), AllEntries(logs)) == []
  {
    if logs != [] {
      var n := |logs| - 1;
      var file := FileEntries(logs[n].module_, n, LinesOf(logs[n]));
      RanksBelow(logs[..n], rank);
      FilterAppend(OfRank(rank), AllEntries(logs[..n]), file);
      FilterNone(OfRank(rank), file);
    }
  }

  /** The stamps in force never go backwards in the file. */
  ghost predicate StampsAscend(lines: seq<string>) {
    forall i, j :: 0 <= i < j < |lines| ==> StringLe(StampAt(lines, i), StampAt(lines, j))
  }

  /** A module's lines keep their file order in the merge exactly when its stamps never go backwards. */
  lemma FileOrderIff(logs: seq<Log>, rank: nat)
    requires rank < |logs|
    ensures var file := FileEntries(logs[rank].module_, rank, LinesOf(logs[rank]));
            Filter(OfRank(rank), Merged(logs)) == file <==> StampsAscend(LinesOf(logs[rank]))
  {
    hide StringLe, StampAt, AllEntries, Sort;
    var lines := LinesOf(logs[rank]);
    var file := FileEntries(logs[rank].module_, rank, lines);
    KeyIsPreorder();
    SortFilter(KeyLe, OfRank(rank), AllEntries(logs));
    RankEntries(logs, rank);
    SortSorted(KeyLe, file);
    if StampsAscend(lines) {
      assert IsSorted(KeyLe, file);
      SortOfSorted(KeyLe, file);
    } else if IsSorted(KeyLe, file) {
      forall i, j | 0 <= i < j < |lines|
        ensures StringLe(StampAt(lines, i), StampAt(lines, j))
      {
        assert KeyLe(file[i], file[j]);
        StringLeTotal(file[i].stamp, file[j].stamp);
      }
    }
  }

  lemma StampedLine(stamp: string, rest: string)
    requires IsStamp(stamp)
    ensures OwnStamp("[" + stamp + "]" + rest) == Some(stamp)
  {
    assert ("[" + stamp + "]" + rest)[1..21] == stamp;
  }

  /** Two lines whose stamps go backwards do not keep their file order. */
  lemma BackwardStampsSwap(log: Log, a: string, b: string, rest: string)
    requires a == "2024-01-01T00:00:01Z" && b == "2024-01-01T00:00:00Z"
    requires log.lines == Some(["[" + a + "]" + rest, "[" + b + "]" + rest])
    ensures Filter(OfRank(0), Merged([log])) != FileEntries(log.module_, 0, LinesOf(log))
  {
    hide OwnStamp, StringLe, Merged, FileEntries, StampAt, StampChar;
    var lines := LinesOf(log);
    FileOrderIff([log], 0);
    ExampleStamps();
    StampedLine(a, rest);
    StampedLine(b, rest);
    StampInForce(lines, 0, a);
    StampInForce(lines, 1, b);
    SecondsCompare();
    assert !StringLe(StampAt(lines, 0), StampAt(lines, 1));
  }

  lemma StampInForce(lines: seq<string>, i: nat, stamp: string)
    requires i < |lines| && OwnStamp(lines[i]) == Some(stamp)
    ensures StampAt(lines, i) == stamp
  {
    hide OwnStamp;
  }

  lemma ExampleStamps()
    ensures IsStamp("2024-01-01T00:00:01Z") && IsStamp("2024-01-01T00:00:00Z")
  {
  }

  lemma {:induction false} SharedPrefix(prefix: string, a: string, b: string)
    ensures StringLe(prefix + a, prefix + b) <==> StringLe(a, b)
  {
    if prefix == "" {
      assert prefix + a == a && prefix + b == b;
    } else {
      assert (prefix + a)[1..] == prefix[1..] + a && (prefix + b)[1..] == prefix[1..] + b;
      SharedPrefix(prefix[1..], a, b);
    }
  }

  lemma SecondsCompare()
    ensures !StringLe("2024-01-01T00:00:01Z", "2024-01-01T00:00:00Z")
  {
    hide StringLe;
    var prefix := "2024-01-01T00:00:0";
    SharedPrefix(prefix, "1Z", "0Z");
    assert prefix + "1Z" == "2024-01-01T00:00:01Z" && prefix + "0Z" == "2024-01-01T00:00:00Z";
    OneAfterZero();
  }

  lemma OneAfterZero()
    ensures !StringLe("1Z", "0Z")
  {
  }

  // ---- continuation lines ----

  ghost predicate FromLogs(logs: seq<Log>, e: Entry) {
    && e.rank < |logs| && e.line < |LinesOf(logs[e.rank])|
    && e == EntryAt(logs[e.rank].module_, e.rank, LinesOf(logs[e.rank]), e.line)
  }

  lemma {:induction false} EntryOrigin(logs: seq<Log>, e: Entry)
    ensures e in AllEntries(logs) <==> FromLogs(logs, e)
  {
    hide EntryAt;
    if logs != [] {
      var n := |logs| - 1;
      EntryOrigin(logs[..n], e);
      var file := FileEntries(logs[n].module_, n, LinesOf(logs[n]));
      FileOrigin(logs[n].module_, n, LinesOf(logs[n]), e);
    }
  }

  lemma FileOrigin(module_: string, rank: nat, lines: seq<string>, e: Entry)
    ensures e in FileEntries(module_, rank, lines) <==>
            e.rank == rank && e.line < |lines| && e == EntryAt(module_, rank, lines, e.line)
  {
  }

  ghost predicate Distinct<T>(s: seq<T>) {
    forall i, j :: 0 <= i < j < |s| ==> s[i] != s[j]
  }

  /** Every merged entry is a line of some module, tagged with the module's name unless it is the log of actions. */
  lemma MergedTexts(logs: seq<Log>, e: Entry)
    requires e in Merged(logs)
    ensures e.rank < |logs| && logs[e.rank].lines.Some? && e.line < |logs[e.rank].lines.value|
    ensures var name, line := logs[e.rank].module_, logs[e.rank].lines.value[e.line];
            e.text == if name == "actions" then line else "[" + name + "] " + line
  {
    hide Sort, AllEntries, StampAt;
    SortMember(KeyLe, AllEntries(logs), e);
    EntryOrigin(logs, e);
    var line := LinesOf(logs[e.rank])[e.line];
    assert "" + line == line;
  }

  lemma {:induction false} EntriesDistinct(logs: seq<Log>)
    ensures Distinct(AllEntries(logs))
  {
    hide EntryAt;
    if logs != [] {
      var n := |logs| - 1;
      EntriesDistinct(logs[..n]);
      var before, file := AllEntries(logs[..n]), FileEntries(logs[n].module_, n, LinesOf(logs[n]));
      forall i | 0 <= i < |before|
        ensures before[i] !in file
      {
        EntryOrigin(logs[..n], before[i]);
        FileOrigin(logs[n].module_, n, LinesOf(logs[n]), before[i]);
      }
      FileDistinct(logs[n].module_, n, LinesOf(logs[n]));
    }
  }

  lemma FileDistinct(module_: string, rank: nat, lines: seq<string>)
    ensures Distinct(FileEntries(module_, rank, lines))
  {
  }

  lemma {:induction false} DistinctCount<T>(s: seq<T>, x: T)
    requires Distinct(s)
    ensures multiset(s)[x] <= 1
  {
    if s != [] {
      DistinctCount(s[..|s| - 1], x);
      assert s == s[..|s| - 1] + [s[|s| - 1]];
      assert s[|s| - 1] !in s[..|s| - 1];
    }
  }

  lemma TwiceCount<T>(s: seq<T>, i: nat, j: nat)
    requires i < j < |s| && s[i] == s[j]
    ensures multiset(s)[s[i]] >= 2
  {
    assert s == s[..j] + [s[j]] + s[j + 1..];
    assert s[i] == s[..j][i];
    assert s[i] in multiset(s[..j]);
  }

  /** No line appears twice in the merge. */
  lemma MergedDistinct(logs: seq<Log>)
    ensures Distinct(Merged(logs))
  {
    hide Sort, AllEntries;
    var m := Merged(logs);
    SortPermutes(KeyLe, AllEntries(logs));
    EntriesDistinct(logs);
    forall i, j | 0 <= i < j < |m|
      ensures m[i] != m[j]
    {
      DistinctCount(AllEntries(logs), m[i]);
      if m[i] == m[j] {
        TwiceCount(m, i, j);
      }
    }
  }

  /** Two entries of one stamp and rank, one line apart, have no entry between them in key order. */
  lemma NothingBetween(logs: seq<Log>, a: Entry, b: Entry, x: Entry)
    requires FromLogs(logs, a) && FromLogs(logs, b) && FromLogs(logs, x)
    requires a.stamp == b.stamp && a.rank == b.rank && a.line + 1 == b.line
    requires KeyLe(a, x) && KeyLe(x, b)
    ensures x == a || x == b
  {
    hide StringLe, EntryAt;
    StringLeTotal(a.stamp, x.stamp);
  }

  /**
   A line without a time stamp of its own comes immediately after the line before it in its
   file, wherever the merge puts that one, and even when the file's stamps go backwards.
   */
  lemma ContinuationFollows(logs: seq<Log>, rank: nat, i: nat, p: nat)
    requires rank < |logs| && i + 1 < |LinesOf(logs[rank])| && OwnStamp(LinesOf(logs[rank])[i + 1]) == None
    requires p < |Merged(logs)| && Merged(logs)[p] == EntryAt(logs[rank].module_, rank, LinesOf(logs[rank]), i)
    ensures p + 1 < |Merged(logs)|
    ensures Merged(logs)[p + 1] == EntryAt(logs[rank].module_, rank, LinesOf(logs[rank]), i + 1)
  {
    hide Sort, AllEntries, KeyLe, OwnStamp, TagFor, StampAt;
    var lines, m := LinesOf(logs[rank]), Merged(logs);
    var a, b := EntryAt(logs[rank].module_, rank, lines, i), EntryAt(logs[rank].module_, rank, lines, i + 1);
    InheritsStamp(lines, i);
    MergeIsSortedPermutation(logs);
    MergedDistinct(logs);
    EntryOrigin(logs, b);
    SortMember(KeyLe, AllEntries(logs), b);
    var q :| 0 <= q < |m| && m[q] == b;
    StrictlyBefore(a, b);
    assert q != p;
    assert p < q;
    var x := m[p + 1];
    SortMember(KeyLe, AllEntries(logs), x);
    EntryOrigin(logs, x);
    KeyLeReflexive(b);
    assert q == p + 1 || KeyLe(m[p + 1], m[q]);
    NothingBetween(logs, a, b, x);
  }

  lemma InheritsStamp(lines: seq<string>, i: nat)
    requires i + 1 < |lines| && OwnStamp(lines[i + 1]) == None
    ensures StampAt(lines, i + 1) == StampAt(lines, i)
  {
    hide OwnStamp;
    assert lines[..i + 2][..i + 1] == lines[..i + 1];
  }

  lemma StrictlyBefore(a: Entry, b: Entry)
    requires a.stamp == b.stamp && a.rank == b.rank && a.line < b.line
    ensures !KeyLe(b, a)
  {
  }

  lemma KeyLeReflexive(b: Entry)
    ensures KeyLe(b, b)
  {
  }
}
