/** filter_reason, rank and select_working of src/blockcheck.py. Rates and shares are reals. */
module Selection {
  import opened Sequences
  import opened Sorting
  import opened Wrappers

  /** A checked row, as parse_check_report leaves it. */
  datatype Row = Row(
    protocol: string, args: string, working: bool, successRate: real, medianShare: Option<real>,
    latency: int, admits: seq<string>, observed: string)

  datatype Settings = Settings(excludeMirage: bool, minShare: real)

  datatype Reason = Mirage | Observed(text: string) | NoReference | LowShare(share: real, minShare: real)

  function FilterReason(row: Row, s: Settings): Option<Reason> {
    if !row.working then
      Some(if row.admits == ["Mirage"] then Mirage
           else Observed(if row.observed != "" then row.observed else "not working"))
    else if s.excludeMirage && row.admits == ["Mirage"] then Some(Mirage)
    else if s.minShare > 0.0 then
      match row.medianShare
      case None => Some(NoReference)
      case Some(share) => if share < s.minShare then Some(LowShare(share, s.minShare)) else None
    else None
  }

  /** What survives the filter, said directly. */
  predicate Trusted(row: Row, s: Settings) {
    && row.working
    && !(s.excludeMirage && row.admits == ["Mirage"])
    && (s.minShare > 0.0 ==> row.medianShare.Some? && row.medianShare.value >= s.minShare)
  }

  lemma FilterReasonTrusts(row: Row, s: Settings)
    ensures FilterReason(row, s) == None <==> Trusted(row, s)
  {
  }

  /** Each reason is given to the rows it speaks of, and to no others. */
  lemma ReasonsAreRight(row: Row, s: Settings, reason: Reason)
    requires FilterReason(row, s) == Some(reason)
    ensures reason.Observed? <==> !row.working && row.admits != ["Mirage"]
    ensures reason.Observed? && row.observed != "" ==> reason.text == row.observed
    ensures reason == Mirage <==> row.admits == ["Mirage"] && (!row.working || s.excludeMirage)
    ensures reason == NoReference ==> row.working && s.minShare > 0.0 && row.medianShare == None
    ensures reason.LowShare? ==> row.working && row.medianShare == Some(reason.share) && reason.share < reason.minShare == s.minShare
  {
  }

  function ShareOf(row: Row): real {
    match row.medianShare case Some(share) => share case None => 0.0
  }

  /** The order of rank's key: working first, then success rate, then share, then latency. */
  predicate RanksBefore(a: Row, b: Row) {
    if a.working != b.working then a.working
    else if a.successRate != b.successRate then a.successRate > b.successRate
    else if ShareOf(a) != ShareOf(b) then ShareOf(a) > ShareOf(b)
    else a.latency <= b.latency
  }

  lemma RankIsPreorder()
    ensures TotalPreorder(RanksBefore)
  {
  }

  /** The key rank sorts by, a tuple of numbers of which smaller ones come first. */
  datatype RankKey = RankKey(notWorking: int, rate: real, share: real, latency: int)

  function KeyOf(row: Row): RankKey {
    RankKey(if row.working then 0 else 1, -row.successRate,
            -(if row.medianShare.Some? then row.medianShare.value else 0.0), row.latency)
  }

  /** Tuples compare by their first difference. */
  predicate KeyLe(a: RankKey, b: RankKey) {
    || a.notWorking < b.notWorking
    || (a.notWorking == b.notWorking && a.rate < b.rate)
    || (a.notWorking == b.notWorking && a.rate == b.rate && a.share < b.share)
    || (a.notWorking == b.notWorking && a.rate == b.rate && a.share == b.share && a.latency <= b.latency)
  }

  /** The order is the order of the keys. */
  lemma RankIsKeyOrder(a: Row, b: Row)
    ensures RanksBefore(a, b) <==> KeyLe(KeyOf(a), KeyOf(b))
  {
  }

  function Rank(rows: seq<Row>): seq<Row> {
    Sort(RanksBefore, rows)
  }

  function Passing(s: Settings): Row -> bool {
    row => FilterReason(row, s).None?
  }

  function Failing(s: Settings): Row -> bool {
    row => FilterReason(row, s).Some?
  }

  /** The rows that fail the filter, each with its reason. */
  function Refusals(rows: seq<Row>, s: Settings): seq<(Row, Reason)> {
    if rows == [] then []
    else
      var n := |rows| - 1;
      Refusals(rows[..n], s) + match FilterReason(rows[n], s) case Some(reason) => [(rows[n], reason)] case None => []
  }

  /** The rows of the refused list. */
  function RowsOf(refused: seq<(Row, Reason)>): (r: seq<Row>)
    ensures |r| == |refused|
  {
    seq(|refused|, i requires 0 <= i < |refused| => refused[i].0)
  }

  lemma {:induction false} RefusalsAreFailing(rows: seq<Row>, s: Settings)
    ensures RowsOf(Refusals(rows, s)) == Filter(Failing(s), rows)
    ensures forall i :: 0 <= i < |Refusals(rows, s)| ==> FilterReason(Refusals(rows, s)[i].0, s) == Some(Refusals(rows, s)[i].1)
  {
    hide FilterReason;
    if rows != [] {
      var n := |rows| - 1;
      RefusalsAreFailing(rows[..n], s);
      var before := Refusals(rows[..n], s);
      match FilterReason(rows[n], s)
      case None =>
      case Some(reason) => assert RowsOf(before + [(rows[n], reason)]) == RowsOf(before) + [rows[n]];
    }
  }

  /** select_working: one pass over the ranked rows. */
  method SelectWorking(rows: seq<Row>, s: Settings) returns (accepted: seq<Row>, refused: seq<(Row, Reason)>)
    ensures accepted == Filter(Passing(s), Rank(rows))
    ensures refused == Refusals(Rank(rows), s)
  {
    hide FilterReason, Rank;
    accepted, refused := [], [];
    var ranked := Rank(rows);
    for i := 0 to |ranked|
      invariant accepted == Filter(Passing(s), ranked[..i])
      invariant refused == Refusals(ranked[..i], s)
    {
      assert ranked[..i + 1][..i] == ranked[..i];
      match FilterReason(ranked[i], s)
      case None => accepted := accepted + [ranked[i]];
      case Some(reason) => refused := refused + [(ranked[i], reason)];
    }
    assert ranked[..|ranked|] == ranked;
  }

  /** Ranking first or filtering first makes no difference. */
  lemma SelectionCommutes(rows: seq<Row>, s: Settings)
    ensures Filter(Passing(s), Rank(rows)) == Rank(Filter(Passing(s), rows))
  {
    RankIsPreorder();
    SortFilter(RanksBefore, Passing(s), rows);
  }

  lemma {:induction false} SplitPermutes(s: Settings, rows: seq<Row>)
    ensures multiset(Filter(Passing(s), rows)) + multiset(Filter(Failing(s), rows)) == multiset(rows)
  {
    hide FilterReason;
    if rows != [] {
      SplitPermutes(s, rows[..|rows| - 1]);
      assert rows == rows[..|rows| - 1] + [rows[|rows| - 1]];
    }
  }

  /** Accepted and refused rows together are the input rows, each once. */
  lemma SelectionPartitions(rows: seq<Row>, s: Settings)
    ensures multiset(Filter(Passing(s), Rank(rows))) + multiset(RowsOf(Refusals(Rank(rows), s))) == multiset(rows)
  {
    RefusalsAreFailing(Rank(rows), s);
    SplitPermutes(s, Rank(rows));
    SortPermutes(RanksBefore, rows);
  }

  /** Raising min_share only removes rows from what is accepted of a ranked list; the rest keep their order. */
  lemma RaisingMinShare(ranked: seq<Row>, s: Settings, t: Settings)
    requires s.excludeMirage == t.excludeMirage && s.minShare <= t.minShare
    ensures IsSubsequence(Filter(Passing(t), ranked), Filter(Passing(s), ranked))
  {
    forall row: Row
      ensures Passing(t)(row) <==> Passing(s)(row) && Passing(t)(row)
    {
      FilterReasonTrusts(row, s);
      FilterReasonTrusts(row, t);
    }
    FilterTwice(Passing(s), Passing(t), Passing(t), ranked);
    FilterIsSubsequence(Passing(t), Filter(Passing(s), ranked));
  }

  /** The accepted list starts with a row that no accepted row outranks. */
  lemma BestFirst(rows: seq<Row>, s: Settings, i: nat)
    requires i < |Filter(Passing(s), Rank(rows))|
    ensures var accepted := Filter(Passing(s), Rank(rows));
            RanksBefore(accepted[0], accepted[i])
  {
    RankIsPreorder();
    SelectionCommutes(rows, s);
    SortSorted(RanksBefore, Filter(Passing(s), rows));
  }
}
