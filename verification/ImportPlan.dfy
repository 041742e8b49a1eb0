/**
 plan_import and merge_catalog of src/blockcheck.py: which of a run's working strategies
 enter the catalog. The plan is first defined row by row, as the code's loop body takes it,
 and then shown to be the greedy plan: a row is accepted exactly when it is valid, new, and
 within its protocol's cap at that point.
 */
module ImportPlan {
  import opened Sequences
  import opened Text
  import opened Wrappers
  import opened StrategyArgs
  import opened FreshIds
  import Shlex

  const FORBIDDEN: set<string> :=
    {"--qnum", "--fwmark", "--daemon", "--pidfile", "--intercept", "--dry-run",
     "--version", "--chdir", "--uid", "--user", "--lua-init", "--writable"}

  datatype Reason =
    | UnparsableArgs | EmptyArgs | InvalidToken(token: string) | ForbiddenToken(key: string)
    | AlreadyKnown | OverCap(limit: int)

  // ---- validate_args ----

  predicate ValidToken(t: string) {
    '\0' !in t && StartsWith(t, "--") && Head(t, '=') !in FORBIDDEN
  }

  predicate ValidTokens(ts: seq<string>) {
    ts != [] && forall i :: 0 <= i < |ts| ==> ValidToken(ts[i])
  }

  /** The reason the first unusable token gives. */
  function FirstBad(ts: seq<string>): (r: Option<Reason>)
    ensures r == None <==> forall i :: 0 <= i < |ts| ==> ValidToken(ts[i])
    ensures r.Some? ==> !r.value.AlreadyKnown? && !r.value.OverCap?
  {
    if ts == [] then None
    else if '\0' in ts[0] || !StartsWith(ts[0], "--") then Some(InvalidToken(ts[0]))
    else if Head(ts[0], '=') in FORBIDDEN then Some(ForbiddenToken(Head(ts[0], '=')))
    else
      assert ts == [ts[0]] + ts[1..];
      FirstBad(ts[1..])
  }

  /** The tokens joined by single spaces, or why they are unusable. */
  function Validate(text: string): (r: Result<string, Reason>)
    ensures r.Success? <==> Shlex.Split(text).Some? && ValidTokens(Shlex.Split(text).value)
    ensures r.Success? ==> r.value == JoinWith(Shlex.Split(text).value, ' ')
    ensures r.Failure? ==> !r.error.AlreadyKnown? && !r.error.OverCap?
  {
    var ts := Shlex.Split(text);
    if ts == None then Failure(UnparsableArgs)
    else if ts.value == [] then Failure(EmptyArgs)
    else
      match FirstBad(ts.value)
      case None => Success(JoinWith(ts.value, ' '))
      case Some(reason) => Failure(reason)
  }

  /** Token i is the first unusable one, and the reason is why: its form, or else its name. */
  predicate BadAt(ts: seq<string>, i: int, reason: Reason)
    requires 0 <= i < |ts|
  {
    && (forall j :: 0 <= j < i ==> ValidToken(ts[j])) && !ValidToken(ts[i])
    && reason == if '\0' !in ts[i] && StartsWith(ts[i], "--") then ForbiddenToken(Head(ts[i], '=')) else InvalidToken(ts[i])
  }

  lemma {:induction false} FirstBadIs(ts: seq<string>) returns (i: nat)
    requires FirstBad(ts).Some?
    ensures i < |ts| && BadAt(ts, i, FirstBad(ts).value)
  {
    hide Head;
    if ValidToken(ts[0]) {
      i := FirstBadIs(ts[1..]);
      assert forall j :: 0 < j < |ts| ==> ts[j] == ts[1..][j - 1];
      i := i + 1;
    } else {
      i := 0;
    }
  }

  /** A text is refused because shlex cannot split it, because it is empty, or for its first unusable token. */
  lemma RefusedBecause(text: string)
    requires Validate(text).Failure?
    ensures var ts, reason := Shlex.Split(text), Validate(text).error;
            if ts == None then reason == UnparsableArgs
            else if ts.value == [] then reason == EmptyArgs
            else exists i :: 0 <= i < |ts.value| && BadAt(ts.value, i, reason)
  {
    hide Shlex.Split, FirstBad, BadAt;
    var ts := Shlex.Split(text);
    if ts.Some? && ts.value != [] {
      var i := FirstBadIs(ts.value);
    }
  }

  /** validate_args, with its loop over the tokens. */
  method ValidateArgs(text: string) returns (r: Result<string, Reason>)
    ensures r == Validate(text)
  {
    var split := Shlex.Split(text);
    if split == None {
      return Failure(UnparsableArgs);
    }
    var ts := split.value;
    if ts == [] {
      return Failure(EmptyArgs);
    }
    for i := 0 to |ts|
      invariant FirstBad(ts) == FirstBad(ts[i..])
    {
      assert ts[i..][0] == ts[i] && ts[i..][1..] == ts[i + 1..];
      if '\0' in ts[i] || !StartsWith(ts[i], "--") {
        return Failure(InvalidToken(ts[i]));
      }
      if Head(ts[i], '=') in FORBIDDEN {
        return Failure(ForbiddenToken(Head(ts[i], '=')));
      }
    }
    r := Success(JoinWith(ts, ' '));
  }

  // ---- slugs ----

  function LowerChar(c: char): char {
    if 'A' <= c <= 'Z' then c - 'A' + 'a' else c
  }

  predicate SlugChar(c: char) {
    'a' <= c <= 'z' || '0' <= c <= '9'
  }

  /** re.sub(r"[^a-z0-9]+", "_", text.lower()): a run of other characters becomes one underscore. */
  function Underscored(text: string, inRun: bool): string {
    if text == "" then ""
    else
      var c := LowerChar(text[0]);
      if SlugChar(c) then [c] + Underscored(text[1..], false)
      else (if inRun then "" else "_") + Underscored(text[1..], true)
  }

  function StripLeft(s: string): string {
    if s != "" && s[0] == '_' then StripLeft(s[1..]) else s
  }

  function StripRight(s: string): string {
    if s != "" && s[|s| - 1] == '_' then StripRight(s[..|s| - 1]) else s
  }

  function Slug(text: string, limit: nat): string {
    var s := StripRight(StripLeft(Underscored(text, false)));
    var cut := if |s| <= limit then s else s[..limit];
    if cut == "" then "x" else cut
  }

  // ---- rows, entries and the catalog ----

  /** A working row with the domain it was found for. */
  datatype Row = Row(domain: string, protocol: string, args: string)

  datatype Domain = Domain(domain: string, working: seq<(string, string)>)

  datatype Settings = Settings(maxImport: int, importPrefix: string)

  datatype Skip = Skip(row: Row, reason: Reason)

  function ProtocolOf(row: Row): string {
    if row.protocol == "" then "HTTPS/TLS1.2" else row.protocol
  }

  function Stem(s: Settings, row: Row): string {
    Slug(if s.importPrefix == "" then "bcw" else s.importPrefix, 16)
    + "_" + Slug(row.domain, 20) + "_" + Slug(ProtocolOf(row), 16)
  }

  /** _needs_no_reasm: only the first test of the source can be reached. */
  predicate NeedsNoReasm(args: string) {
    Contains(args, "--filter-tcp=443") || Contains(args, "--payload=tls_client_hello")
  }

  function EntryFor(row: Row, args: string, id: string): Entry {
    Entry(id, args, if Contains(args, "--lua-desync=") then args else "", ProtocolOf(row), NeedsNoReasm(args), "", [])
  }

  function TextsOf(e: Entry): set<string> {
    (if e.nfqwsOpt != "" then {Shlex.Normalised(e.nfqwsOpt)} else {})
    + (if e.luaOpt != "" then {Shlex.Normalised(e.luaOpt)} else {})
  }

  /** The whitespace-normalised texts already in the catalog. */
  function KnownArgs(catalog: seq<Entry>): set<string> {
    if catalog == [] then {} else KnownArgs(catalog[..|catalog| - 1]) + TextsOf(catalog[|catalog| - 1])
  }

  function KnownIds(catalog: seq<Entry>): set<string> {
    if catalog == [] then {}
    else KnownIds(catalog[..|catalog| - 1]) + if catalog[|catalog| - 1].id != "" then {catalog[|catalog| - 1].id} else {}
  }

  /** merge_catalog: entries replace the catalog entries with the same ids. */
  function Merge(catalog: seq<Entry>, entries: seq<Entry>): seq<Entry> {
    Filter((e: Entry) => e.id !in IdSet(entries), catalog) + entries
  }

  function IdSet(entries: seq<Entry>): set<string> {
    set i | 0 <= i < |entries| :: entries[i].id
  }

  // ---- the plan, row by row ----

  /** The variables of plan_import's loop. */
  datatype Plan = Plan(
    entries: seq<Entry>, skipped: seq<Skip>, knownArgs: set<string>, knownIds: set<string>, perProtocol: map<string, nat>)

  function Taken(p: Plan, protocol: string): nat {
    if protocol in p.perProtocol then p.perProtocol[protocol] else 0
  }

  predicate CapFull(limit: int, taken: nat) {
    limit != 0 && taken >= limit
  }

  function Accept(p: Plan, row: Row, args: string, id: string): Plan {
    var protocol := ProtocolOf(row);
    Plan(p.entries + [EntryFor(row, args, id)], p.skipped, p.knownArgs + {args}, p.knownIds + {id},
         p.perProtocol[protocol := Taken(p, protocol) + 1])
  }

  function Refuse(p: Plan, row: Row, args: string, reason: Reason): Plan {
    p.(skipped := p.skipped + [Skip(Row(row.domain, ProtocolOf(row), args), reason)])
  }

  /** One turn of the loop. */
  ghost function Consider(p: Plan, s: Settings, row: Row): Plan {
    var v := Validate(row.args);
    if v.Failure? then Refuse(p, row, row.args, v.error)
    else if v.value in p.knownArgs then Refuse(p, row, v.value, AlreadyKnown)
    else if CapFull(s.maxImport, Taken(p, ProtocolOf(row))) then Refuse(p, row, v.value, OverCap(s.maxImport))
    else Accept(p, row, v.value, FreshId(Stem(s, row), p.knownIds))
  }

  ghost function PlanOf(catalog: seq<Entry>, s: Settings, rows: seq<Row>): Plan {
    if rows == [] then Plan([], [], KnownArgs(catalog), KnownIds(catalog), map[])
    else Consider(PlanOf(catalog, s, rows[..|rows| - 1]), s, rows[|rows| - 1])
  }

  /** The rows of one domain, and of a whole result, in the order the loops visit them. */
  function RowsOfDomain(d: Domain): (r: seq<Row>)
    ensures |r| == |d.working|
  {
    seq(|d.working|, i requires 0 <= i < |d.working| => Row(d.domain, d.working[i].0, d.working[i].1))
  }

  function RowsOf(result: seq<Domain>): seq<Row> {
    if result == [] then [] else RowsOf(result[..|result| - 1]) + RowsOfDomain(result[|result| - 1])
  }

  /** The loop body of plan_import. */
  method ConsiderRow(p: Plan, s: Settings, row: Row) returns (q: Plan)
    ensures q == Consider(p, s, row)
  {
    var v := ValidateArgs(row.args);
    if v.Failure? {
      return Refuse(p, row, row.args, v.error);
    }
    var args, protocol := v.value, ProtocolOf(row);
    if args in p.knownArgs {
      return Refuse(p, row, args, AlreadyKnown);
    }
    if s.maxImport != 0 && Taken(p, protocol) >= s.maxImport {
      return Refuse(p, row, args, OverCap(s.maxImport));
    }
    var id := FindFreshId(Stem(s, row), p.knownIds);
    q := Accept(p, row, args, id);
  }

  /** The loop that collects what the catalog already has. */
  method CollectKnown(catalog: seq<Entry>) returns (knownArgs: set<string>, knownIds: set<string>)
    ensures knownArgs == KnownArgs(catalog) && knownIds == KnownIds(catalog)
  {
    hide TextsOf;
    knownArgs, knownIds := {}, {};
    for i := 0 to |catalog|
      invariant knownArgs == KnownArgs(catalog[..i]) && knownIds == KnownIds(catalog[..i])
    {
      assert catalog[..i + 1][..i] == catalog[..i];
      knownArgs := knownArgs + TextsOf(catalog[i]);
      if catalog[i].id != "" {
        knownIds := knownIds + {catalog[i].id};
      }
    }
    assert catalog[..|catalog|] == catalog;
  }

  lemma PlanSnoc(catalog: seq<Entry>, s: Settings, rows: seq<Row>, row: Row)
    ensures PlanOf(catalog, s, rows + [row]) == Consider(PlanOf(catalog, s, rows), s, row)
  {
  }

  /** The loop over the rows of one domain. */
  method ConsiderRows(p: Plan, s: Settings, rows: seq<Row>, ghost catalog: seq<Entry>, ghost before: seq<Row>) returns (q: Plan)
    requires p == PlanOf(catalog, s, before)
    ensures q == PlanOf(catalog, s, before + rows)
  {
    hide PlanOf, Consider;
    q := p;
    assert before + rows[..0] == before;
    for i := 0 to |rows|
      invariant q == PlanOf(catalog, s, before + rows[..i])
    {
      PlanSnoc(catalog, s, before + rows[..i], rows[i]);
      assert before + rows[..i + 1] == before + rows[..i] + [rows[i]];
      q := ConsiderRow(q, s, rows[i]);
    }
    assert rows[..|rows|] == rows;
  }

  /** plan_import: the two nested loops over domains and rows. */
  method PlanImport(result: seq<Domain>, s: Settings, catalog: seq<Entry>) returns (entries: seq<Entry>, skipped: seq<Skip>)
    ensures var p := PlanOf(catalog, s, RowsOf(result));
            entries == p.entries && skipped == p.skipped
  {
    hide KnownArgs, KnownIds, Consider, RowsOfDomain;
    var knownArgs, knownIds := CollectKnown(catalog);
    var p := Plan([], [], knownArgs, knownIds, map[]);
    for d := 0 to |result|
      invariant p == PlanOf(catalog, s, RowsOf(result[..d]))
    {
      assert result[..d + 1][..d] == result[..d];
      p := ConsiderRows(p, s, RowsOfDomain(result[d]), catalog, RowsOf(result[..d]));
    }
    assert result[..|result|] == result;
    return p.entries, p.skipped;
  }

  // ---- the greedy plan, independently of the loop's variables ----

  function ArgsOf(row: Row): Option<string> {
    match Validate(row.args) case Success(args) => Some(args) case Failure(_) => None
  }

  /** The rows whose bit is set, in order. */
  function Selected(rows: seq<Row>, bits: seq<bool>): (r: seq<Row>)
    requires |rows| == |bits|
    ensures |r| <= |rows|
  {
    if rows == [] then []
    else
      var n := |rows| - 1;
      Selected(rows[..n], bits[..n]) + if bits[n] then [rows[n]] else []
  }

  function CountProtocol(rows: seq<Row>, protocol: string): nat {
    if rows == [] then 0
    else CountProtocol(rows[..|rows| - 1], protocol) + if ProtocolOf(rows[|rows| - 1]) == protocol then 1 else 0
  }

  /** The argument strings of the rows. */
  ghost function ArgsSet(rows: seq<Row>): set<string> {
    if rows == [] then {}
    else ArgsSet(rows[..|rows| - 1]) + match ArgsOf(rows[|rows| - 1]) case Some(a) => {a} case None => {}
  }

  /** A row goes in when it is valid, not in the catalog, not selected before, and under its cap. */
  ghost predicate GoesIn(catalog: seq<Entry>, s: Settings, before: seq<Row>, row: Row) {
    && ArgsOf(row).Some?
    && ArgsOf(row).value !in KnownArgs(catalog)
    && ArgsOf(row).value !in ArgsSet(before)
    && !(s.maxImport != 0 && CountProtocol(before, ProtocolOf(row)) >= s.maxImport)
  }

  ghost predicate IsGreedy(catalog: seq<Entry>, s: Settings, rows: seq<Row>, bits: seq<bool>) {
    && |bits| == |rows|
    && forall i :: 0 <= i < |rows| ==> (bits[i] <==> GoesIn(catalog, s, Selected(rows[..i], bits[..i]), rows[i]))
  }

  /** These conditions leave no choice. */
  lemma {:induction false} GreedyUnique(catalog: seq<Entry>, s: Settings, rows: seq<Row>, a: seq<bool>, b: seq<bool>)
    requires IsGreedy(catalog, s, rows, a) && IsGreedy(catalog, s, rows, b)
    ensures a == b
  {
    hide GoesIn, Selected;
    if rows != [] {
      var n := |rows| - 1;
      GreedyPrefix(catalog, s, rows, a, n);
      GreedyPrefix(catalog, s, rows, b, n);
      GreedyUnique(catalog, s, rows[..n], a[..n], b[..n]);
      assert a == a[..n] + [a[n]] && b == b[..n] + [b[n]];
    }
  }

  lemma GreedyPrefix(catalog: seq<Entry>, s: Settings, rows: seq<Row>, bits: seq<bool>, n: nat)
    requires IsGreedy(catalog, s, rows, bits) && n <= |rows|
    ensures IsGreedy(catalog, s, rows[..n], bits[..n])
  {
    hide GoesIn, Selected;
    forall i | 0 <= i < n
      ensures rows[..n][..i] == rows[..i] && bits[..n][..i] == bits[..i]
    {
    }
  }

  /** The entries are made from the selected rows, in order. */
  ghost predicate MadeFrom(entries: seq<Entry>, rows: seq<Row>) {
    && |entries| == |rows|
    && forall k :: 0 <= k < |rows| ==>
         ArgsOf(rows[k]).Some? && entries[k] == EntryFor(rows[k], ArgsOf(rows[k]).value, entries[k].id)
  }

  ghost predicate TracksArgs(catalog: seq<Entry>, p: Plan, selected: seq<Row>) {
    && p.knownArgs == KnownArgs(catalog) + ArgsSet(selected)
    && ArgsSet(selected) !! KnownArgs(catalog)
    && |ArgsSet(selected)| == |selected|
  }

  ghost predicate TracksIds(catalog: seq<Entry>, p: Plan) {
    && p.knownIds == KnownIds(catalog) + IdSet(p.entries)
    && IdSet(p.entries) !! KnownIds(catalog)
    && |IdSet(p.entries)| == |p.entries|
    && forall id :: id in IdSet(p.entries) ==> '_' in id
  }

  ghost predicate TracksCaps(s: Settings, p: Plan, selected: seq<Row>) {
    && (forall protocol :: Taken(p, protocol) == CountProtocol(selected, protocol))
    && (s.maxImport > 0 ==> forall protocol :: CountProtocol(selected, protocol) <= s.maxImport)
  }

  ghost predicate Tracks(catalog: seq<Entry>, s: Settings, p: Plan, selected: seq<Row>) {
    MadeFrom(p.entries, selected) && TracksArgs(catalog, p, selected) && TracksIds(catalog, p) && TracksCaps(s, p, selected)
  }

  lemma IdSetSnoc(entries: seq<Entry>, e: Entry)
    ensures IdSet(entries + [e]) == IdSet(entries) + {e.id}
  {
    var all := entries + [e];
    forall id
      ensures id in IdSet(all) <==> id in IdSet(entries) || id == e.id
    {
      if id in IdSet(entries) {
        var i :| 0 <= i < |entries| && entries[i].id == id;
        assert all[i].id == id;
      }
      assert all[|entries|] == e;
    }
  }

  lemma ArgsSetSnoc(rows: seq<Row>, row: Row)
    requires ArgsOf(row).Some?
    ensures ArgsSet(rows + [row]) == ArgsSet(rows) + {ArgsOf(row).value}
  {
  }

  lemma AcceptTracks(catalog: seq<Entry>, s: Settings, p: Plan, selected: seq<Row>, row: Row)
    requires Tracks(catalog, s, p, selected) && GoesIn(catalog, s, selected, row)
    ensures Tracks(catalog, s, Accept(p, row, ArgsOf(row).value, FreshId(Stem(s, row), p.knownIds)), selected + [row])
  {
    hide ArgsOf, EntryFor, KnownArgs, ArgsSet, CountProtocol, FreshId, Stem, TracksArgs, TracksIds, TracksCaps, ProtocolOf, Accept;
    var args, id := ArgsOf(row).value, FreshId(Stem(s, row), p.knownIds);
    AcceptMade(p, selected, row, id);
    AcceptArgs(catalog, p, selected, row, id);
    AcceptId(catalog, s, p, row, args);
    AcceptCaps(catalog, s, p, selected, row, args, id);
  }

  lemma AcceptMade(p: Plan, selected: seq<Row>, row: Row, id: string)
    requires MadeFrom(p.entries, selected) && ArgsOf(row).Some?
    ensures MadeFrom(Accept(p, row, ArgsOf(row).value, id).entries, selected + [row])
  {
    hide ArgsOf, ProtocolOf;
  }

  lemma AcceptArgs(catalog: seq<Entry>, p: Plan, selected: seq<Row>, row: Row, id: string)
    requires TracksArgs(catalog, p, selected) && ArgsOf(row).Some?
    requires ArgsOf(row).value !in KnownArgs(catalog) && ArgsOf(row).value !in ArgsSet(selected)
    ensures TracksArgs(catalog, Accept(p, row, ArgsOf(row).value, id), selected + [row])
  {
    hide ArgsOf, EntryFor, KnownArgs, ArgsSet, ProtocolOf;
    ArgsSetSnoc(selected, row);
  }

  lemma AcceptId(catalog: seq<Entry>, s: Settings, p: Plan, row: Row, args: string)
    requires TracksIds(catalog, p)
    ensures TracksIds(catalog, Accept(p, row, args, FreshId(Stem(s, row), p.knownIds)))
  {
    hide EntryFor, KnownIds, IdSet, FreshId, Stem, ProtocolOf;
    var id := FreshId(Stem(s, row), p.knownIds);
    IdSetSnoc(p.entries, EntryFor(row, args, id));
    EntryForFields(row, args, id);
    FreshIdFacts(Stem(s, row), p.knownIds);
    StemHasUnderscore(s, row);
  }

  lemma AcceptCaps(catalog: seq<Entry>, s: Settings, p: Plan, selected: seq<Row>, row: Row, args: string, id: string)
    requires TracksCaps(s, p, selected) && !CapFull(s.maxImport, CountProtocol(selected, ProtocolOf(row)))
    ensures TracksCaps(s, Accept(p, row, args, id), selected + [row])
  {
  }

  lemma StemHasUnderscore(s: Settings, row: Row)
    ensures '_' in Stem(s, row)
    ensures forall id: string :: Stem(s, row) <= id ==> '_' in id
  {
  }

  lemma EntryForFields(row: Row, args: string, id: string)
    ensures EntryFor(row, args, id).id == id
  {
  }

  /** The reason a skipped row is given says which condition it failed first. */
  ghost predicate RightReason(catalog: seq<Entry>, s: Settings, before: seq<Row>, row: Row, reason: Reason) {
    if ArgsOf(row) == None then Failure(reason) == Validate(row.args)
    else if ArgsOf(row).value in KnownArgs(catalog) + ArgsSet(before) then reason == AlreadyKnown
    else reason == OverCap(s.maxImport) && s.maxImport != 0 && CountProtocol(before, ProtocolOf(row)) >= s.maxImport
  }

  /** One turn of the loop accepts exactly the rows that go in, and keeps track of them. */
  lemma ConsiderTracks(catalog: seq<Entry>, s: Settings, p: Plan, selected: seq<Row>, row: Row)
    requires Tracks(catalog, s, p, selected)
    ensures var q := Consider(p, s, row);
            if GoesIn(catalog, s, selected, row)
            then Tracks(catalog, s, q, selected + [row]) && q.skipped == p.skipped
            else Tracks(catalog, s, q, selected) && q.entries == p.entries && |q.skipped| == |p.skipped| + 1
                 && q.skipped[..|p.skipped|] == p.skipped
                 && RightReason(catalog, s, selected, row, q.skipped[|p.skipped|].reason)
  {
    hide KnownArgs, ArgsSet, CountProtocol, FreshId, Stem, Tracks, Taken, EntryFor, Validate, ProtocolOf;
    TrackedState(catalog, s, p, selected, row);
    if GoesIn(catalog, s, selected, row) {
      AcceptTracks(catalog, s, p, selected, row);
    } else {
      RefuseTracks(catalog, s, p, selected, Consider(p, s, row).skipped);
    }
  }

  lemma TrackedState(catalog: seq<Entry>, s: Settings, p: Plan, selected: seq<Row>, row: Row)
    requires Tracks(catalog, s, p, selected)
    ensures p.knownArgs == KnownArgs(catalog) + ArgsSet(selected)
    ensures Taken(p, ProtocolOf(row)) == CountProtocol(selected, ProtocolOf(row))
  {
    hide KnownArgs, ArgsSet, CountProtocol, Taken, ProtocolOf, MadeFrom, TracksIds;
  }

  lemma RefuseTracks(catalog: seq<Entry>, s: Settings, p: Plan, selected: seq<Row>, skipped: seq<Skip>)
    requires Tracks(catalog, s, p, selected)
    ensures Tracks(catalog, s, p.(skipped := skipped), selected)
  {
    hide KnownArgs, KnownIds, ArgsSet, CountProtocol, IdSet, MadeFrom;
    assert forall protocol :: Taken(p.(skipped := skipped), protocol) == Taken(p, protocol);
  }

  /** The rows of the greedy plan, bit by bit. */
  ghost function GreedyBits(catalog: seq<Entry>, s: Settings, rows: seq<Row>): (bits: seq<bool>)
    ensures |bits| == |rows|
  {
    if rows == [] then []
    else
      var n := |rows| - 1;
      var bits := GreedyBits(catalog, s, rows[..n]);
      bits + [GoesIn(catalog, s, Selected(rows[..n], bits), rows[n])]
  }

  lemma {:induction false} GreedyBitsGreedy(catalog: seq<Entry>, s: Settings, rows: seq<Row>)
    ensures IsGreedy(catalog, s, rows, GreedyBits(catalog, s, rows))
  {
    hide GoesIn, Selected;
    if rows != [] {
      var n := |rows| - 1;
      var bits := GreedyBits(catalog, s, rows);
      GreedyBitsGreedy(catalog, s, rows[..n]);
      assert bits[..n] == GreedyBits(catalog, s, rows[..n]);
      forall i | 0 <= i < n
        ensures rows[..n][..i] == rows[..i] && bits[..n][..i] == bits[..i]
      {
      }
    }
  }

  ghost function SelectedBy(catalog: seq<Entry>, s: Settings, rows: seq<Row>): seq<Row> {
    Selected(rows, GreedyBits(catalog, s, rows))
  }

  /**
   plan_import computes the greedy plan: its entries are made from the rows that the greedy
   conditions select, in order, and every other row is skipped, each row once. The accepted
   argument strings are distinct and new to the catalog, so are the ids, and no protocol goes
   over a non-zero cap.
   */
  lemma {:induction false} PlanIsGreedy(catalog: seq<Entry>, s: Settings, rows: seq<Row>)
    ensures var p := PlanOf(catalog, s, rows);
            Tracks(catalog, s, p, SelectedBy(catalog, s, rows)) && |p.entries| + |p.skipped| == |rows|
  {
    hide GoesIn, Consider, KnownArgs, KnownIds, Tracks, SelectedBy;
    if rows == [] {
      EmptyTracks(catalog, s);
    } else {
      var n := |rows| - 1;
      PlanIsGreedy(catalog, s, rows[..n]);
      SelectedStep(catalog, s, rows);
      ConsiderTracks(catalog, s, PlanOf(catalog, s, rows[..n]), SelectedBy(catalog, s, rows[..n]), rows[n]);
      TracksGrow(catalog, s, PlanOf(catalog, s, rows), SelectedBy(catalog, s, rows));
      TracksGrow(catalog, s, PlanOf(catalog, s, rows[..n]), SelectedBy(catalog, s, rows[..n]));
    }
  }

  lemma SelectedStep(catalog: seq<Entry>, s: Settings, rows: seq<Row>)
    requires rows != []
    ensures var n := |rows| - 1;
            var before := SelectedBy(catalog, s, rows[..n]);
            SelectedBy(catalog, s, rows) == if GoesIn(catalog, s, before, rows[n]) then before + [rows[n]] else before
  {
  }

  lemma TracksGrow(catalog: seq<Entry>, s: Settings, p: Plan, selected: seq<Row>)
    requires Tracks(catalog, s, p, selected)
    ensures |p.entries| == |selected|
  {
  }

  // ---- the skipped rows ----

  /** The positions whose bit is not set, in order. */
  function Unset(bits: seq<bool>): (r: seq<nat>)
    ensures forall k :: 0 <= k < |r| ==> r[k] < |bits| && !bits[r[k]]
    ensures forall i :: 0 <= i < |bits| && !bits[i] ==> i in r
    ensures forall j, k :: 0 <= j < k < |r| ==> r[j] < r[k]
  {
    if bits == [] then []
    else
      var n := |bits| - 1;
      Unset(bits[..n]) + if bits[n] then [] else [n]
  }

  /** The skip reports row i, with the condition it failed first against the rows selected before it. */
  ghost predicate Reports(catalog: seq<Entry>, s: Settings, rows: seq<Row>, i: nat, skip: Skip)
    requires i < |rows|
  {
    var row := rows[i];
    && skip.row == Row(row.domain, ProtocolOf(row), match ArgsOf(row) case Some(a) => a case None => row.args)
    && RightReason(catalog, s, SelectedBy(catalog, s, rows[..i]), row, skip.reason)
  }

  lemma SkipReported(catalog: seq<Entry>, s: Settings, p: Plan, selected: seq<Row>, row: Row)
    requires Tracks(catalog, s, p, selected) && !GoesIn(catalog, s, selected, row)
    ensures var q := Consider(p, s, row);
            && |q.skipped| == |p.skipped| + 1 && q.skipped[..|p.skipped|] == p.skipped
            && var skip := q.skipped[|p.skipped|];
               && skip.row == Row(row.domain, ProtocolOf(row), match ArgsOf(row) case Some(a) => a case None => row.args)
               && RightReason(catalog, s, selected, row, skip.reason)
  {
    hide Tracks, GoesIn, RightReason, Validate, FreshId, EntryFor, Stem;
    ConsiderTracks(catalog, s, p, selected, row);
    ConsiderRefused(catalog, s, p, selected, row);
  }

  lemma ConsiderRefused(catalog: seq<Entry>, s: Settings, p: Plan, selected: seq<Row>, row: Row)
    requires Tracks(catalog, s, p, selected) && !GoesIn(catalog, s, selected, row)
    ensures var q := Consider(p, s, row);
            var args := match ArgsOf(row) case Some(a) => a case None => row.args;
            |q.skipped| == |p.skipped| + 1 && q.skipped[|p.skipped|].row == Row(row.domain, ProtocolOf(row), args)
  {
    hide KnownArgs, KnownIds, ArgsSet, CountProtocol, IdSet, FreshId, Stem, MadeFrom, EntryFor;
    assert Taken(p, ProtocolOf(row)) == CountProtocol(selected, ProtocolOf(row));
  }

  ghost predicate AllReported(catalog: seq<Entry>, s: Settings, rows: seq<Row>, skipped: seq<Skip>) {
    var at := Unset(GreedyBits(catalog, s, rows));
    && |skipped| == |at|
    && forall k :: 0 <= k < |at| ==> Reports(catalog, s, rows, at[k], skipped[k])
  }

  /** One more row leaves the reports as they are, or adds its own. */
  lemma ReportedStep(catalog: seq<Entry>, s: Settings, rows: seq<Row>, skipped: seq<Skip>, more: seq<Skip>)
    requires rows != [] && AllReported(catalog, s, rows[..|rows| - 1], skipped)
    requires var n := |rows| - 1;
             if GoesIn(catalog, s, SelectedBy(catalog, s, rows[..n]), rows[n]) then more == []
             else |more| == 1 && Reports(catalog, s, rows, n, more[0])
    ensures AllReported(catalog, s, rows, skipped + more)
  {
    hide GoesIn, SelectedBy, RightReason, ArgsOf, GreedyBits, Unset;
    var n := |rows| - 1;
    var at := Unset(GreedyBits(catalog, s, rows[..n]));
    LastBit(catalog, s, rows);
    forall k | 0 <= k < |at|
      ensures Reports(catalog, s, rows, at[k], skipped[k])
    {
      assert rows[..n][..at[k]] == rows[..at[k]];
      assert Reports(catalog, s, rows[..n], at[k], skipped[k]);
    }
  }

  /** The skipped list reports exactly the rows that are not selected, in order, each with its reason. */
  lemma {:induction false} PlanSkips(catalog: seq<Entry>, s: Settings, rows: seq<Row>)
    ensures AllReported(catalog, s, rows, PlanOf(catalog, s, rows).skipped)
  {
    hide GoesIn, Consider, Tracks, SelectedBy, RightReason, ArgsOf, AllReported;
    if rows != [] {
      var n := |rows| - 1;
      var p, before := PlanOf(catalog, s, rows[..n]), SelectedBy(catalog, s, rows[..n]);
      var q := Consider(p, s, rows[n]);
      PlanSkips(catalog, s, rows[..n]);
      PlanIsGreedy(catalog, s, rows[..n]);
      ConsiderTracks(catalog, s, p, before, rows[n]);
      if GoesIn(catalog, s, before, rows[n]) {
        ReportedStep(catalog, s, rows, p.skipped, []);
        assert p.skipped + [] == q.skipped;
      } else {
        SkipReported(catalog, s, p, before, rows[n]);
        ReportedStep(catalog, s, rows, p.skipped, [q.skipped[|p.skipped|]]);
        assert p.skipped + [q.skipped[|p.skipped|]] == q.skipped;
      }
    } else {
      NoneReported(catalog, s);
    }
  }

  lemma NoneReported(catalog: seq<Entry>, s: Settings)
    ensures AllReported(catalog, s, [], PlanOf(catalog, s, []).skipped)
  {
  }

  lemma LastBit(catalog: seq<Entry>, s: Settings, rows: seq<Row>)
    requires rows != []
    ensures var n := |rows| - 1;
            var at := Unset(GreedyBits(catalog, s, rows[..n]));
            Unset(GreedyBits(catalog, s, rows)) ==
            if GoesIn(catalog, s, SelectedBy(catalog, s, rows[..n]), rows[n]) then at else at + [n]
  {
  }

  lemma EmptyTracks(catalog: seq<Entry>, s: Settings)
    ensures Tracks(catalog, s, PlanOf(catalog, s, []), SelectedBy(catalog, s, []))
    ensures PlanOf(catalog, s, []).entries == [] && PlanOf(catalog, s, []).skipped == []
  {
  }
}
