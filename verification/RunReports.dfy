/**
 What a run reports, told from what its steps do: the codes and errors of each domain, which
 rows its record lists, and when the run counts as a success.
 */
module RunReports {
  import opened Wrappers
  import opened Sequences
  import opened Sorting
  import opened Selection
  import opened RunBudget

  /** A step may run until the deadline, and for five seconds in any case. */
  function Granted(deadline: real, now: real): real {
    if now + 5.0 <= deadline then deadline - now else 5.0
  }

  predicate Finishes(c: Command, granted: real) {
    c.wants <= granted
  }

  /** The code of a step that finishes is its own; one that is stopped gets 124. */
  function CodeOf(c: Command, granted: real): int {
    if Finishes(c, granted) then c.rc else 124
  }

  function TimeTaken(c: Command, granted: real): real {
    if !Finishes(c, granted) then granted else if c.wants >= 0.0 then c.wants else 0.0
  }

  /** A list holds exactly the rows that satisfy keep, each as often as it was checked. */
  ghost predicate HoldsJust(list: seq<Row>, rows: seq<Row>, keep: Row -> bool) {
    forall row :: multiset(list)[row] == if keep(row) then multiset(rows)[row] else 0
  }

  function Trusts(s: Settings): Row -> bool {
    row => Trusted(row, s)
  }

  function Distrusts(s: Settings): Row -> bool {
    row => !Trusted(row, s)
  }

  /** All rows that are not trusted, in rank order, with the reason of each. */
  ghost predicate AllOthers(all: seq<(Row, Reason)>, rows: seq<Row>, s: Settings) {
    && IsSorted(RanksBefore, Selection.RowsOf(all))
    && HoldsJust(Selection.RowsOf(all), rows, Distrusts(s))
    && forall i :: 0 <= i < |all| ==> FilterReason(all[i].0, s) == Some(all[i].1)
  }

  ghost predicate FirstHundredOthers(refused: seq<(Row, Reason)>, rows: seq<Row>, s: Settings) {
    exists all :: AllOthers(all, rows, s) && refused == if |all| <= 100 then all else all[..100]
  }

  /** The record lists exactly the trusted rows, best first, and the first hundred of the others. */
  ghost predicate ListsRows(r: Record, rows: seq<Row>, s: Settings) {
    && r.checked == |rows|
    && HoldsJust(r.working, rows, Trusts(s)) && IsSorted(RanksBefore, r.working)
    && FirstHundredOthers(r.refused, rows, s)
  }

  predicate ListsNothing(r: Record) {
    r.checked == 0 && r.working == [] && r.refused == []
  }

  /** What the turn of one domain, started at the instant `at`, adds to the records and the errors. */
  ghost predicate Reports(w: Work, s: Settings, deadline: real, at: real, r: Record, errors: seq<RunError>, end: real) {
    var g1 := Granted(deadline, at);
    var t1 := at + TimeTaken(w.scan, g1);
    var g2 := Granted(deadline, t1);
    var scan, check := CodeOf(w.scan, g1), CodeOf(w.check, g2);
    var checks := scan == 0 && w.candidates.Some? && w.candidates.value > 0;
    && r.domain == w.domain && r.scanRc == Some(scan)
    && r.scanned == (if scan == 0 && w.candidates.Some? then w.candidates.value else 0)
    && r.checkRc == (if checks then Some(check) else None)
    && end == (if checks then t1 + TimeTaken(w.check, g2) else t1)
    && errors == (if scan != 0 then [ScanFailed(w.domain, scan)]
                  else if w.candidates == None then [NoScanReport(w.domain)]
                  else if !checks then []
                  else if check != 0 then [CheckFailed(w.domain, check)]
                  else if w.checked.None? then [NoCheckReport(w.domain)]
                  else [])
    && (if checks && check == 0 && w.checked.Some? then ListsRows(r, w.checked.value, s) else ListsNothing(r))
  }

  lemma {:induction false} FilterCount<T>(keep: T -> bool, s: seq<T>, x: T)
    ensures multiset(Filter(keep, s))[x] == if keep(x) then multiset(s)[x] else 0
  {
    if s != [] {
      FilterCount(keep, s[..|s| - 1], x);
      assert s == s[..|s| - 1] + [s[|s| - 1]];
    }
  }

  lemma FilteredRank(rows: seq<Row>, keep: Row -> bool)
    ensures HoldsJust(Filter(keep, Rank(rows)), rows, keep)
    ensures IsSorted(RanksBefore, Filter(keep, Rank(rows)))
  {
    SortPermutes(RanksBefore, rows);
    forall row
      ensures multiset(Filter(keep, Rank(rows)))[row] == if keep(row) then multiset(rows)[row] else 0
    {
      FilterCount(keep, Rank(rows), row);
    }
    RankIsPreorder();
    SortFilter(RanksBefore, keep, rows);
    SortSorted(RanksBefore, Filter(keep, rows));
  }

  lemma {:induction false} SameFilter<T>(a: T -> bool, b: T -> bool, s: seq<T>)
    requires forall i :: 0 <= i < |s| ==> a(s[i]) == b(s[i])
    ensures Filter(a, s) == Filter(b, s)
  {
    if s != [] {
      assert forall i :: 0 <= i < |s| - 1 ==> s[..|s| - 1][i] == s[i];
      SameFilter(a, b, s[..|s| - 1]);
    }
  }

  /** select_working's two lists, told by Trusted. */
  lemma SelectionLists(rows: seq<Row>, s: Settings)
    ensures HoldsJust(Filter(Passing(s), Rank(rows)), rows, Trusts(s))
    ensures IsSorted(RanksBefore, Filter(Passing(s), Rank(rows)))
    ensures AllOthers(Refusals(Rank(rows), s), rows, s)
  {
    hide FilterReason, Trusted, Rank, HoldsJust, IsSorted;
    var ranked := Rank(rows);
    forall row
      ensures Passing(s)(row) == Trusts(s)(row) && Failing(s)(row) == Distrusts(s)(row)
    {
      FilterReasonTrusts(row, s);
    }
    SameFilter(Passing(s), Trusts(s), ranked);
    SameFilter(Failing(s), Distrusts(s), ranked);
    FilteredRank(rows, Trusts(s));
    FilteredRank(rows, Distrusts(s));
    RefusalsAreFailing(ranked, s);
  }

  lemma BudgetIs(deadline: real, now: real, c: Command)
    ensures Budget(deadline, now) == Granted(deadline, now)
    ensures StepRc(c, Budget(deadline, now)) == CodeOf(c, Granted(deadline, now))
    ensures StepEnd(c, Budget(deadline, now), now) == now + TimeTaken(c, Granted(deadline, now))
  {
  }

  /** One turn of the run reports exactly this, whichever steps fail, are stopped, or leave no report. */
  lemma TurnReports(p: Progress, w: Work, s: Settings, deadline: real)
    ensures var q, n := Turn(p, w, s, deadline), |p.records|;
            && |q.records| == n + 1 && q.records[..n] == p.records
            && p.errors <= q.errors
            && Reports(w, s, deadline, p.now, q.records[n], q.errors[|p.errors|..], q.now)
  {
    hide Budget, StepRc, StepEnd, Granted, CodeOf, TimeTaken, AllOthers, HoldsJust, Rank, Refusals, Passing, Filter, FilterReason, Trusted;
    var g1 := Granted(deadline, p.now);
    BudgetIs(deadline, p.now, w.scan);
    BudgetIs(deadline, p.now + TimeTaken(w.scan, g1), w.check);
    if w.checked.Some? {
      SelectionLists(w.checked.value, s);
      var all := Refusals(Rank(w.checked.value), s);
      assert FirstHundredOthers(FirstHundred(all), w.checked.value, s);
    }
  }

  // ---- success ----

  /** When the turn of domain i starts. */
  function StartOf(ws: seq<Work>, s: Settings, deadline: real, started: real, i: nat): real
    requires i <= |ws|
  {
    Turns(ws[..i], s, deadline, started).now
  }

  predicate ScanSucceeds(w: Work, deadline: real, at: real) {
    Finishes(w.scan, Granted(deadline, at)) && w.scan.rc == 0
  }

  /** Both steps succeed in their budgets, the scan finds candidates, and a checked row is trusted. */
  ghost predicate Succeeds(w: Work, s: Settings, deadline: real, at: real) {
    && ScanSucceeds(w, deadline, at) && w.candidates.Some? && w.candidates.value > 0
    && Finishes(w.check, Granted(deadline, at + TimeTaken(w.scan, Granted(deadline, at)))) && w.check.rc == 0
    && w.checked.Some? && exists row :: row in w.checked.value && Trusted(row, s)
  }

  lemma WorkingIff(w: Work, s: Settings, deadline: real, at: real, r: Record, errors: seq<RunError>, end: real)
    requires Reports(w, s, deadline, at, r, errors, end)
    ensures r.working != [] <==> Succeeds(w, s, deadline, at)
    ensures r.scanRc == Some(0) <==> ScanSucceeds(w, deadline, at)
  {
    hide Granted, TimeTaken, Trusted, FirstHundredOthers, IsSorted;
    if w.checked.Some? && ListsRows(r, w.checked.value, s) {
      SomeTrusted(r.working, w.checked.value, s);
    }
  }

  lemma SomeTrusted(list: seq<Row>, rows: seq<Row>, s: Settings)
    requires HoldsJust(list, rows, Trusts(s))
    ensures list != [] <==> exists row :: row in rows && Trusted(row, s)
  {
    hide Trusted;
    if list != [] {
      assert list[0] in multiset(list);
      assert list[0] in multiset(rows);
    }
    if row :| row in rows && Trusted(row, s) {
      assert row in multiset(rows);
      assert row in multiset(list);
    }
  }

  ghost predicate Reported(w: Work, s: Settings, deadline: real, at: real, r: Record) {
    exists errors, end :: Reports(w, s, deadline, at, r, errors, end)
  }

  /** Record i of a run reports domain i, started when the turns before it ended. */
  lemma {:induction false} EachReported(ws: seq<Work>, s: Settings, deadline: real, started: real)
    ensures var records := Turns(ws, s, deadline, started).records;
            && |records| == |ws|
            && forall i :: 0 <= i < |ws| ==>
                 Reported(ws[i], s, deadline, StartOf(ws, s, deadline, started, i), records[i])
  {
    hide Turn, Reports;
    if ws != [] {
      var n := |ws| - 1;
      EachReported(ws[..n], s, deadline, started);
      var p, q := Turns(ws[..n], s, deadline, started), Turns(ws, s, deadline, started);
      TurnReports(p, ws[n], s, deadline);
      hide Reported;
      forall i | 0 <= i < n
        ensures Reported(ws[i], s, deadline, StartOf(ws, s, deadline, started, i), q.records[i])
      {
        assert ws[..n][..i] == ws[..i] && q.records[i] == q.records[..n][i];
        assert StartOf(ws[..n], s, deadline, started, i) == StartOf(ws, s, deadline, started, i);
      }
      LastReported(ws[n], s, deadline, p.now, q.records[n], q.errors[|p.errors|..], q.now);
    }
  }

  lemma LastReported(w: Work, s: Settings, deadline: real, at: real, r: Record, errors: seq<RunError>, end: real)
    requires Reports(w, s, deadline, at, r, errors, end)
    ensures Reported(w, s, deadline, at, r)
  {
  }

  /**
   A run is a success exactly when some domain has both steps succeed within their budgets and
   a row that is trusted; it is ok exactly when some scan succeeds.
   */
  lemma SuccessIff(ws: seq<Work>, s: Settings, deadline: real, started: real)
    ensures var records := Turns(ws, s, deadline, started).records;
            && (AnyWorking(records) <==>
                  exists i :: 0 <= i < |ws| && Succeeds(ws[i], s, deadline, StartOf(ws, s, deadline, started, i)))
            && (ScanWorked(records) <==>
                  exists i :: 0 <= i < |ws| && ScanSucceeds(ws[i], deadline, StartOf(ws, s, deadline, started, i)))
  {
    hide Turns, Reports, Succeeds, ScanSucceeds, StartOf;
    var records := Turns(ws, s, deadline, started).records;
    EachReported(ws, s, deadline, started);
    forall i | 0 <= i < |ws|
      ensures records[i].working != [] <==> Succeeds(ws[i], s, deadline, StartOf(ws, s, deadline, started, i))
      ensures records[i].scanRc == Some(0) <==> ScanSucceeds(ws[i], deadline, StartOf(ws, s, deadline, started, i))
    {
      var errors, end :| Reports(ws[i], s, deadline, StartOf(ws, s, deadline, started, i), records[i], errors, end);
      WorkingIff(ws[i], s, deadline, StartOf(ws, s, deadline, started, i), records[i], errors, end);
    }
  }
}
