/**
 The budgeted loop of run in src/blockcheck.py: a scan and a check for every domain, each
 granted what is left until the deadline but never less than five seconds. subprocess.run
 stops a step at its budget; the time the loop spends outside its steps counts as zero.
 */
module RunBudget {
  import opened Wrappers
  import opened Selection
  import opened Sequences
  import opened Sorting

  /** A step as it would go unhindered: how long it wants, and its return code. */
  datatype Command = Command(wants: real, rc: int)

  /** One planned domain with what its steps would do and report; None is an unreadable report. */
  datatype Work = Work(
    domain: string, scan: Command, candidates: Option<nat>, check: Command, checked: Option<seq<Row>>)

  datatype Record = Record(
    domain: string, scanRc: Option<int>, checkRc: Option<int>, scanned: nat, checked: nat,
    working: seq<Row>, refused: seq<(Row, Reason)>)

  datatype RunError = ScanFailed(domain: string, rc: int) | NoScanReport(domain: string)
                    | CheckFailed(domain: string, rc: int) | NoCheckReport(domain: string)

  /** max(5, deadline - time.time()) */
  function Budget(deadline: real, now: real): real {
    Max(5.0, deadline - now)
  }

  /** What _run_step returns under a timeout: 124 when the step is stopped. */
  function StepRc(c: Command, budget: real): int {
    if c.wants > budget then 124 else c.rc
  }

  function StepEnd(c: Command, budget: real, now: real): real {
    now + if c.wants > budget then budget else Max(0.0, c.wants)
  }

  datatype Progress = Progress(records: seq<Record>, errors: seq<RunError>, now: real)

  function Fresh(domain: string): Record {
    Record(domain, None, None, 0, 0, [], [])
  }

  function Report(p: Progress, r: Record, e: Option<RunError>, now: real): Progress {
    Progress(p.records + [r], match e case Some(x) => p.errors + [x] case None => p.errors, now)
  }

  function FirstHundred(refused: seq<(Row, Reason)>): seq<(Row, Reason)> {
    if |refused| <= 100 then refused else refused[..100]
  }

  /** The progress after one turn of the loop. */
  function Turn(p: Progress, w: Work, s: Settings, deadline: real): Progress {
    var scanBudget := Budget(deadline, p.now);
    var scanRc, now1 := StepRc(w.scan, scanBudget), StepEnd(w.scan, scanBudget, p.now);
    var r1 := Fresh(w.domain).(scanRc := Some(scanRc));
    if scanRc != 0 then Report(p, r1, Some(ScanFailed(w.domain, scanRc)), now1)
    else if w.candidates.None? then Report(p, r1, Some(NoScanReport(w.domain)), now1)
    else
      var r2 := r1.(scanned := w.candidates.value);
      if w.candidates.value == 0 then Report(p, r2, None, now1)
      else
        var checkBudget := Budget(deadline, now1);
        var checkRc, now2 := StepRc(w.check, checkBudget), StepEnd(w.check, checkBudget, now1);
        var r3 := r2.(checkRc := Some(checkRc));
        if checkRc != 0 then Report(p, r3, Some(CheckFailed(w.domain, checkRc)), now2)
        else if w.checked.None? then Report(p, r3, Some(NoCheckReport(w.domain)), now2)
        else
          var rows := w.checked.value;
          Report(p, r3.(checked := |rows|, working := Filter(Passing(s), Rank(rows)),
                        refused := FirstHundred(Refusals(Rank(rows), s))), None, now2)
  }

  function Turns(ws: seq<Work>, s: Settings, deadline: real, started: real): Progress {
    if ws == [] then Progress([], [], started)
    else Turn(Turns(ws[..|ws| - 1], s, deadline, started), ws[|ws| - 1], s, deadline)
  }

  datatype Result = Result(ok: bool, success: bool, records: seq<Record>, errors: seq<RunError>, took: real)

  predicate ScanWorked(records: seq<Record>) {
    exists i :: 0 <= i < |records| && records[i].scanRc == Some(0)
  }

  predicate AnyWorking(records: seq<Record>) {
    exists i :: 0 <= i < |records| && records[i].working != []
  }

  /** The body of the loop over plans. */
  method RunDomain(w: Work, s: Settings, deadline: real, now: real) returns (r: Record, e: Option<RunError>, end: real)
    ensures forall p: Progress :: p.now == now ==> Turn(p, w, s, deadline) == Report(p, r, e, end)
  {
    hide Rank, Refusals, Passing, Filter;
    r := Fresh(w.domain);
    e := None;
    var budget := Budget(deadline, now);
    var rc := StepRc(w.scan, budget);
    end := StepEnd(w.scan, budget, now);
    r := r.(scanRc := Some(rc));
    if rc != 0 {
      e := Some(ScanFailed(w.domain, rc));
      return;
    }
    if w.candidates == None {
      e := Some(NoScanReport(w.domain));
      return;
    }
    r := r.(scanned := w.candidates.value);
    if w.candidates.value == 0 {
      return;
    }
    budget := Budget(deadline, end);
    rc := StepRc(w.check, budget);
    end := StepEnd(w.check, budget, end);
    r := r.(checkRc := Some(rc));
    if rc != 0 {
      e := Some(CheckFailed(w.domain, rc));
      return;
    }
    if w.checked.None? {
      e := Some(NoCheckReport(w.domain));
      return;
    }
    var accepted, refused := SelectWorking(w.checked.value, s);
    r := r.(checked := |w.checked.value|, working := accepted, refused := FirstHundred(refused));
  }

  /** run, from the plans to the summary flags. */
  method Run(ws: seq<Work>, s: Settings, jobTimeout: real, started: real) returns (result: Result)
    ensures var p := Turns(ws, s, started + jobTimeout, started);
            && result.records == p.records && result.errors == p.errors && result.took == p.now - started
            && (result.ok <==> ScanWorked(p.records)) && (result.success <==> AnyWorking(p.records))
  {
    hide Turn;
    var deadline := started + jobTimeout;
    var p := Progress([], [], started);
    for i := 0 to |ws|
      invariant p == Turns(ws[..i], s, deadline, started)
    {
      assert ws[..i + 1][..i] == ws[..i];
      var r, e, end := RunDomain(ws[i], s, deadline, p.now);
      p := Report(p, r, e, end);
    }
    assert ws[..|ws|] == ws;
    result := Result(ScanWorked(p.records), AnyWorking(p.records), p.records, p.errors, p.now - started);
  }

  // ---- the deadline ----

  /** The latest instant after k steps. */
  function Limit(started: real, jobTimeout: real, k: nat): real {
    if k == 0 then started else started + Max(5.0, jobTimeout) + 5.0 * (k - 1) as real
  }

  lemma TurnWithinLimit(p: Progress, w: Work, s: Settings, started: real, jobTimeout: real, k: nat)
    requires p.now <= Limit(started, jobTimeout, k)
    ensures Turn(p, w, s, started + jobTimeout).now <= Limit(started, jobTimeout, k + 2)
  {
  }

  lemma {:induction false} TurnsWithinLimit(ws: seq<Work>, s: Settings, started: real, jobTimeout: real)
    ensures Turns(ws, s, started + jobTimeout, started).now <= Limit(started, jobTimeout, 2 * |ws|)
  {
    hide Turn, Limit;
    if ws == [] {
      assert Limit(started, jobTimeout, 0) == started by { LimitStart(started, jobTimeout); }
    } else {
      var n := |ws| - 1;
      TurnsWithinLimit(ws[..n], s, started, jobTimeout);
      TurnWithinLimit(Turns(ws[..n], s, started + jobTimeout, started), ws[n], s, started, jobTimeout, 2 * n);
    }
  }

  lemma LimitStart(started: real, jobTimeout: real)
    ensures Limit(started, jobTimeout, 0) == started
  {
  }

  /**
   Whichever scans and checks fail or time out, a run over n >= 1 domains ends by
   job_timeout + 5 * (2n - 1) seconds; below five seconds the timeout counts as five.
   */
  lemma DeadlineBound(ws: seq<Work>, s: Settings, started: real, jobTimeout: real)
    requires ws != []
    ensures Turns(ws, s, started + jobTimeout, started).now - started
            <= Max(5.0, jobTimeout) + 5.0 * (2 * |ws| - 1) as real
  {
    hide Turns;
    TurnsWithinLimit(ws, s, started, jobTimeout);
  }

  /** A domain whose two steps both succeed at the last moment: first is the budget of its scan. */
  function Slow(first: real): Work {
    Work("", Command(first, 0), Some(1), Command(5.0, 0), Some([]))
  }

  function SlowDomains(n: nat, jobTimeout: real): (ws: seq<Work>)
    ensures |ws| == n
  {
    if n == 0 then [] else SlowDomains(n - 1, jobTimeout) + [Slow(if n == 1 then Max(5.0, jobTimeout) else 5.0)]
  }

  lemma SlowTurn(p: Progress, s: Settings, deadline: real, first: real)
    requires first == Budget(deadline, p.now)
    ensures Turn(p, Slow(first), s, deadline).now == p.now + first + 5.0
  {
  }

  /** The bound is attained, for every number of domains. */
  lemma {:induction false} DeadlineTight(n: nat, s: Settings, started: real, jobTimeout: real)
    requires n >= 1
    ensures Turns(SlowDomains(n, jobTimeout), s, started + jobTimeout, started).now - started
            == Max(5.0, jobTimeout) + 5.0 * (2 * n - 1) as real
  {
    hide Turn;
    var ws, deadline := SlowDomains(n, jobTimeout), started + jobTimeout;
    assert ws[..n - 1] == SlowDomains(n - 1, jobTimeout);
    var p := Turns(ws[..n - 1], s, deadline, started);
    if n > 1 {
      DeadlineTight(n - 1, s, started, jobTimeout);
      SlowTurn(p, s, deadline, 5.0);
    } else {
      assert p == Progress([], [], started);
      SlowTurn(p, s, deadline, Max(5.0, jobTimeout));
    }
  }

  // ---- the records ----

  /** A record lists working rows only when both steps succeeded, and only rows the filter passes. */
  ghost predicate SoundRecord(r: Record, s: Settings) {
    && (r.working != [] ==> r.scanRc == Some(0) && r.checkRc == Some(0))
    && (r.checkRc.Some? ==> r.scanRc == Some(0))
    && |r.working| <= r.checked && |r.refused| <= 100
    && forall i :: 0 <= i < |r.working| ==> Trusted(r.working[i], s)
  }

  lemma TurnRecord(p: Progress, w: Work, s: Settings, deadline: real)
    ensures var q := Turn(p, w, s, deadline);
            && |q.records| == |p.records| + 1 && q.records[..|p.records|] == p.records
            && q.records[|p.records|].domain == w.domain && SoundRecord(q.records[|p.records|], s)
  {
    hide Rank, Refusals, Filter, FilterReason, Trusted;
    if w.checked.Some? {
      var rows := w.checked.value;
      var accepted := Filter(Passing(s), Rank(rows));
      FilterLength(Passing(s), Rank(rows));
      RankLength(rows);
      forall i | 0 <= i < |accepted|
        ensures Trusted(accepted[i], s)
      {
        FilterMember(Passing(s), Rank(rows), accepted[i]);
        FilterReasonTrusts(accepted[i], s);
      }
    }
  }

  lemma RankLength(rows: seq<Row>)
    ensures |Rank(rows)| == |rows|
  {
    if rows != [] {
      SortMember(RanksBefore, rows, rows[0]);
    }
  }

  /** One record per planned domain, in order, each of them sound. */
  lemma {:induction false} OneRecordEach(ws: seq<Work>, s: Settings, deadline: real, started: real)
    ensures var records := Turns(ws, s, deadline, started).records;
            && |records| == |ws|
            && forall i :: 0 <= i < |ws| ==> records[i].domain == ws[i].domain && SoundRecord(records[i], s)
  {
    hide Turn, SoundRecord;
    if ws != [] {
      var n := |ws| - 1;
      OneRecordEach(ws[..n], s, deadline, started);
      var p := Turns(ws[..n], s, deadline, started);
      TurnRecord(p, ws[n], s, deadline);
      var q := Turns(ws, s, deadline, started);
      assert forall i :: 0 <= i < n ==> q.records[i] == q.records[..n][i];
    }
  }
}
