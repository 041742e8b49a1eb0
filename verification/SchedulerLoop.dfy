/**
 The scheduler thread of src/panel/panel.py over its persisted next_run and last_run, together
 with schedule saves from the panel. Each tick and each save is one atomic step.
 */
module SchedulerLoop {
  import opened Wrappers
  import opened Schedule

  /** A fired run: the tick that fired it and the slot it was due in. */
  datatype Fire = Fire(tick: real, slot: real)

  /** Persisted schedule and state, with the fires so far and the time of the last tick. */
  datatype State = State(
    schedule: Schedule, nextRun: Option<real>, lastRun: Option<real>, fires: seq<Fire>, clock: Option<real>)

  datatype Event = Tick(now: real) | Save(schedule: Schedule)

  /** `state.get("next_run")` is true: present, and not zero. */
  predicate Armed(next: Option<real>) {
    next.Some? && next.value != 0.0
  }

  /** schedule_due */
  predicate Due(s: Schedule, now: real, next: Option<real>) {
    s.enabled && next.Some? && now >= next.value
  }

  /** One turn of the scheduler loop at the instant now. */
  function OnTick(st: State, offset: int, now: real): State {
    var st := st.(clock := Some(now));
    if !st.schedule.enabled then
      if Armed(st.nextRun) then st.(nextRun := None) else st
    else if !Armed(st.nextRun) then
      st.(nextRun := NextRunAt(st.schedule, offset, now, st.lastRun))
    else if !Due(st.schedule, now, st.nextRun) then st
    else
      var slot := st.nextRun.value;
      st.(lastRun := Some(slot), nextRun := NextRunAt(st.schedule, offset, now, Some(slot)),
          fires := st.fires + [Fire(now, slot)])
  }

  /** A successful save of the schedule: the stored slot is forgotten, the last run is not. */
  function OnSave(st: State, schedule: Schedule): State {
    st.(schedule := schedule, nextRun := None)
  }

  function Step(st: State, offset: int, e: Event): State {
    match e
    case Tick(now) => OnTick(st, offset, now)
    case Save(schedule) => OnSave(st, schedule)
  }

  /** The persisted dictionary that the thread and the save handler update in place. */
  class Scheduler {
    var schedule: Schedule
    var nextRun: Option<real>
    var lastRun: Option<real>
    var fires: seq<Fire>
    var clock: Option<real>
    const offset: int

    constructor (schedule: Schedule, offset: int)
      ensures Stored() == State(schedule, None, None, [], None) && this.offset == offset
    {
      this.schedule, this.offset := schedule, offset;
      nextRun, lastRun, fires, clock := None, None, [], None;
    }

    function Stored(): State
      reads this
    {
      State(schedule, nextRun, lastRun, fires, clock)
    }

    /** The body of _bcw_scheduler's loop; fired tells whether bcw_start_run is called. */
    method Turn(now: real) returns (fired: bool)
      modifies this
      ensures Stored() == OnTick(old(Stored()), offset, now)
      ensures fired <==> fires != old(fires)
    {
      fired := false;
      clock := Some(now);
      if !schedule.enabled {
        if Armed(nextRun) {
          nextRun := None;
        }
        return;
      }
      if !Armed(nextRun) {
        nextRun := NextRun(schedule, offset, now, lastRun);
        return;
      }
      if !Due(schedule, now, nextRun) {
        return;
      }
      var slot := nextRun.value;
      lastRun := Some(slot);
      nextRun := NextRun(schedule, offset, now, lastRun);
      fires := fires + [Fire(now, slot)];
      fired := true;
    }

    /** The /api/bcw/schedule handler after a save without errors: re-arm at the next tick. */
    method Rearm(saved: Schedule)
      modifies this
      ensures Stored() == OnSave(old(Stored()), saved)
    {
      schedule := saved;
      nextRun := None;
    }
  }

  /** Saves are of valid schedules and the clock does not run backwards. */
  predicate Possible(st: State, e: Event) {
    match e
    case Tick(now) => st.clock.Some? ==> st.clock.value <= now
    case Save(schedule) => ValidSchedule(schedule)
  }

  /** The state after a run that starts from schedule s0 and no stored state; impossible events are passed over. */
  function Exec(s0: Schedule, offset: int, es: seq<Event>): State {
    if es == [] then State(s0, None, None, [], None)
    else
      var st := Exec(s0, offset, es[..|es| - 1]);
      if Possible(st, es[|es| - 1]) then Step(st, offset, es[|es| - 1]) else st
  }

  ghost predicate FiresInOrder(fires: seq<Fire>) {
    && (forall i :: 0 <= i < |fires| ==> fires[i].slot <= fires[i].tick)
    && (forall i, j :: 0 <= i < j < |fires| ==> fires[i].slot < fires[j].slot && fires[i].tick < fires[j].slot)
  }

  ghost predicate Inv(st: State) {
    && ValidSchedule(st.schedule)
    && FiresInOrder(st.fires)
    && (st.fires == [] ==> st.lastRun == None)
    && (st.fires != [] ==>
          var last := st.fires[|st.fires| - 1];
          && st.lastRun == Some(last.slot)
          && st.clock.Some? && last.tick <= st.clock.value
          && (st.nextRun.Some? ==> last.slot < st.nextRun.value && last.tick < st.nextRun.value))
  }

  lemma TickKeeps(st: State, offset: int, now: real)
    requires Inv(st) && Possible(st, Tick(now))
    ensures Inv(OnTick(st, offset, now))
  {
    hide NextRunAt, ValidSchedule;
    if st.schedule.enabled {
      if !Armed(st.nextRun) {
        NextRunIsLater(st.schedule, offset, now, st.lastRun);
      } else if Due(st.schedule, now, st.nextRun) {
        NextRunIsLater(st.schedule, offset, now, st.nextRun);
      }
    }
  }

  lemma {:induction false} RunKeeps(s0: Schedule, offset: int, es: seq<Event>)
    requires ValidSchedule(s0)
    ensures Inv(Exec(s0, offset, es))
  {
    hide OnTick;
    if es != [] {
      var st := Exec(s0, offset, es[..|es| - 1]);
      RunKeeps(s0, offset, es[..|es| - 1]);
      if es[|es| - 1].Tick? && Possible(st, es[|es| - 1]) {
        TickKeeps(st, offset, es[|es| - 1].now);
      }
    }
  }

  /**
   Over every run of ticks and valid saves: no slot fires early, slots strictly increase, and a
   slot fires only after the tick of the previous fire, so that one tick after an outage fires
   at most one of the slots that passed.
   */
  lemma SlotsIncrease(s0: Schedule, offset: int, es: seq<Event>, i: nat, j: nat)
    requires ValidSchedule(s0) && i < j < |Exec(s0, offset, es).fires|
    ensures var fires := Exec(s0, offset, es).fires;
            fires[i].slot <= fires[i].tick < fires[j].slot <= fires[j].tick
  {
    hide Exec;
    RunKeeps(s0, offset, es);
  }

  /** The slot armed when a run fires lies after the tick that fires it. */
  lemma RearmedLater(st: State, offset: int, now: real)
    requires Inv(st) && Possible(st, Tick(now)) && |OnTick(st, offset, now).fires| > |st.fires|
    ensures var st' := OnTick(st, offset, now);
            st'.nextRun.Some? && st'.nextRun.value > now
  {
    hide NextRunAt, ValidSchedule;
    NextRunIsLater(st.schedule, offset, now, st.nextRun);
  }

  // ---- a fixed interval ----

  predicate IsInterval(s: Schedule, minutes: int) {
    s.mode == Interval && s.intervalMin == minutes
  }

  predicate OnlyInterval(es: seq<Event>, minutes: int) {
    forall i :: 0 <= i < |es| && es[i].Save? ==> IsInterval(es[i].schedule, minutes)
  }

  /** b lies one or more whole steps after a. */
  ghost predicate StepsOn(a: real, b: real, step: real) {
    exists k: nat :: k >= 1 && b == Later(a, step, k)
  }

  ghost predicate Stepped(st: State, minutes: int) {
    && IsInterval(st.schedule, minutes)
    && (st.nextRun.Some? && st.lastRun.Some? ==> StepsOn(st.lastRun.value, st.nextRun.value, StepOf(st.schedule)))
    && forall i :: 0 < i < |st.fires| ==> StepsOn(st.fires[i - 1].slot, st.fires[i].slot, StepOf(st.schedule))
  }

  lemma NextIsStepsOn(s: Schedule, offset: int, now: real, last: real)
    requires s.enabled && s.mode == Interval
    ensures var next := NextRunAt(s, offset, now, Some(last)); next.Some? && StepsOn(last, next.value, StepOf(s))
  {
    var k := IntervalIsFirst(last, StepOf(s), now);
  }

  lemma TickSteps(st: State, offset: int, now: real, minutes: int)
    requires Inv(st) && Stepped(st, minutes)
    ensures Stepped(OnTick(st, offset, now), minutes)
  {
    hide NextRunAt, ValidSchedule, StepsOn, StepOf, FiresInOrder;
    if st.schedule.enabled {
      if !Armed(st.nextRun) {
        if st.lastRun.Some? {
          NextIsStepsOn(st.schedule, offset, now, st.lastRun.value);
        }
      } else if Due(st.schedule, now, st.nextRun) {
        NextIsStepsOn(st.schedule, offset, now, st.nextRun.value);
      }
    }
  }

  lemma {:induction false} RunSteps(s0: Schedule, offset: int, es: seq<Event>, minutes: int)
    requires ValidSchedule(s0) && IsInterval(s0, minutes) && OnlyInterval(es, minutes)
    ensures Stepped(Exec(s0, offset, es), minutes)
  {
    hide OnTick, StepsOn, Inv;
    if es != [] {
      var before, e := es[..|es| - 1], es[|es| - 1];
      var st := Exec(s0, offset, before);
      RunSteps(s0, offset, before, minutes);
      RunKeeps(s0, offset, before);
      if Possible(st, e) {
        if e.Tick? {
          TickSteps(st, offset, e.now, minutes);
        } else {
          SameStep(st.schedule, e.schedule, minutes);
        }
      }
    }
  }

  lemma SameStep(s: Schedule, t: Schedule, minutes: int)
    requires IsInterval(s, minutes) && IsInterval(t, minutes)
    ensures StepOf(s) == StepOf(t)
  {
  }

  lemma {:induction false} LaterTwice(base: real, step: real, j: nat, k: nat)
    ensures Later(Later(base, step, j), step, k) == Later(base, step, j + k)
  {
    if k > 0 {
      LaterTwice(base, step, j, k - 1);
    }
  }

  /** Along a chain of fires the last slot is at least as many steps on as there are links. */
  lemma {:induction false} ChainOfSteps(fires: seq<Fire>, step: real) returns (k: nat)
    requires fires != [] && forall i :: 0 < i < |fires| ==> StepsOn(fires[i - 1].slot, fires[i].slot, step)
    ensures k >= |fires| - 1 && fires[|fires| - 1].slot == Later(fires[0].slot, step, k)
  {
    if |fires| == 1 {
      k := 0;
    } else {
      var n := |fires| - 1;
      forall i | 0 < i < n
        ensures StepsOn(fires[..n][i - 1].slot, fires[..n][i].slot, step)
      {
        assert StepsOn(fires[i - 1].slot, fires[i].slot, step);
      }
      var j := ChainOfSteps(fires[..n], step);
      assert StepsOn(fires[n - 1].slot, fires[n].slot, step);
      var m: nat :| m >= 1 && fires[n].slot == Later(fires[n - 1].slot, step, m);
      LaterTwice(fires[0].slot, step, j, m);
      k := j + m;
    }
  }

  /**
   While the schedule stays an interval of the same length, all fired slots lie whole steps
   apart, and fire j at least j - i steps after fire i, through saves, disabling and
   re-enabling.
   */
  lemma FixedIntervalSpan(s0: Schedule, offset: int, es: seq<Event>, minutes: int, i: nat, j: nat) returns (k: nat)
    requires ValidSchedule(s0) && IsInterval(s0, minutes) && OnlyInterval(es, minutes)
    requires i <= j < |Exec(s0, offset, es).fires|
    ensures var fires := Exec(s0, offset, es).fires;
            && k >= j - i
            && fires[j].slot == Later(fires[i].slot, StepOf(s0), k)
            && fires[j].slot >= Later(fires[i].slot, StepOf(s0), j - i)
  {
    hide Exec, StepsOn;
    var st := Exec(s0, offset, es);
    RunSteps(s0, offset, es, minutes);
    SameStep(st.schedule, s0, minutes);
    var links := st.fires[i..j + 1];
    forall m | 0 < m < |links|
      ensures StepsOn(links[m - 1].slot, links[m].slot, StepOf(s0))
    {
      assert StepsOn(st.fires[i + m - 1].slot, st.fires[i + m].slot, StepOf(s0));
    }
    k := ChainOfSteps(links, StepOf(s0));
    LaterMonotone(st.fires[i].slot, StepOf(s0), j - i, k);
  }

  // ---- a fixed daily or weekly schedule ----

  predicate IsDaily(s: Schedule) {
    ValidSchedule(s) && s.enabled && s.mode != Interval
  }

  /** t is the first slot after the instant a. */
  ghost predicate FirstSlotAfter(s: Schedule, offset: int, a: real, t: int)
    requires s.at.Some?
  {
    IsSlot(s, offset, t) && a < t as real && forall u: int :: a < u as real && u < t ==> !IsSlot(s, offset, u)
  }

  ghost predicate IsNext(s: Schedule, offset: int, a: real, next: Option<real>)
    requires s.at.Some?
  {
    exists t: int :: FirstSlotAfter(s, offset, a, t) && next == Some(t as real)
  }

  lemma FirstSlotUnique(s: Schedule, offset: int, a: real, t: int, u: int)
    requires s.at.Some? && FirstSlotAfter(s, offset, a, t) && FirstSlotAfter(s, offset, a, u)
    ensures t == u
  {
    hide IsSlot;
  }

  /** Every event can happen when it does, and saves only store the schedule that is there already. */
  ghost predicate KeepsSchedule(s: Schedule, offset: int, es: seq<Event>) {
    es == [] ||
    (KeepsSchedule(s, offset, es[..|es| - 1]) && Possible(Exec(s, offset, es[..|es| - 1]), es[|es| - 1])
     && (es[|es| - 1].Save? ==> es[|es| - 1].schedule == s))
  }

  /** After a tick the first slot after it is armed; after a save, or before any tick, none is. */
  ghost predicate ArmedFor(s: Schedule, offset: int, es: seq<Event>, st: State)
    requires s.at.Some?
  {
    && st.schedule == s
    && if es == [] || es[|es| - 1].Save? then st.nextRun == None
       else && st.clock == Some(es[|es| - 1].now)
            && IsNext(s, offset, es[|es| - 1].now, st.nextRun)
  }

  lemma DailyNext(s: Schedule, offset: int, now: real, last: Option<real>)
    requires IsDaily(s) && (last.Some? ==> last.value <= now)
    ensures IsNext(s, offset, now, NextRunAt(s, offset, now, last))
  {
    hide IsSlot, NextRunAt;
    NextRunIsLeast(s, offset, now, last);
    assert AnchorOf(now, last) == now;
    var t: int :| NextRunAt(s, offset, now, last) == Some(t as real) && IsSlot(s, offset, t) && now < t as real <= now + 604800.0
                  && forall u: int :: now < u as real && u < t ==> !IsSlot(s, offset, u);
    assert FirstSlotAfter(s, offset, now, t);
  }

  lemma HasTime(s: Schedule)
    requires IsDaily(s)
    ensures s.at.Some?
  {
  }

  /** A tick fires exactly the first slot after the tick just before it, when that slot has come. */
  lemma DailyTick(s: Schedule, offset: int, es: seq<Event>, st: State, now: real)
    requires IsDaily(s) && Inv(st) && ArmedFor(s, offset, es, st) && Possible(st, Tick(now))
    ensures ArmedFor(s, offset, es + [Tick(now)], OnTick(st, offset, now))
    ensures var fires := OnTick(st, offset, now).fires;
            if es != [] && es[|es| - 1].Tick? && st.nextRun.value != 0.0 && st.nextRun.value <= now
            then fires == st.fires + [Fire(now, st.nextRun.value)] else fires == st.fires
  {
    hide IsSlot, NextRunAt, ValidSchedule;
    assert st.lastRun.Some? ==> st.clock.Some? && st.lastRun.value <= st.clock.value;
    if !Armed(st.nextRun) {
      DailyNext(s, offset, now, st.lastRun);
    } else if Due(s, now, st.nextRun) {
      DailyNext(s, offset, now, st.nextRun);
    } else {
      HasTime(s);
      StillNext(s, offset, es[|es| - 1].now, now, st.nextRun);
    }
  }

  lemma StillNext(s: Schedule, offset: int, a: real, b: real, next: Option<real>)
    requires s.at.Some? && IsNext(s, offset, a, next) && a <= b < next.value
    ensures IsNext(s, offset, b, next)
  {
    hide IsSlot;
    var t: int :| FirstSlotAfter(s, offset, a, t) && next == Some(t as real);
    assert FirstSlotAfter(s, offset, b, t);
  }

  lemma {:induction false} DailyArmed(s: Schedule, offset: int, es: seq<Event>)
    requires IsDaily(s) && KeepsSchedule(s, offset, es)
    ensures ArmedFor(s, offset, es, Exec(s, offset, es)) && Inv(Exec(s, offset, es))
  {
    hide OnTick, Inv, IsSlot, ArmedFor;
    RunKeeps(s, offset, es);
    if es == [] {
      NotArmed(s, offset, es, Exec(s, offset, es));
    } else {
      var front, e := es[..|es| - 1], es[|es| - 1];
      DailyArmed(s, offset, front);
      assert es == front + [e];
      if e.Tick? {
        DailyTick(s, offset, front, Exec(s, offset, front), e.now);
      } else {
        NotArmed(s, offset, es, Exec(s, offset, es));
      }
    }
  }

  lemma NotArmed(s: Schedule, offset: int, es: seq<Event>, st: State)
    requires s.at.Some? && (es == [] || es[|es| - 1].Save?) && st.schedule == s && st.nextRun == None
    ensures ArmedFor(s, offset, es, st)
  {
  }

  /** Event i is a tick right after a tick, and u is the first slot after the one and not after the other. */
  ghost predicate MetByTicks(s: Schedule, offset: int, es: seq<Event>, i: nat, u: int)
    requires s.at.Some?
  {
    && 0 < i < |es| && es[i - 1].Tick? && es[i].Tick?
    && FirstSlotAfter(s, offset, es[i - 1].now, u) && u as real <= es[i].now
  }

  ghost predicate Met(s: Schedule, offset: int, es: seq<Event>, u: int)
    requires s.at.Some?
  {
    exists i: nat :: MetByTicks(s, offset, es, i, u)
  }

  ghost predicate Fired(st: State, u: int) {
    exists k :: 0 <= k < |st.fires| && st.fires[k].slot == u as real
  }

  lemma MetOneMore(s: Schedule, offset: int, front: seq<Event>, e: Event, u: int)
    requires s.at.Some?
    ensures Met(s, offset, front + [e], u) <==> Met(s, offset, front, u) || MetByTicks(s, offset, front + [e], |front|, u)
  {
    hide FirstSlotAfter;
    var es := front + [e];
    if Met(s, offset, front, u) {
      var i: nat :| MetByTicks(s, offset, front, i, u);
      assert MetByTicks(s, offset, es, i, u);
    }
    if Met(s, offset, es, u) {
      var i: nat :| MetByTicks(s, offset, es, i, u);
      assert i < |front| ==> MetByTicks(s, offset, front, i, u);
    }
  }

  lemma FiredOneMore(st: State, st': State, fire: Fire, u: int)
    requires st'.fires == st.fires + [fire]
    ensures Fired(st', u) <==> Fired(st, u) || fire.slot == u as real
  {
    if Fired(st, u) {
      var k :| 0 <= k < |st.fires| && st.fires[k].slot == u as real;
      assert st'.fires[k].slot == u as real;
    }
    assert st'.fires[|st.fires|] == fire;
  }

  /**
   Exactly the slots that fire under a daily or weekly schedule: a slot (other than the epoch
   itself) fires if and only if two successive ticks with no save between them lie before it
   and not before it, and it is the first slot after the earlier tick. Every other slot is
   skipped: those passed over by one long gap between ticks but for the first, and those in
   whose gap the schedule was saved.
   */
  lemma {:induction false} DailySlotFiredIff(s: Schedule, offset: int, es: seq<Event>, u: int)
    requires IsDaily(s) && KeepsSchedule(s, offset, es)
    ensures Fired(Exec(s, offset, es), u) <==> u != 0 && Met(s, offset, es, u)
  {
    hide OnTick, Inv, FirstSlotAfter, IsDaily, Fired, Met;
    if es == [] {
      NoneMet(s, offset, u);
    } else {
      var front, e := es[..|es| - 1], es[|es| - 1];
      var st, st' := Exec(s, offset, front), Exec(s, offset, es);
      assert es == front + [e];
      DailySlotFiredIff(s, offset, front, u);
      DailyArmed(s, offset, front);
      HasTime(s);
      MetOneMore(s, offset, front, e, u);
      if e.Tick? {
        DailyTick(s, offset, front, st, e.now);
        LastTick(s, offset, front, st, st', e.now, u);
      } else {
        SameFires(st, st', u);
      }
    }
  }

  lemma NoneMet(s: Schedule, offset: int, u: int)
    requires IsDaily(s)
    ensures !Fired(Exec(s, offset, []), u) && !Met(s, offset, [], u)
  {
  }

  lemma SameFires(st: State, st': State, u: int)
    requires st'.fires == st.fires
    ensures Fired(st', u) <==> Fired(st, u)
  {
  }

  lemma LastTick(s: Schedule, offset: int, front: seq<Event>, st: State, st': State, now: real, u: int)
    requires s.at.Some? && ArmedFor(s, offset, front, st)
    requires if front != [] && front[|front| - 1].Tick? && st.nextRun.value != 0.0 && st.nextRun.value <= now
             then st'.fires == st.fires + [Fire(now, st.nextRun.value)] else st'.fires == st.fires
    ensures Fired(st', u) <==> Fired(st, u) || (u != 0 && MetByTicks(s, offset, front + [Tick(now)], |front|, u))
  {
    hide FirstSlotAfter, Fired;
    if front != [] && front[|front| - 1].Tick? {
      var t: int :| FirstSlotAfter(s, offset, front[|front| - 1].now, t) && st.nextRun == Some(t as real);
      if FirstSlotAfter(s, offset, front[|front| - 1].now, u) {
        FirstSlotUnique(s, offset, front[|front| - 1].now, t, u);
      }
      if t != 0 && t as real <= now {
        FiredOneMore(st, st', Fire(now, t as real), u);
      } else {
        SameFires(st, st', u);
      }
    } else {
      SameFires(st, st', u);
    }
  }
}
