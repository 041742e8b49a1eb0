/**
 Exactly which slots the scheduler fires under an interval schedule, told from the ticks, the
 saves, run_on_start and the length of the step alone.
 */
module IntervalRuns {
  import opened Wrappers
  import opened Schedule
  import opened SchedulerLoop

  predicate IsPeriodic(s: Schedule) {
    ValidSchedule(s) && s.enabled && s.mode == Interval
  }

  /** The interval in seconds; it is never shorter than five minutes. */
  function StepSeconds(s: Schedule): (step: real)
    ensures step >= 300.0
  {
    if s.intervalMin <= 5 then 300.0 else s.intervalMin as real * 60.0
  }

  /** How long after being armed the first slot of all comes. */
  function FirstDelay(s: Schedule): real {
    if s.runOnStart then 0.0 else StepSeconds(s)
  }

  /** u is the first of last + step, last + 2 steps, ... after t. */
  ghost predicate NextStep(last: real, step: real, t: real, u: real) {
    exists k: nat :: StepIs(last, step, t, u, k)
  }

  ghost predicate StepIs(last: real, step: real, t: real, u: real, k: nat) {
    k >= 1 && u == Later(last, step, k) && u > t && forall j: nat :: 1 <= j < k ==> Later(last, step, j) <= t
  }

  lemma NextStepUnique(last: real, step: real, t: real, u: real, v: real)
    requires NextStep(last, step, t, u) && NextStep(last, step, t, v)
    ensures u == v
  {
    var j: nat :| StepIs(last, step, t, u, j);
    var k: nat :| StepIs(last, step, t, v, k);
    assert j == k;
  }

  lemma StillNextStep(last: real, step: real, t: real, now: real, u: real)
    requires NextStep(last, step, t, u) && t <= now < u
    ensures NextStep(last, step, now, u)
  {
    var k: nat :| StepIs(last, step, t, u, k);
    assert StepIs(last, step, now, u, k);
  }

  /**
   When the first slot of all was armed: at the first tick since the last save, or since the
   start. (An instant whose slot would be the epoch itself arms nothing.)
   */
  function ArmTime(s: Schedule, es: seq<Event>): Option<real> {
    if es == [] || es[|es| - 1].Save? then None
    else
      match ArmTime(s, es[..|es| - 1])
      case Some(a) => Some(a)
      case None => if es[|es| - 1].now + FirstDelay(s) == 0.0 then None else Some(es[|es| - 1].now)
  }

  /** The slot waiting after a tick: one delay after being armed for the first, then the next step after the last fire. */
  ghost predicate Waits(s: Schedule, es: seq<Event>, fires: seq<Fire>, u: real) {
    && es != [] && es[|es| - 1].Tick?
    && if fires == [] then ArmTime(s, es).Some? && u == ArmTime(s, es).value + FirstDelay(s)
       else NextStep(fires[|fires| - 1].slot, StepSeconds(s), es[|es| - 1].now, u)
  }

  /** A tick fires the waiting slot once it has come. */
  ghost predicate FiresNow(s: Schedule, es: seq<Event>, fires: seq<Fire>, now: real, u: real) {
    Waits(s, es, fires, u) && u != 0.0 && u <= now
  }

  ghost function PlannedFires(s: Schedule, es: seq<Event>): seq<Fire> {
    if es == [] then []
    else
      var front, e := es[..|es| - 1], es[|es| - 1];
      var fires := PlannedFires(s, front);
      if e.Tick? && exists u :: FiresNow(s, front, fires, e.now, u)
      then
        var u :| FiresNow(s, front, fires, e.now, u);
        fires + [Fire(e.now, u)]
      else fires
  }

  lemma WaitsUnique(s: Schedule, es: seq<Event>, fires: seq<Fire>, u: real, v: real)
    requires Waits(s, es, fires, u) && Waits(s, es, fires, v)
    ensures u == v
  {
    if fires != [] {
      NextStepUnique(fires[|fires| - 1].slot, StepSeconds(s), es[|es| - 1].now, u, v);
    }
  }

  /** What is armed after a tick is what waits; between a save and the next tick nothing is. */
  ghost predicate ArmedWaits(s: Schedule, es: seq<Event>, st: State) {
    && st.schedule == s
    && if es == [] || es[|es| - 1].Save? then st.nextRun == None
       else && st.clock == Some(es[|es| - 1].now) && st.nextRun.Some?
            && (st.nextRun.value != 0.0 ==> Waits(s, es, st.fires, st.nextRun.value))
            && (st.nextRun.value == 0.0 && st.fires == [] ==> ArmTime(s, es) == None)
            && (st.nextRun.value == 0.0 && st.fires != [] ==> Waits(s, es, st.fires, 0.0))
  }

  lemma StepLength(s: Schedule)
    ensures StepOf(s) == StepSeconds(s)
  {
  }

  /** What next_run_at computes: one delay on without a previous run, the next step after it otherwise. */
  lemma PeriodicNext(s: Schedule, offset: int, now: real, last: Option<real>)
    requires IsPeriodic(s)
    ensures var next := NextRunAt(s, offset, now, last);
            && next.Some?
            && (last.None? ==> next.value == now + FirstDelay(s))
            && (last.Some? ==> NextStep(last.value, StepSeconds(s), now, next.value))
  {
    hide StepOf, Advance;
    StepLength(s);
    if last.Some? {
      var k := IntervalIsFirst(last.value, StepOf(s), now);
      assert StepIs(last.value, StepSeconds(s), now, Later(last.value, StepSeconds(s), k), k);
    }
  }

  lemma ArmTimeTick(s: Schedule, es: seq<Event>, now: real)
    ensures var more := es + [Tick(now)];
            ArmTime(s, more) == if ArmTime(s, es).Some? then ArmTime(s, es)
                                else if now + FirstDelay(s) == 0.0 then None else Some(now)
    ensures es == [] || es[|es| - 1].Save? ==> ArmTime(s, es) == None
  {
    assert (es + [Tick(now)])[..|es|] == es;
  }

  /** Arming at a tick: what is armed waits. */
  lemma Rearmed(s: Schedule, offset: int, es: seq<Event>, st: State, now: real)
    requires IsPeriodic(s) && st.schedule == s && st.clock == Some(now)
    requires st.nextRun == NextRunAt(s, offset, now, st.lastRun)
    requires if st.fires == [] then st.lastRun == None && ArmTime(s, es) == None
             else st.lastRun == Some(st.fires[|st.fires| - 1].slot)
    ensures ArmedWaits(s, es + [Tick(now)], st)
  {
    hide NextRunAt, ValidSchedule, NextStep, StepSeconds;
    PeriodicNext(s, offset, now, st.lastRun);
    ArmTimeTick(s, es, now);
  }

  lemma PeriodicTick(s: Schedule, offset: int, es: seq<Event>, st: State, now: real)
    requires IsPeriodic(s) && Inv(st) && ArmedWaits(s, es, st) && Possible(st, Tick(now))
    ensures ArmedWaits(s, es + [Tick(now)], OnTick(st, offset, now))
    ensures var fires := OnTick(st, offset, now).fires;
            if es != [] && es[|es| - 1].Tick? && st.nextRun.value != 0.0 && st.nextRun.value <= now
            then fires == st.fires + [Fire(now, st.nextRun.value)] else fires == st.fires
  {
    hide NextRunAt, ValidSchedule, FiresInOrder, NextStep, StepSeconds, FirstDelay;
    var st' := OnTick(st, offset, now);
    ArmTimeTick(s, es, now);
    if !Armed(st.nextRun) || Due(s, now, st.nextRun) {
      Rearmed(s, offset, es, st', now);
    } else if st.fires != [] {
      StillNextStep(st.fires[|st.fires| - 1].slot, StepSeconds(s), es[|es| - 1].now, now, st.nextRun.value);
    }
  }

  lemma NothingArmed(s: Schedule, es: seq<Event>, st: State)
    requires (es == [] || es[|es| - 1].Save?) && st.schedule == s && st.nextRun == None
    ensures ArmedWaits(s, es, st)
  {
  }

  lemma {:induction false} PeriodicArmed(s: Schedule, offset: int, es: seq<Event>)
    requires IsPeriodic(s) && KeepsSchedule(s, offset, es)
    ensures ArmedWaits(s, es, Exec(s, offset, es)) && Inv(Exec(s, offset, es))
  {
    hide OnTick, Inv, ArmedWaits, ValidSchedule;
    RunKeeps(s, offset, es);
    if es == [] {
      NothingArmed(s, es, Exec(s, offset, es));
    } else {
      var front, e := es[..|es| - 1], es[|es| - 1];
      PeriodicArmed(s, offset, front);
      assert es == front + [e];
      if e.Tick? {
        PeriodicTick(s, offset, front, Exec(s, offset, front), e.now);
      } else {
        NothingArmed(s, es, Exec(s, offset, es));
      }
    }
  }

  /**
   Over every run under one enabled interval schedule, the fires are exactly the planned ones:
   a tick fires if and only if the tick before it, with no save between them, left a slot
   waiting that has come by now. The first slot of all waits one step after the tick that arms
   it, or at that tick with run_on_start; from then on the next step after the last fire.
   */
  lemma {:induction false} PeriodicFires(s: Schedule, offset: int, es: seq<Event>)
    requires IsPeriodic(s) && KeepsSchedule(s, offset, es)
    ensures Exec(s, offset, es).fires == PlannedFires(s, es)
  {
    hide OnTick, Inv, ArmedWaits, IsPeriodic, Waits;
    if es != [] {
      var front, e := es[..|es| - 1], es[|es| - 1];
      var st := Exec(s, offset, front);
      PeriodicFires(s, offset, front);
      PeriodicArmed(s, offset, front);
      if e.Tick? {
        PeriodicTick(s, offset, front, st, e.now);
        WaitingSlot(s, front, st, e.now);
        PlannedTick(s, front, e.now);
        assert es == front + [e];
        if front != [] && front[|front| - 1].Tick? {
          HasNext(s, front, st);
          assert st.nextRun.value != 0.0 && st.nextRun.value <= e.now ==> FiresNow(s, front, st.fires, e.now, st.nextRun.value);
        }
      }
    }
  }

  lemma HasNext(s: Schedule, es: seq<Event>, st: State)
    requires ArmedWaits(s, es, st) && es != [] && es[|es| - 1].Tick?
    ensures st.nextRun.Some?
  {
  }

  lemma PlannedTick(s: Schedule, es: seq<Event>, now: real)
    ensures var fires, more := PlannedFires(s, es), PlannedFires(s, es + [Tick(now)]);
            && (more == fires || exists u :: FiresNow(s, es, fires, now, u) && more == fires + [Fire(now, u)])
            && (more == fires ==> forall u :: !FiresNow(s, es, fires, now, u))
  {
    hide FiresNow;
    assert (es + [Tick(now)])[..|es|] == es;
  }

  /** The armed slot is the one that may fire. */
  lemma WaitingSlot(s: Schedule, es: seq<Event>, st: State, now: real)
    requires ArmedWaits(s, es, st)
    ensures forall u :: FiresNow(s, es, st.fires, now, u) <==>
              es != [] && es[|es| - 1].Tick? && st.nextRun == Some(u) && u != 0.0 && u <= now
  {
    hide NextStep, ArmTime, FirstDelay, StepSeconds;
    forall u, v | Waits(s, es, st.fires, u) && Waits(s, es, st.fires, v)
      ensures u == v
    {
      WaitsUnique(s, es, st.fires, u, v);
    }
  }

  /** In particular: a tick at or after the slot that an earlier tick armed, no save between them, fires it. */
  lemma ArmedSlotFires(s: Schedule, offset: int, es: seq<Event>, now: real, u: real)
    requires IsPeriodic(s) && KeepsSchedule(s, offset, es + [Tick(now)])
    requires es != [] && es[|es| - 1].Tick? && Exec(s, offset, es).nextRun == Some(u) && u != 0.0 && u <= now
    ensures Exec(s, offset, es + [Tick(now)]).fires == Exec(s, offset, es).fires + [Fire(now, u)]
  {
    hide OnTick, Inv, ArmedWaits, IsPeriodic;
    assert (es + [Tick(now)])[..|es|] == es;
    PeriodicArmed(s, offset, es);
    PeriodicTick(s, offset, es, Exec(s, offset, es), now);
  }

  // ---- a disabled schedule ----

  /** A tick under a disabled schedule forgets the armed slot and fires nothing. */
  lemma DisabledFiresNothing(st: State, offset: int, now: real)
    requires !st.schedule.enabled
    ensures var st' := OnTick(st, offset, now);
            st'.fires == st.fires && st'.lastRun == st.lastRun && !Armed(st'.nextRun)
  {
  }
}
