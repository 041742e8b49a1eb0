/**
 next_run_at of src/blockcheck.py. Instants are reals (seconds); local time is UTC plus a fixed
 offset. A slot of a daily or weekly schedule is the configured HH:MM on an allowed local day.
 */
module Schedule {
  import opened Wrappers

  const DAY := 86400

  /** for offset in range(0, 9) */
  const DAYS_SEARCHED: nat := 9

  datatype Mode = Interval | Daily | Weekly

  /** HH:MM */
  datatype TimeOfDay = TimeOfDay(hour: nat, minute: nat)

  /** A normalised schedule; at is None when the text is not HH:MM, days holds weekdays 0 (Monday) to 6. */
  datatype Schedule = Schedule(
    enabled: bool, mode: Mode, intervalMin: int, at: Option<TimeOfDay>, days: set<int>, runOnStart: bool)

  predicate Clock(t: TimeOfDay) {
    t.hour < 24 && t.minute < 60
  }

  /** What normalize_schedule guarantees: a valid HH:MM and at least one weekday. */
  predicate ValidSchedule(s: Schedule) {
    && (exists d :: d in s.days) && (forall d :: d in s.days ==> 0 <= d <= 6)
    && (s.mode == Interval || s.at.Some?) && (s.at.Some? ==> Clock(s.at.value))
  }

  // ---- interval mode ----

  function StepOf(s: Schedule): (step: real)
    ensures step >= 300.0
  {
    (if s.intervalMin < 5 then 5 else s.intervalMin) as real * 60.0
  }

  /** k steps after base. */
  function Later(base: real, step: real, k: nat): real {
    if k == 0 then base else Later(base, step, k - 1) + step
  }

  /** while target <= now: target += step */
  function Advance(target: real, step: real, now: real): (r: real)
    requires step >= 300.0
    ensures r > now
    ensures r == target || r - step <= now
    decreases if target <= now then (now - target).Floor + 1 else 0
  {
    if target > now then target else Advance(target + step, step, now)
  }

  /** The target is a whole number of steps on. */
  lemma {:induction false} AdvanceCounts(target: real, step: real, now: real) returns (k: nat)
    requires step >= 300.0
    ensures Advance(target, step, now) == Later(target, step, k)
    decreases if target <= now then (now - target).Floor + 1 else 0
  {
    if target > now {
      k := 0;
    } else {
      k := AdvanceCounts(target + step, step, now);
      LaterShift(target, step, k);
      k := k + 1;
    }
  }

  lemma {:induction false} LaterShift(base: real, step: real, k: nat)
    ensures Later(base + step, step, k) == Later(base, step, k + 1)
  {
    if k > 0 {
      LaterShift(base, step, k - 1);
    }
  }

  lemma {:induction false} LaterMonotone(base: real, step: real, j: nat, k: nat)
    requires step > 0.0 && j <= k
    ensures Later(base, step, j) <= Later(base, step, k)
    ensures j < k ==> Later(base, step, j) < Later(base, step, k)
  {
    if j < k {
      LaterMonotone(base, step, j, k - 1);
    }
  }

  /**
   After a previous run the interval target is the first of last + step, last + 2 steps, ...
   that lies after now.
   */
  lemma IntervalIsFirst(last: real, step: real, now: real) returns (k: nat)
    requires step >= 300.0
    ensures k >= 1 && Advance(last + step, step, now) == Later(last, step, k) > now
    ensures forall j: nat :: 1 <= j < k ==> Later(last, step, j) <= now
  {
    k := AdvanceCounts(last + step, step, now);
    LaterShift(last, step, k);
    k := k + 1;
    forall j: nat | 1 <= j < k
      ensures Later(last, step, j) <= now
    {
      LaterMonotone(last, step, 1, k);
      LaterMonotone(last, step, j, k - 1);
      assert Later(last, step, 1) == Later(last, step, 0) + step;
    }
  }

  // ---- daily and weekly modes ----

  /** The epoch second of the time of day on local day number d. */
  function SlotOn(t: TimeOfDay, offset: int, d: int): int {
    d * DAY - offset + t.hour * 3600 + t.minute * 60
  }

  /** Local day number of an instant; day 0 is 1 January 1970, a Thursday. */
  function LocalDay(offset: int, instant: int): int {
    (instant + offset) / DAY
  }

  function Weekday(d: int): int {
    (d + 3) % 7
  }

  predicate DayAllowed(s: Schedule, d: int) {
    s.mode == Weekly ==> Weekday(d) in s.days
  }

  ghost predicate IsSlot(s: Schedule, offset: int, instant: int)
    requires s.at.Some?
  {
    exists d: int :: instant == SlotOn(s.at.value, offset, d) && DayAllowed(s, d)
  }

  predicate Fits(s: Schedule, offset: int, anchor: int, d: int)
    requires s.at.Some?
  {
    SlotOn(s.at.value, offset, d) > anchor && DayAllowed(s, d)
  }

  /** The first day from d on, out of n, whose slot lies after the anchor. */
  function Search(s: Schedule, offset: int, anchor: int, d: int, n: nat): Option<int>
    requires s.at.Some?
    decreases n
  {
    if n == 0 then None
    else if Fits(s, offset, anchor, d) then Some(SlotOn(s.at.value, offset, d))
    else Search(s, offset, anchor, d + 1, n - 1)
  }

  function NextSlot(s: Schedule, offset: int, anchor: int): Option<int>
    requires s.at.Some?
  {
    Search(s, offset, anchor, LocalDay(offset, anchor), DAYS_SEARCHED)
  }

  /** The search ends at the first day that fits, if one of the n days does. */
  lemma {:induction false} SearchFinds(s: Schedule, offset: int, anchor: int, d: int, n: nat, f: int)
    requires s.at.Some? && d <= f < d + n && Fits(s, offset, anchor, f)
    ensures exists e :: d <= e <= f && FirstFit(s, offset, anchor, d, e)
                        && Search(s, offset, anchor, d, n) == Some(SlotOn(s.at.value, offset, e))
    decreases n
  {
    hide Fits, SlotOn;
    if Fits(s, offset, anchor, d) {
      assert FirstFit(s, offset, anchor, d, d);
    } else {
      SearchFinds(s, offset, anchor, d + 1, n - 1, f);
      var e :| d + 1 <= e <= f && FirstFit(s, offset, anchor, d + 1, e)
               && Search(s, offset, anchor, d + 1, n - 1) == Some(SlotOn(s.at.value, offset, e));
      assert FirstFit(s, offset, anchor, d, e);
    }
  }

  ghost predicate FirstFit(s: Schedule, offset: int, anchor: int, d: int, e: int)
    requires s.at.Some?
  {
    Fits(s, offset, anchor, e) && forall x :: d <= x < e ==> !Fits(s, offset, anchor, x)
  }

  lemma DayBounds(offset: int, anchor: int)
    ensures var d := LocalDay(offset, anchor); d * DAY <= anchor + offset < d * DAY + DAY
  {
  }

  /** Every weekday comes up within any seven days. */
  lemma WeekdayComes(s: Schedule, d: int) returns (f: int)
    requires ValidSchedule(s)
    ensures d <= f < d + 7 && DayAllowed(s, f)
  {
    var w :| w in s.days;
    f := d + (w - Weekday(d) + 7) % 7;
    WeekdayShift(d, (w - Weekday(d) + 7) % 7, w);
  }

  lemma WeekdayShift(d: int, k: int, w: int)
    requires 0 <= w <= 6 && k == (w - Weekday(d) + 7) % 7
    ensures 0 <= k < 7 && Weekday(d + k) == w
  {
  }

  lemma SameWeekday(s: Schedule, d: int)
    ensures DayAllowed(s, d) <==> DayAllowed(s, d + 7)
  {
  }

  /**
   For a valid daily or weekly schedule the nine-day search never comes up empty, and finds the
   least slot after the anchor, at most seven days on.
   */
  lemma NextSlotIsLeast(s: Schedule, offset: int, anchor: int)
    requires ValidSchedule(s) && s.at.Some?
    ensures var next := NextSlot(s, offset, anchor);
            && next.Some?
            && anchor < next.value <= anchor + 7 * DAY
            && IsSlot(s, offset, next.value)
            && forall t :: anchor < t < next.value ==> !IsSlot(s, offset, t)
  {
    hide LocalDay, Weekday, DayAllowed;
    var d := LocalDay(offset, anchor);
    DayBounds(offset, anchor);
    var f := WeekdayComes(s, d + 1);
    assert Fits(s, offset, anchor, f);
    SearchFinds(s, offset, anchor, d, DAYS_SEARCHED, f);
    var e :| d <= e <= f && FirstFit(s, offset, anchor, d, e)
             && Search(s, offset, anchor, d, DAYS_SEARCHED) == Some(SlotOn(s.at.value, offset, e));
    if e == d + 7 {
      SameWeekday(s, d);
      assert !Fits(s, offset, anchor, d);
    }
    var c := SlotOn(s.at.value, offset, e);
    forall x: int | anchor < SlotOn(s.at.value, offset, x) < c
      ensures !DayAllowed(s, x)
    {
      assert d <= x < e;
      assert !Fits(s, offset, anchor, x);
    }
  }

  // ---- next_run_at ----

  function AnchorOf(now: real, lastRun: Option<real>): real {
    match lastRun case Some(last) => Max(now, last) case None => now
  }

  /** The next run, or None when the schedule is disabled or has no valid time. */
  function NextRunAt(s: Schedule, offset: int, now: real, lastRun: Option<real>): Option<real> {
    if !s.enabled then None
    else if s.mode == Interval then
      match lastRun
      case None => Some(if s.runOnStart then now else now + StepOf(s))
      case Some(last) => Some(Advance(last + StepOf(s), StepOf(s), now))
    else if s.at.None? then None
    else
      match NextSlot(s, offset, AnchorOf(now, lastRun).Floor)
      case Some(t) => Some(t as real)
      case None => None
  }

  /** The while loop of the interval mode. */
  method AdvanceTarget(last: real, step: real, now: real) returns (target: real)
    requires step >= 300.0
    ensures target == Advance(last + step, step, now)
  {
    target := last + step;
    while target <= now
      invariant Advance(target, step, now) == Advance(last + step, step, now)
      decreases if target <= now then (now - target).Floor + 1 else 0
    {
      target := target + step;
    }
  }

  /** The search over nine days; candidates are compared with the anchor as whole seconds. */
  method SearchDays(s: Schedule, offset: int, anchor: real) returns (r: Option<real>)
    requires s.at.Some?
    ensures r == match NextSlot(s, offset, anchor.Floor) case Some(t) => Some(t as real) case None => None
  {
    hide LocalDay, SlotOn, DayAllowed;
    var day := LocalDay(offset, anchor.Floor);
    for k := 0 to DAYS_SEARCHED
      invariant NextSlot(s, offset, anchor.Floor) == Search(s, offset, anchor.Floor, day + k, DAYS_SEARCHED - k)
    {
      var candidate := SlotOn(s.at.value, offset, day + k);
      if candidate as real <= anchor {
      } else if s.mode == Weekly && Weekday(day + k) !in s.days {
        assert !DayAllowed(s, day + k) by { WeeklyDay(s, day + k); }
      } else {
        WeeklyDay(s, day + k);
        return Some(candidate as real);
      }
    }
    r := None;
  }

  lemma WeeklyDay(s: Schedule, d: int)
    ensures DayAllowed(s, d) <==> !(s.mode == Weekly && Weekday(d) !in s.days)
  {
  }

  method NextRun(s: Schedule, offset: int, now: real, lastRun: Option<real>) returns (r: Option<real>)
    ensures r == NextRunAt(s, offset, now, lastRun)
  {
    if !s.enabled {
      return None;
    }
    if s.mode == Interval {
      var step := StepOf(s);
      if lastRun == None {
        return Some(if s.runOnStart then now else now + step);
      }
      var target := AdvanceTarget(lastRun.value, step, now);
      return Some(target);
    }
    if s.at == None {
      return None;
    }
    r := SearchDays(s, offset, AnchorOf(now, lastRun));
  }

  /** A next run lies after the previous one; except for an immediate first run, also after now. */
  lemma NextRunIsLater(s: Schedule, offset: int, now: real, lastRun: Option<real>)
    requires ValidSchedule(s) && s.enabled
    ensures var next := NextRunAt(s, offset, now, lastRun);
            && next.Some?
            && (lastRun.Some? ==> next.value > lastRun.value && next.value > now)
            && next.value >= now
  {
    hide NextSlot;
    if s.mode == Interval {
      if lastRun.Some? {
        var k := IntervalIsFirst(lastRun.value, StepOf(s), now);
        LaterMonotone(lastRun.value, StepOf(s), 0, k);
      }
    } else {
      var anchor := AnchorOf(now, lastRun);
      NextSlotIsLeast(s, offset, anchor.Floor);
    }
  }

  /** A valid daily or weekly schedule in the source's own terms: the least slot after max(now, last). */
  lemma NextRunIsLeast(s: Schedule, offset: int, now: real, lastRun: Option<real>)
    requires ValidSchedule(s) && s.enabled && s.mode != Interval
    ensures var anchor := AnchorOf(now, lastRun);
            exists t: int ::
              && NextRunAt(s, offset, now, lastRun) == Some(t as real)
              && IsSlot(s, offset, t) && anchor < t as real <= anchor + 604800.0
              && forall u: int :: anchor < u as real && u < t ==> !IsSlot(s, offset, u)
  {
    hide NextSlot, IsSlot;
    var anchor := AnchorOf(now, lastRun);
    NextSlotIsLeast(s, offset, anchor.Floor);
    var t := NextSlot(s, offset, anchor.Floor).value;
    assert NextRunAt(s, offset, now, lastRun) == Some(t as real);
    assert anchor < t as real <= anchor + 604800.0;
  }

  /** The reasons for having no next run: the schedule is disabled, or lacks the time it needs. */
  lemma NoNextRunIff(s: Schedule, offset: int, now: real, lastRun: Option<real>)
    requires (exists d :: d in s.days) && (forall d :: d in s.days ==> 0 <= d <= 6)
    requires s.at.Some? ==> Clock(s.at.value)
    ensures NextRunAt(s, offset, now, lastRun) == None <==> !s.enabled || (s.mode != Interval && s.at == None)
  {
    hide NextSlot, Advance;
    if s.enabled && s.mode != Interval && s.at.Some? {
      NextSlotIsLeast(s, offset, AnchorOf(now, lastRun).Floor);
    }
  }

  // ---- what a slot looks like on the local clock ----

  /** The local clock shows the configured hour and minute, no seconds, and the day of the week is allowed. */
  predicate ShowsTime(s: Schedule, local: int)
    requires s.at.Some?
  {
    && local % 86400 / 3600 == s.at.value.hour
    && local % 3600 / 60 == s.at.value.minute
    && local % 60 == 0
    && (s.mode == Weekly ==> Weekday(local / 86400) in s.days)
  }

  /** An instant is a slot exactly when the local clock shows the schedule's time. */
  lemma SlotShowsTime(s: Schedule, offset: int, instant: int)
    requires s.at.Some? && Clock(s.at.value)
    ensures IsSlot(s, offset, instant) <==> ShowsTime(s, instant + offset)
  {
    hide Weekday;
    var t, local := s.at.value, instant + offset;
    if IsSlot(s, offset, instant) {
      var d: int :| instant == SlotOn(t, offset, d) && DayAllowed(s, d);
      ClockOf(d, t, local);
    }
    if ShowsTime(s, local) {
      SecondsOfDay(local);
      assert instant == SlotOn(t, offset, local / 86400) && DayAllowed(s, local / 86400);
    }
  }

  lemma ClockOf(d: int, t: TimeOfDay, local: int)
    requires Clock(t) && local == d * 86400 + t.hour * 3600 + t.minute * 60
    ensures local / 86400 == d && local % 86400 / 3600 == t.hour && local % 3600 / 60 == t.minute && local % 60 == 0
  {
    InDays(d, t.hour * 3600 + t.minute * 60);
    InHours(t.hour, t.minute * 60);
    InHours(d * 24 + t.hour, t.minute * 60);
    InMinutes(t.minute, 0);
    InMinutes(d * 1440 + t.hour * 60 + t.minute, 0);
  }

  lemma InDays(q: int, r: int)
    requires 0 <= r < 86400
    ensures (q * 86400 + r) / 86400 == q && (q * 86400 + r) % 86400 == r
  {
  }

  lemma InHours(q: int, r: int)
    requires 0 <= r < 3600
    ensures (q * 3600 + r) / 3600 == q && (q * 3600 + r) % 3600 == r
  {
  }

  lemma InMinutes(q: int, r: int)
    requires 0 <= r < 60
    ensures (q * 60 + r) / 60 == q && (q * 60 + r) % 60 == r
  {
  }

  lemma SecondsOfDay(local: int)
    requires local % 60 == 0
    ensures local == local / 86400 * 86400 + local % 86400 / 3600 * 3600 + local % 3600 / 60 * 60
  {
    var day := local % 86400;
    assert day % 3600 == local % 3600;
    assert day == day / 3600 * 3600 + day % 3600;
  }

  /** The epoch was a Thursday, and the days of the week follow each other. */
  lemma WeekdaysFollow(d: int)
    ensures Weekday(0) == 3
    ensures Weekday(d + 1) == (Weekday(d) + 1) % 7
  {
  }
}
