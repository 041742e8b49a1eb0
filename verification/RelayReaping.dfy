/**
 A whole pass of the reaper while every other thread runs: workers close their sessions and
 write their stamps, the reader stores payloads, and the clock moves. Each visit decides about
 one session by what it finds at that moment.
 */
module RelayReaping {
  import opened Sequences
  import opened SessionList
  import opened RelayMachine
  import RelayRuns

  /** The state some events after s. */
  ghost function From(s: State, es: seq<Event>): (r: State)
    requires Inv(s)
    ensures Inv(r)
  {
    if es == [] then s
    else
      var before := From(s, es[..|es| - 1]);
      StepKeeps(before, es[|es| - 1]);
      Step(before, es[|es| - 1])
  }

  /** The reaper is in the same pass all the while. */
  ghost predicate InPass(s: State, es: seq<Event>)
    requires Inv(s)
  {
    !From(s, es).reaper.Sleeping? && (es == [] || InPass(s, es[..|es| - 1]))
  }

  /** One visit: the session, and whether it was reapable when visited. */
  datatype Visit = Visit(id: nat, reapable: bool)

  /** The visit that an event makes in a state, if any. */
  ghost function VisitOf(s: State, e: Event): seq<Visit>
    requires Inv(s)
  {
    if e.ReaperStep? && s.reaper.Visiting? && s.reaper.at < |s.list|
    then [Visit(s.list[s.reaper.at], Reapable(s.info[s.list[s.reaper.at]], s.now))] else []
  }

  ghost function Visits(s: State, es: seq<Event>): seq<Visit>
    requires Inv(s)
  {
    if es == [] then []
    else Visits(s, es[..|es| - 1]) + VisitOf(From(s, es[..|es| - 1]), es[|es| - 1])
  }

  /** The sessions visited and left. */
  function Left(vs: seq<Visit>): (r: seq<nat>)
    ensures |r| <= |vs|
  {
    if vs == [] then []
    else Left(vs[..|vs| - 1]) + if vs[|vs| - 1].reapable then [] else [vs[|vs| - 1].id]
  }

  /** Whose removal is complete: while the last visit's session is being removed, not that one. */
  function Done(vs: seq<Visit>, reaper: Reaper): seq<Visit> {
    if reaper.Removing? && vs != [] then vs[..|vs| - 1] else vs
  }

  /** How far a pass over `list` has come after the visits vs: what is on the list now, and where the reaper is. */
  ghost predicate PassAfter(list: seq<nat>, now: seq<nat>, reaper: Reaper, vs: seq<Visit>) {
    var done := Done(vs, reaper);
    && |vs| <= |list|
    && (forall i :: 0 <= i < |vs| ==> vs[i].id == list[i])
    && (reaper.Removing? ==> vs != [] && vs[|vs| - 1].reapable)
    && now == Left(done) + list[|done|..]
    && (!reaper.Sleeping? ==> reaper.at == |Left(done)|)
  }

  lemma LeftMore(vs: seq<Visit>, v: Visit)
    ensures Left(vs + [v]) == Left(vs) + if v.reapable then [] else [v.id]
  {
    assert (vs + [v])[..|vs|] == vs;
  }

  /** Nothing but the reaper's own steps touches the list or its place in it during a pass. */
  lemma OthersWait(s: State, e: Event)
    requires Inv(s) && !s.reaper.Sleeping? && !e.ReaperStep?
    ensures Step(s, e).list == s.list && Step(s, e).reaper == s.reaper
  {
    hide NewestFirst, OpenIsListed, OneOpenPerKey, StoredRight, Unlink;
  }

  /** The reaper's own steps, as far as the list and its place in it go. */
  lemma ReaperMoves(r: State)
    requires Inv(r) && !r.reaper.Sleeping?
    ensures var r', at := StepReaper(r), r.reaper.at;
            match r.reaper
            case Sleeping => true
            case Removing(_) => at < |r.list| && r'.list == Without(r.list, at) && r'.reaper == Visiting(at)
            case Visiting(_) =>
              && at <= |r.list| && r'.list == r.list
              && r'.reaper == (if at == |r.list| then Sleeping
                               else if VisitOf(r, ReaperStep)[0].reapable then Removing(at) else Visiting(at + 1))
  {
    hide NewestFirst, OpenIsListed, OneOpenPerKey, StoredRight, ReaderOk, Reapable;
  }

  lemma RemovalStep(list: seq<nat>, now: seq<nat>, at: nat, vs: seq<Visit>)
    requires at < |now| && PassAfter(list, now, Removing(at), vs)
    ensures PassAfter(list, Without(now, at), Visiting(at), vs)
  {
    hide Left, Without;
    var n := |vs| - 1;
    LeftMore(vs[..n], vs[n]);
    assert vs == vs[..n] + [vs[n]] && Left(vs[..n]) + [] == Left(vs[..n]);
    assert list[n..] == [list[n]] + list[n + 1..];
    WithoutMiddle(Left(vs[..n]), list[n], list[n + 1..]);
  }

  lemma WithoutMiddle(a: seq<nat>, x: nat, b: seq<nat>)
    ensures Without(a + ([x] + b), |a|) == a + b
  {
  }

  lemma DecisionStep(list: seq<nat>, now: seq<nat>, at: nat, vs: seq<Visit>, v: Visit)
    requires at < |now| && PassAfter(list, now, Visiting(at), vs) && v.id == now[at]
    ensures PassAfter(list, now, if v.reapable then Removing(at) else Visiting(at + 1), vs + [v])
  {
    hide Left;
    LeftMore(vs, v);
    assert (vs + [v])[..|vs|] == vs;
    assert list[|vs|..] == [list[|vs|]] + list[|vs| + 1..];
  }

  lemma LastStep(list: seq<nat>, now: seq<nat>, vs: seq<Visit>)
    requires PassAfter(list, now, Visiting(|now|), vs)
    ensures PassAfter(list, now, Sleeping, vs) && |vs| == |list| && now == Left(vs)
  {
    hide Left;
  }

  lemma OnePassStep(list: seq<nat>, r: State, e: Event, vs: seq<Visit>)
    requires Inv(r) && !r.reaper.Sleeping? && PassAfter(list, r.list, r.reaper, vs)
    ensures var r' := Step(r, e); PassAfter(list, r'.list, r'.reaper, vs + VisitOf(r, e))
    ensures Step(r, e).reaper.Sleeping? ==> VisitOf(r, e) == [] && |vs| == |list| && Step(r, e).list == Left(vs)
  {
    hide Inv, StepReaper, PassAfter, Left, Reapable;
    assert vs + [] == vs;
    if !e.ReaperStep? {
      OthersWait(r, e);
    } else {
      ReaperMoves(r);
      match r.reaper
      case Removing(at) => RemovalStep(list, r.list, at, vs);
      case Visiting(at) =>
        if at == |r.list| {
          LastStep(list, r.list, vs);
        } else {
          DecisionStep(list, r.list, at, vs, VisitOf(r, e)[0]);
        }
      case Sleeping =>
    }
  }

  lemma {:induction false} PassInvariant(s: State, es: seq<Event>)
    requires Inv(s) && s.reaper == Visiting(0) && InPass(s, es)
    ensures PassAfter(s.list, From(s, es).list, From(s, es).reaper, Visits(s, es))
  {
    hide Inv, Step, VisitOf, PassAfter;
    if es == [] {
      PassStarts(s.list);
    } else {
      var front, e := es[..|es| - 1], es[|es| - 1];
      PassInvariant(s, front);
      InPassNow(s, front);
      OnePassStep(s.list, From(s, front), e, Visits(s, front));
    }
  }

  lemma PassStarts(list: seq<nat>)
    ensures PassAfter(list, list, Visiting(0), [])
  {
  }

  /**
   In every interleaving, from the step that takes the mutex to the one that gives it back: a
   pass visits each session listed when the mutex was taken exactly once, the first one
   included, in order, and when it ends the list is those that were not reapable when visited.
   */
  lemma PassTakesReapable(s: State, first: Event, es: seq<Event>, last: Event)
    requires Inv(s) && s.reaper.Sleeping? && Inv(Step(s, first)) && InPass(Step(s, first), es)
    requires Step(From(Step(s, first), es), last).reaper.Sleeping?
    ensures var vs := Visits(Step(s, first), es);
            && |vs| == |s.list|
            && (forall i :: 0 <= i < |vs| ==> vs[i].id == s.list[i])
            && Step(From(Step(s, first), es), last).list == Left(vs)
  {
    hide Inv, Step, VisitOf, Left;
    var s1 := Step(s, first);
    InPassFromStart(s1, es);
    MutexTaken(s, first);
    PassInvariant(s1, es);
    InPassNow(s1, es);
    OnePassStep(s1.list, From(s1, es), last, Visits(s1, es));
  }

  /** Only a step of the reaper starts a pass, and it starts at the first node. */
  lemma MutexTaken(s: State, e: Event)
    requires Inv(s) && s.reaper.Sleeping? && !Step(s, e).reaper.Sleeping?
    ensures s.lock == Free && e == ReaperStep
    ensures Step(s, e) == s.(lock := ReaperHolds, reaper := Visiting(0))
  {
    hide NewestFirst, OpenIsListed, OneOpenPerKey, StoredRight, Without;
  }

  lemma {:induction false} InPassFromStart(s: State, es: seq<Event>)
    requires Inv(s) && InPass(s, es)
    ensures !s.reaper.Sleeping?
  {
    hide Inv, Step;
    if es != [] {
      InPassFromStart(s, es[..|es| - 1]);
    }
  }

  lemma InPassNow(s: State, es: seq<Event>)
    requires Inv(s) && InPass(s, es)
    ensures !From(s, es).reaper.Sleeping?
  {
    hide Inv, Step, From;
  }

  /** What Left leaves out is exactly the sessions found reapable. */
  lemma {:induction false} LeftExact(vs: seq<Visit>, id: nat)
    ensures id in Left(vs) <==> exists i :: 0 <= i < |vs| && vs[i] == Visit(id, false)
  {
    if vs != [] {
      var n := |vs| - 1;
      LeftExact(vs[..n], id);
      assert vs == vs[..n] + [vs[n]];
      if id in Left(vs[..n]) {
        var i :| 0 <= i < n && vs[..n][i] == Visit(id, false);
        assert vs[i] == Visit(id, false);
      }
      if i :| 0 <= i < n && vs[i] == Visit(id, false) {
        assert vs[..n][i] == Visit(id, false);
      }
    }
  }
}
