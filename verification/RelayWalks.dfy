/**
 A walk over the session list that no worker disturbs, run step by step in the machine, has
 exactly the effect that the methods of SessionList state for the whole critical section.
 */
module RelayWalks {
  import opened SessionList
  import opened RelayMachine

  /** The entries of the listed sessions, in list order. */
  ghost function View(s: State): (es: seq<Entry>)
    requires Listed(s)
    ensures |es| == |s.list|
    ensures forall i :: 0 <= i < |es| ==> es[i] == s.info[s.list[i]]
  {
    seq(|s.list|, i requires 0 <= i < |s.list| => s.info[s.list[i]])
  }

  ghost function ReaderRun(s: State, n: nat): (r: State)
    requires Inv(s)
    ensures Inv(r)
  {
    if n == 0 then s
    else
      var p := ReaderRun(s, n - 1);
      ReaderKeeps(p, true);
      StepReader(p, true)
  }

  ghost function ReaperRun(s: State, n: nat): (r: State)
    requires Inv(s)
    ensures Inv(r)
  {
    if n == 0 then s
    else
      var p := ReaperRun(s, n - 1);
      ReaperKeeps(p);
      StepReaper(p)
  }

  lemma FindStep(s: State, n: nat, r: State)
    requires Inv(s) && Inv(r) && s.reader.Finding? && n < FindIndex(View(s), s.reader.key)
    requires r == s.(reader := Finding(s.reader.key, n, s.reader.again))
    ensures StepReader(r, true) == s.(reader := Finding(s.reader.key, n + 1, s.reader.again))
  {
  }

  lemma {:induction false} FindWalk(s: State, n: nat)
    requires Inv(s) && s.reader.Finding? && s.reader.at == 0
    requires n <= FindIndex(View(s), s.reader.key)
    ensures ReaderRun(s, n) == s.(reader := Finding(s.reader.key, n, s.reader.again))
  {
    hide View, FindIndex, StepReader;
    if n > 0 {
      FindWalk(s, n - 1);
      FindStep(s, n - 1, ReaderRun(s, n - 1));
    }
  }

  /** A lookup takes one step for every node it passes, one for the end or the match, and one for the stamp. */
  function FindSteps(k: nat, length: nat): nat {
    if k == length then k + 1 else k + 2
  }

  ghost function FindEnd(s: State, k: nat): State
    requires Inv(s) && s.reader.Finding? && k <= |s.list|
  {
    if k == |s.list| then s.(lock := Free, reader := if s.reader.again then Reading else Connecting(s.reader.key))
    else Touch(s, s.list[k]).(lock := Free, reader := Got(s.reader.key, s.list[k]))
  }

  lemma FindLast(s: State, k: nat, r: State)
    requires Inv(s) && Inv(r) && s.reader.Finding? && k == FindIndex(View(s), s.reader.key)
    requires r == s.(reader := Finding(s.reader.key, k, s.reader.again))
    ensures var r1 := StepReader(r, true);
            Inv(r1) && FindEnd(s, k) == if k == |s.list| then r1 else StepReader(r1, true)
  {
    hide FindIndex, MutexHeld, NewestFirst, OpenIsListed, OneOpenPerKey, StoredRight, ReaderOk;
    assert k < |s.list| ==> View(s)[k] == s.info[s.list[k]];
    ReaderKeeps(r, true);
  }

  /** session_find, undisturbed: Registry.Find's contract. */
  lemma FindUndisturbed(s: State)
    requires Inv(s) && s.reader.Finding? && s.reader.at == 0
    ensures var k := FindIndex(View(s), s.reader.key); ReaderRun(s, FindSteps(k, |s.list|)) == FindEnd(s, k)
  {
    hide View, FindIndex, StepReader, FindEnd, MutexHeld, NewestFirst, OpenIsListed, OneOpenPerKey, StoredRight, ReaderOk;
    var k := FindIndex(View(s), s.reader.key);
    FindWalk(s, k);
    FindLast(s, k, ReaderRun(s, k));
    assert ReaderRun(s, k + 1) == StepReader(ReaderRun(s, k), true);
    assert ReaderRun(s, k + 2) == StepReader(ReaderRun(s, k + 1), true);
  }

  lemma ChooseStep(s: State, n: nat, oldest: nat, r: State)
    requires Inv(s) && Inv(r) && s.reader.Choosing? && n < |s.list| && oldest < |s.list|
    requires r == s.(reader := Choosing(s.reader.key, s.reader.id, n, oldest))
    ensures var next := if View(s)[n].last <= View(s)[oldest].last then n else oldest;
            StepReader(r, true) == s.(reader := Choosing(s.reader.key, s.reader.id, n + 1, next))
  {
  }

  lemma VictimStep(es: seq<Entry>, n: nat, oldest: nat)
    requires n < |es| && (if n == 0 then oldest == 0 else IsVictim(es[..n], oldest))
    ensures IsVictim(es[..n + 1], if es[n].last <= es[oldest].last then n else oldest)
  {
  }

  lemma {:induction false} ChooseWalk(s: State, n: nat) returns (oldest: nat)
    requires Inv(s) && s.reader.Choosing? && s.reader.at == 0 && s.reader.oldest == 0 && n <= |s.list|
    ensures ReaderRun(s, n) == s.(reader := Choosing(s.reader.key, s.reader.id, n, oldest))
    ensures if n == 0 then oldest == 0 else IsVictim(View(s)[..n], oldest)
  {
    hide StepReader, View, NewestFirst, OpenIsListed, OneOpenPerKey, StoredRight, ReaderOk, MutexHeld;
    oldest := 0;
    if n > 0 {
      var before := ChooseWalk(s, n - 1);
      ChooseStep(s, n - 1, before, ReaderRun(s, n - 1));
      VictimStep(View(s), n - 1, before);
      oldest := if View(s)[n - 1].last <= View(s)[before].last then n - 1 else before;
    }
  }

  /** session_evict_one, undisturbed: Registry.EvictOne's contract. */
  lemma ChooseUndisturbed(s: State) returns (k: nat)
    requires Inv(s) && s.reader.Choosing? && s.reader.at == 0 && s.reader.oldest == 0
    ensures IsVictim(View(s), k)
    ensures ReaderRun(s, |s.list| + 1) == Unlink(s, k).(reader := Linking(s.reader.key, s.reader.id))
  {
    k := ChooseWalk(s, |s.list|);
    assert View(s)[..|s.list|] == View(s);
  }

  ghost predicate ReapedTo(s: State, n: nat, r: State)
    requires Inv(s) && n <= |s.list|
  {
    var es := View(s);
    && r.list == PassAt(s.list, es, s.now, n)
    && r.reaper == Visiting(KeptCount(es[..n], s.now))
    && r.reader == s.reader && r.now == s.now && r.lock == s.lock && |r.info| == |s.info|
    && (forall i :: n <= i < |s.list| ==> r.info[s.list[i]] == es[i])
    && (forall i :: 0 <= i < n ==> r.info[s.list[i]] == es[i].(closed := es[i].closed || Reapable(es[i], s.now)))
  }

  /** A pass takes one step for every node it visits and another for every node it removes. */
  function PassSteps(es: seq<Entry>, now: int, n: nat): nat
    requires n <= |es|
  {
    2 * n - KeptCount(es[..n], now)
  }

  lemma PassStepsNext(es: seq<Entry>, now: int, n: nat)
    requires n < |es|
    ensures PassSteps(es, now, n + 1) == PassSteps(es, now, n) + if Reapable(es[n], now) then 2 else 1
  {
    PassStep(es, es, now, n);
  }

  lemma {:induction false} ReapWalk(s: State, n: nat)
    requires Inv(s) && s.reaper == Visiting(0) && n <= |s.list|
    ensures ReapedTo(s, n, ReaperRun(s, PassSteps(View(s), s.now, n)))
  {
    hide StepReaper, NewestFirst, OpenIsListed, OneOpenPerKey, StoredRight, ReaderOk, PassAt, KeptCount;
    if n == 0 {
      PassEnds(s.list, View(s), s.now);
    } else {
      hide ReapedTo, View, PassSteps;
      var k := PassSteps(View(s), s.now, n - 1);
      ReapWalk(s, n - 1);
      ReapOne(s, n - 1, ReaperRun(s, k));
      PassStepsNext(View(s), s.now, n - 1);
      assert ReaperRun(s, k + 1) == StepReaper(ReaperRun(s, k));
      assert ReaperRun(s, k + 2) == StepReaper(ReaperRun(s, k + 1));
    }
  }

  lemma ReapOne(s: State, n: nat, r: State)
    requires Inv(s) && Inv(r) && n < |s.list| && ReapedTo(s, n, r)
    ensures var r1 := StepReaper(r);
            Inv(r1) && ReapedTo(s, n + 1, if Reapable(View(s)[n], s.now) then StepReaper(r1) else r1)
  {
    hide PassAt, KeptCount, ReaderOk, NewestFirst, OpenIsListed, OneOpenPerKey, StoredRight, MutexHeld;
    PassStep(s.list, View(s), s.now, n);
    ReaperKeeps(r);
    ListDistinct(s);
  }

  lemma ListDistinct(s: State)
    requires Inv(s)
    ensures forall i, j :: 0 <= i < |s.list| && 0 <= j < |s.list| && i != j ==> s.list[i] != s.list[j]
  {
  }

  /** r is s after a whole pass: the survivors, asleep, and every reapable session closed. */
  ghost predicate Reaped(s: State, r: State)
    requires Listed(s)
  {
    var es := View(s);
    && r.list == Survivors(s.list, es, s.now)
    && r.reaper.Sleeping? && r.lock == Free && r.reader == s.reader && |r.info| == |s.info|
    && forall i :: 0 <= i < |s.list| ==>
         r.info[s.list[i]] == es[i].(closed := es[i].closed || Reapable(es[i], s.now))
  }

  ghost function PassOf(s: State): nat
    requires Listed(s)
  {
    PassSteps(View(s), s.now, |s.list|)
  }

  lemma ReapFromFirst(s: State)
    requires Inv(s) && s.reaper == Visiting(0)
    ensures Reaped(s, ReaperRun(s, PassOf(s) + 1))
  {
    hide NewestFirst, OpenIsListed, OneOpenPerKey, StoredRight, ReaderOk, PassAt, KeptCount, Survivors, PassSteps;
    ReapWalk(s, |s.list|);
    PassEnds(s.list, View(s), s.now);
    var es := View(s);
    assert es[..|s.list|] == es;
  }

  lemma {:induction false} ReaperRunShift(s: State, n: nat)
    requires Inv(s)
    ensures Inv(StepReaper(s)) && ReaperRun(s, n + 1) == ReaperRun(StepReaper(s), n)
  {
    hide Inv, StepReaper;
    ReaperKeeps(s);
    if n > 0 {
      ReaperRunShift(s, n - 1);
    } else {
      assert ReaperRun(s, 1) == StepReaper(ReaperRun(s, 0));
    }
  }

  /** Taking the mutex, the reaper goes to the first node, and nothing else changes. */
  lemma PassBegins(s: State)
    requires Inv(s) && s.reaper.Sleeping? && s.lock == Free
    ensures StepReaper(s) == s.(lock := ReaperHolds, reaper := Visiting(0))
  {
  }

  /** A whole reaper pass, undisturbed, from sleep to sleep: Registry.Reap's contract. */
  lemma ReapUndisturbed(s: State)
    requires Inv(s) && s.reaper.Sleeping? && s.lock == Free
    ensures Listed(s) && Reaped(s, ReaperRun(s, PassOf(s) + 2))
  {
    hide Inv, StepReaper, Survivors, PassSteps, View;
    PassBegins(s);
    ReaperKeeps(s);
    var s1 := StepReaper(s);
    IsListed(s);
    SameView(s, s1);
    ReapFromFirst(s1);
    ReaperRunShift(s, PassOf(s) + 1);
  }

  lemma IsListed(s: State)
    requires Inv(s)
    ensures Listed(s)
  {
  }

  lemma SameView(s: State, r: State)
    requires Listed(s) && r.list == s.list && r.info == s.info && r.count == s.count
    ensures View(r) == View(s)
  {
  }
}
