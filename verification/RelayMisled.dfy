/**
 A run of the relay in which an eviction takes a session that is not a least recently used
 one: 512 sessions are opened at one instant, the first of them gets a reply later, and while
 the search for a victim is about to visit it, its candidate gets a reply too.
 */
module RelayMisled {
  import opened Bytes
  import opened SessionList
  import opened RelayMachine
  import opened RelayRuns
  import opened RelayWalks
  import opened RelayEviction

  /** Some run whose clock never turns back leads to s. */
  ghost predicate Reachable(s: State) {
    exists es :: ClockForward(es) && Exec(es) == s
  }

  lemma ReachableInv(s: State)
    requires Reachable(s)
    ensures Inv(s)
  {
    hide Exec, Inv;
    var es :| ClockForward(es) && Exec(es) == s;
  }

  lemma ReachStep(s: State, e: Event)
    requires Reachable(s) && ClockSteady(s, e)
    ensures Inv(s) && Reachable(Step(s, e))
  {
    hide Step, Inv;
    ReachableInv(s);
    var es :| ClockForward(es) && Exec(es) == s;
    assert (es + [e])[..|es|] == es;
    assert Exec(es + [e]) == Step(s, e);
    assert ClockForward(es + [e]);
  }

  lemma ReachReader(s: State)
    requires Reachable(s)
    ensures Inv(s) && Reachable(StepReader(s, true))
  {
    hide StepReader, Inv;
    ReachStep(s, ReaderStep(true));
  }

  lemma {:induction false} ReachRun(s: State, n: nat)
    requires Reachable(s)
    ensures Inv(s) && Reachable(ReaderRun(s, n))
  {
    hide StepReader, Inv, Reachable;
    ReachableInv(s);
    if n > 0 {
      ReachRun(s, n - 1);
      ReachReader(ReaderRun(s, n - 1));
    }
  }

  // ---- opening sessions ----

  function KeyNo(n: nat): Key
    requires n <= SESSION_MAX
  {
    Key(n, 0, 0, 0)
  }

  /** n sessions, opened and used at instant 0, the last one first in the list. */
  ghost function Opened(n: nat): State
    requires n <= SESSION_MAX
  {
    State(seq(n, i requires 0 <= i < n => n - 1 - i), seq(n, i requires 0 <= i < n => Entry(KeyNo(i), 0, false)),
          n, 0, Free, Reading, Sleeping, seq(n, i requires 0 <= i < n => (i, KeyNo(i))))
  }

  /** A packet of a new 4-tuple: nothing is found, and the reader goes to connect. */
  lemma NewPacket(s: State, key: Key)
    requires Reachable(s) && Inv(s) && s.lock == Free && s.reader.Reading?
    requires forall i :: 0 <= i < |s.info| ==> s.info[i].key != key
    ensures Reachable(s.(reader := Connecting(key)))
  {
    hide Reachable, FindIndex, StepReader, NewestFirst, OpenIsListed, OneOpenPerKey, StoredRight;
    ReachStep(s, Packet(key));
    var s1 := Step(s, Packet(key));
    assert s1 == s.(lock := ReaderHolds, reader := Finding(key, 0, false));
    ReachableInv(s1);
    NotFound(s1);
    FindUndisturbed(s1);
    ReachRun(s1, FindSteps(|s.list|, |s.list|));
    assert FindEnd(s1, |s.list|) == s.(reader := Connecting(key));
  }

  lemma NotFound(s: State)
    requires Inv(s) && s.reader.Finding? && forall i :: 0 <= i < |s.info| ==> s.info[i].key != s.reader.key
    ensures FindIndex(View(s), s.reader.key) == |s.list|
  {
  }

  /** From the connection to the insertion, on a list that is not full. */
  lemma Inserted(s: State, key: Key)
    requires Reachable(s) && s.lock == Free && s.reader == Connecting(key) && s.count < SESSION_MAX
    ensures Reachable(s.(list := [|s.info|] + s.list, info := s.info + [Entry(key, s.now, false)],
                         count := s.count + 1, reader := Linked(key)))
  {
    hide Reachable, Inv;
    ReachReader(s);
    var s1 := StepReader(s, true);
    ReachReader(s1);
    var s2 := StepReader(s1, true);
    ReachReader(s2);
  }

  /** From the insertion to the stored payload. */
  lemma Used(s: State, key: Key)
    requires Reachable(s) && s.lock == Free && s.reader == Linked(key)
    requires s.list != [] && s.list[0] + 1 == |s.info| && s.info[s.list[0]] == Entry(key, s.now, false)
    ensures Reachable(s.(reader := Reading, stored := s.stored + [(s.list[0], key)]))
  {
    hide Reachable, Inv;
    ReachReader(s);
    var s1 := StepReader(s, true);
    ReachReader(s1);
    var s2 := StepReader(s1, true);
    ReachReader(s2);
    var s3 := StepReader(s2, true);
    ReachReader(s3);
    var s4 := StepReader(s3, true);
    ReachReader(s4);
    assert s.info[s.list[0] := s.info[s.list[0]]] == s.info;
  }

  lemma {:induction false} OpenedReachable(n: nat)
    requires n <= SESSION_MAX
    ensures Reachable(Opened(n))
  {
    hide Reachable, Inv;
    if n == 0 {
      StartReachable();
      assert Opened(0) == INIT;
    } else {
      var s, key := Opened(n - 1), KeyNo(n - 1);
      OpenedReachable(n - 1);
      ReachableInv(s);
      NewPacket(s, key);
      var s1 := s.(reader := Connecting(key));
      Inserted(s1, key);
      var s2 := s1.(list := [n - 1] + s1.list, info := s1.info + [Entry(key, 0, false)], count := n, reader := Linked(key));
      Used(s2, key);
      assert Opened(n) == s2.(reader := Reading, stored := s2.stored + [(n - 1, key)]);
    }
  }

  lemma StartReachable()
    ensures Reachable(INIT)
  {
    assert ClockForward([]) && Exec([]) == INIT;
  }

  // ---- the eviction ----

  /** The search for a victim among 512 sessions of which only the last in the list is younger. */
  ghost function Searching(): State
  {
    var s := Opened(SESSION_MAX);
    var key := KeyNo(SESSION_MAX);
    s.(info := s.info[0 := Entry(KeyNo(0), 1, false)] + [Entry(key, 1, false)], now := 1,
       lock := ReaderHolds, reader := Choosing(key, SESSION_MAX, 0, 0))
  }

  lemma SearchReached()
    ensures Reachable(Searching())
  {
    hide Reachable, Inv;
    var s, key := Opened(SESSION_MAX), KeyNo(SESSION_MAX);
    OpenedReachable(SESSION_MAX);
    ReachStep(s, Clock(1));
    var s1 := s.(now := 1);
    ReachStep(s1, WorkerReplies(0));
    var s2 := s1.(info := s1.info[0 := Entry(KeyNo(0), 1, false)]);
    ReachableInv(s2);
    NewPacket(s2, key);
    var s3 := s2.(reader := Connecting(key));
    ReachReader(s3);
    var s4 := StepReader(s3, true);
    ReachReader(s4);
  }

  /** The search has visited all but the last session; the one before it is the candidate. */
  ghost function BeforeLast(): State {
    Searching().(reader := Choosing(KeyNo(SESSION_MAX), SESSION_MAX, SESSION_MAX - 1, SESSION_MAX - 2))
  }

  lemma BeforeLastReached()
    ensures Reachable(BeforeLast())
  {
    hide Reachable, Inv, StepReader;
    var s := Searching();
    SearchReached();
    ReachableInv(s);
    ViewOfSearch(s);
    var oldest := ChooseWalk(s, SESSION_MAX - 1);
    VictimUnique(View(s)[..SESSION_MAX - 1], oldest, SESSION_MAX - 2);
    ReachRun(s, SESSION_MAX - 1);
  }

  lemma ViewOfSearch(s: State)
    requires Inv(s) && s == Searching()
    ensures IsVictim(View(s)[..SESSION_MAX - 1], SESSION_MAX - 2)
  {
    hide Inv;
    assert forall i :: 0 <= i < SESSION_MAX - 1 ==> View(s)[i].last == 0;
  }

  /** The walk is over, and a session older than its candidate is listed. */
  ghost predicate Misled(s: State) {
    Listed(s) && Evicting(s) && !LeastOf(s, |s.list|)
  }

  ghost predicate LeadsAstray(es: seq<Event>) {
    ClockForward(es) && Misled(Exec(es))
  }

  /** So an eviction can take a session that is not a least recently used one. */
  lemma MisledReachable()
    ensures exists es :: LeadsAstray(es)
  {
    hide Reachable, Inv, Step;
    var s := BeforeLast();
    BeforeLastReached();
    ReachableInv(s);
    ReplyMisleads(s, 0);
    var e := WorkerReplies(s.list[s.reader.oldest]);
    ReachStep(s, e);
    ReachStep(Step(s, e), ReaderStep(true));
    var s2 := Step(Step(s, e), ReaderStep(true));
    InRange(s2);
    SomeRun(s2);
  }

  lemma SomeRun(s: State)
    requires Reachable(s) && Misled(s)
    ensures exists es :: LeadsAstray(es)
  {
    hide Exec, ClockForward, Misled;
    var es :| ClockForward(es) && Exec(es) == s;
    assert LeadsAstray(es);
  }
}
