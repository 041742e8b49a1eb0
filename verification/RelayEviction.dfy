/**
 Eviction while workers interfere. The walk of session_evict_one compares `last` stamps that
 workers keep writing. A reply to the session it holds for the oldest makes it forget what it
 passed before, so that it may evict a session that is not least recently used; this module
 says exactly when it does.
 */
module RelayEviction {
  import opened SessionList
  import opened RelayMachine
  import opened RelayRuns
  import opened RelayWalks

  /** The walk has a candidate: the session it takes for the oldest so far. */
  predicate HasCandidate(s: State) {
    s.reader.Choosing? && 0 < s.reader.at && s.reader.oldest < |s.list|
  }

  /** A reply to the candidate of a walk. */
  predicate HitsCandidate(s: State, e: Event) {
    e.WorkerReplies? && HasCandidate(s) && e.id == s.list[s.reader.oldest]
  }

  predicate ClockSteady(s: State, e: Event) {
    e.Clock? ==> s.now <= e.now
  }

  /** The clock never runs backwards. */
  ghost predicate ClockForward(es: seq<Event>) {
    es == [] || (ClockForward(es[..|es| - 1]) && ClockSteady(Exec(es[..|es| - 1]), es[|es| - 1]))
  }

  /** How many nodes the walk had visited when its candidate was last replied to. */
  ghost function Lost(es: seq<Event>): nat {
    if es == [] then 0
    else
      var s, e := Exec(es[..|es| - 1]), es[|es| - 1];
      if !s.reader.Choosing? then 0
      else if HitsCandidate(s, e) then s.reader.at
      else Lost(es[..|es| - 1])
  }

  ghost predicate StampsPast(s: State) {
    forall id: nat :: id < |s.info| ==> s.info[id].last <= s.now
  }

  /** Of the nodes visited from position `lost` on, none is less recently used than the candidate. */
  ghost predicate OldestFrom(s: State, lost: nat)
    requires Inv(s)
  {
    && (s.reader.Choosing? && s.reader.at == 0 ==> s.reader.oldest == 0)
    && (HasCandidate(s) ==>
      && s.reader.oldest < s.reader.at && lost <= s.reader.at
      && forall i :: lost <= i < s.reader.at ==> s.info[s.list[s.reader.oldest]].last <= s.info[s.list[i]].last)
  }

  lemma StampsStayPast(s: State, e: Event)
    requires Inv(s) && StampsPast(s) && ClockSteady(s, e)
    ensures StampsPast(Step(s, e))
  {
    hide NewestFirst, OpenIsListed, OneOpenPerKey, StoredRight, MutexHeld, Matches, Without;
  }

  /** While a walk goes on, only its own steps change the list and what it has seen of it. */
  lemma OthersKeepWalk(s: State, e: Event)
    requires Inv(s) && s.reader.Choosing? && !e.ReaderStep?
    ensures var s' := Step(s, e);
            && s'.list == s.list && s'.reader == s.reader && |s'.info| == |s.info|
            && forall id: nat :: id < |s.info| ==>
                 s'.info[id].last == if e == WorkerReplies(id) then s.now else s.info[id].last
  {
    hide NewestFirst, OpenIsListed, OneOpenPerKey, StoredRight;
  }

  lemma CandidateMoves(s: State, connected: bool, lost: nat)
    requires Inv(s) && OldestFrom(s, lost) && s.reader.Choosing? && (s.reader.at == 0 ==> lost == 0)
    requires Inv(StepReader(s, connected))
    ensures OldestFrom(StepReader(s, connected), lost)
  {
    hide NewestFirst, OpenIsListed, OneOpenPerKey, StoredRight, MutexHeld;
  }

  lemma CandidateStays(s: State, e: Event, lost: nat)
    requires Inv(s) && StampsPast(s) && OldestFrom(s, lost) && (s.reader.Choosing? && s.reader.at == 0 ==> lost == 0)
    ensures Inv(Step(s, e))
    ensures OldestFrom(Step(s, e), if !s.reader.Choosing? then 0 else if HitsCandidate(s, e) then s.reader.at else lost)
  {
    hide NewestFirst, OpenIsListed, OneOpenPerKey, StoredRight, MutexHeld;
    StepKeeps(s, e);
    if s.reader.Choosing? {
      if e.ReaderStep? {
        CandidateMoves(s, e.connected, lost);
      } else {
        hide Step;
        OthersKeepWalk(s, e);
      }
    } else {
      assert !HasCandidate(Step(s, e));
    }
  }

  lemma {:induction false} WalkInvariant(es: seq<Event>)
    requires ClockForward(es)
    ensures StampsPast(Exec(es)) && OldestFrom(Exec(es), Lost(es))
    ensures Exec(es).reader.Choosing? && Exec(es).reader.at == 0 ==> Lost(es) == 0
  {
    hide Inv, Step, OldestFrom;
    if es != [] {
      var s, e := Exec(es[..|es| - 1]), es[|es| - 1];
      WalkInvariant(es[..|es| - 1]);
      StampsStayPast(s, e);
      CandidateStays(s, e, Lost(es[..|es| - 1]));
      AtStart(s, e);
    } else {
      NothingYet();
    }
  }

  /** A walk only moves on. */
  lemma AtStart(s: State, e: Event)
    requires Inv(s)
    ensures Step(s, e).reader.Choosing? && Step(s, e).reader.at == 0 ==> !s.reader.Choosing? || s.reader.at == 0
  {
    hide NewestFirst, OpenIsListed, OneOpenPerKey, StoredRight, Touch, Close, Unlink, Matches;
    if s.reader.Choosing? && !e.ReaderStep? {
      hide Step;
      OthersKeepWalk(s, e);
    }
  }

  lemma NothingYet()
    ensures Inv(INIT) && StampsPast(INIT) && OldestFrom(INIT, 0)
  {
  }

  /** The walk is over: the next step of the reader evicts its candidate. */
  predicate Evicting(s: State) {
    s.reader.Choosing? && s.reader.at == |s.list| && s.reader.oldest < |s.list|
  }

  /** The candidate has a least `last` of the first n sessions listed. */
  ghost predicate LeastOf(s: State, n: nat)
    requires Listed(s) && n <= |s.list| && s.reader.Choosing? && s.reader.oldest < |s.list|
  {
    forall i :: 0 <= i < n ==> s.info[s.list[s.reader.oldest]].last <= s.info[s.list[i]].last
  }

  /**
   In every run whose clock does not turn back, the session evicted is a least recently used
   one exactly when it is so among the nodes visited before the last reply to a candidate of
   the walk: what was visited later, or before with no such reply at all, never matters.
   */
  lemma EvictsOldestIff(es: seq<Event>)
    requires ClockForward(es) && Evicting(Exec(es))
    ensures var s := Exec(es);
            Lost(es) <= |s.list| && (LeastOf(s, |s.list|) <==> LeastOf(s, Lost(es)))
  {
    hide Exec, ClockForward, Lost;
    WalkInvariant(es);
  }

  /** In particular, a walk whose candidates get no reply evicts a least recently used session. */
  lemma CalmEvictsOldest(es: seq<Event>)
    requires ClockForward(es) && Evicting(Exec(es)) && Lost(es) == 0
    ensures LeastOf(Exec(es), |Exec(es).list|)
  {
    hide Exec, ClockForward, Lost;
    EvictsOldestIff(es);
  }

  // ---- one reply to the candidate, told beforehand ----

  /** The positions the walk still decides between: its candidate, and the nodes it has not visited. */
  predicate InPlay(s: State, i: nat) {
    s.reader.Choosing? && i < |s.list| && (i == s.reader.oldest || s.reader.at <= i)
  }

  /** The rest of a walk, started anywhere, ends with a least stamp of those in play. */
  lemma {:induction false} RestOfWalk(s: State, n: nat) returns (oldest: nat)
    requires Inv(s) && s.reader.Choosing? && s.reader.at + n <= |s.list|
    ensures InPlay(s, oldest)
    ensures ReaderRun(s, n) == s.(reader := Choosing(s.reader.key, s.reader.id, s.reader.at + n, oldest))
    ensures forall i: nat :: InPlay(s, i) && (i < s.reader.at + n || i == s.reader.oldest) ==>
              s.info[s.list[oldest]].last <= s.info[s.list[i]].last
  {
    hide StepReader, NewestFirst, OpenIsListed, OneOpenPerKey, StoredRight, MutexHeld;
    oldest := s.reader.oldest;
    if n > 0 {
      var before := RestOfWalk(s, n - 1);
      ChooseFrom(s, s.reader.at + n - 1, before, ReaderRun(s, n - 1));
      oldest := if s.info[s.list[s.reader.at + n - 1]].last <= s.info[s.list[before]].last then s.reader.at + n - 1 else before;
    }
  }

  lemma ChooseFrom(s: State, n: nat, oldest: nat, r: State)
    requires Inv(s) && Inv(r) && s.reader.Choosing? && n < |s.list| && oldest < |s.list|
    requires r == s.(reader := Choosing(s.reader.key, s.reader.id, n, oldest))
    ensures var next := if s.info[s.list[n]].last <= s.info[s.list[oldest]].last then n else oldest;
            StepReader(r, true) == s.(reader := Choosing(s.reader.key, s.reader.id, n + 1, next))
  {
    hide NewestFirst, OpenIsListed, OneOpenPerKey, StoredRight, MutexHeld;
  }

  /** The stamp of the session at i once the candidate has been replied to. */
  function StampThen(s: State, i: nat): int
    requires s.reader.Choosing? && i < |s.list| && s.list[i] < |s.info|
  {
    if i == s.reader.oldest then s.now else s.info[s.list[i]].last
  }

  /** A session still in play will be as old as all those the walk has passed and let go. */
  ghost predicate OldOneInPlay(s: State)
    requires Listed(s) && s.reader.Choosing? && s.reader.at <= |s.list|
  {
    exists i :: 0 <= i < |s.list| && InPlay(s, i) && NoneOlderPassed(s, i)
  }

  ghost predicate NoneOlderPassed(s: State, i: nat)
    requires Listed(s) && s.reader.Choosing? && s.reader.at <= |s.list| && i < |s.list|
  {
    forall j :: 0 <= j < s.reader.at && j != s.reader.oldest ==> StampThen(s, i) <= s.info[s.list[j]].last
  }

  /** The rest of the walk when its candidate is replied to and nothing else interferes. */
  ghost function AfterReply(s: State): (r: State)
    requires Inv(s) && HasCandidate(s)
    ensures Inv(r)
  {
    var e := WorkerReplies(s.list[s.reader.oldest]);
    StepKeeps(s, e);
    CandidateInRange(s);
    ReaderRun(Step(s, e), |s.list| - s.reader.at)
  }

  lemma CandidateInRange(s: State)
    requires Inv(s) && s.reader.Choosing?
    ensures s.reader.at <= |s.list| && s.reader.oldest < |s.list|
  {
  }

  lemma AfterReplyEnds(s: State) returns (k: nat)
    requires Inv(s) && HasCandidate(s)
    ensures InPlay(s, k)
    ensures var r := AfterReply(s);
            && Evicting(r) && r.list == s.list && r.reader.oldest == k
            && forall i :: 0 <= i < |s.list| ==> s.list[i] < |r.info| && r.info[s.list[i]].last == StampThen(s, i)
    ensures forall i: nat :: InPlay(s, i) ==> StampThen(s, k) <= StampThen(s, i)
  {
    hide Step, StepReader, NewestFirst, OpenIsListed, OneOpenPerKey, StoredRight, MutexHeld;
    var e := WorkerReplies(s.list[s.reader.oldest]);
    StepKeeps(s, e);
    CandidateInRange(s);
    OthersKeepWalk(s, e);
    ListDistinct(s);
    k := RestOfWalk(Step(s, e), |s.list| - s.reader.at);
  }

  /**
   The walk whose candidate is replied to evicts a least recently used session exactly when,
   at the reply, a session still in play is as old as every session passed and let go.
   */
  lemma ReplyEvictsOldestIff(s: State)
    requires Inv(s) && HasCandidate(s)
    ensures var r := AfterReply(s);
            && Evicting(r) && s.reader.at <= |s.list|
            && (LeastOf(r, |r.list|) <==> OldOneInPlay(s))
  {
    hide AfterReply, Inv;
    CandidateInRange(s);
    InRange(s);
    var k := AfterReplyEnds(s);
    var r := AfterReply(s);
    InRange(r);
    if OldOneInPlay(s) {
      var i :| 0 <= i < |s.list| && InPlay(s, i) && NoneOlderPassed(s, i);
      forall j | 0 <= j < |s.list|
        ensures StampThen(s, k) <= StampThen(s, j)
      {
        assert InPlay(s, j) || (j < s.reader.at && j != s.reader.oldest);
      }
    }
    if LeastOf(r, |r.list|) {
      forall j | 0 <= j < s.reader.at && j != s.reader.oldest
        ensures StampThen(s, k) <= s.info[s.list[j]].last
      {
        assert r.info[r.list[k]].last <= r.info[r.list[j]].last;
      }
      assert NoneOlderPassed(s, k);
    }
  }

  lemma InRange(s: State)
    requires Inv(s)
    ensures Listed(s)
  {
  }

  /**
   How it goes wrong: a reply to the candidate before the last node is visited, and the last
   node is evicted although another listed session, older than it, was passed on the way.
   */
  lemma ReplyMisleads(s: State, older: nat)
    requires Inv(s) && HasCandidate(s) && s.reader.at == |s.list| - 1 && s.reader.oldest != older < s.reader.at
    requires var last := s.info[s.list[s.reader.at]].last; s.info[s.list[older]].last < last <= s.now
    ensures var s1 := Step(s, WorkerReplies(s.list[s.reader.oldest]));
            && Inv(s1) && Inv(Step(s1, ReaderStep(true)))
            && var s2 := Step(s1, ReaderStep(true));
               && s2.reader == Choosing(s.reader.key, s.reader.id, |s.list|, s.reader.at) && s2.list == s.list
               && s2.info[s2.list[older]].last < s2.info[s2.list[s.reader.at]].last
  {
    hide OpenIsListed, OneOpenPerKey, StoredRight, MutexHeld;
    var e := WorkerReplies(s.list[s.reader.oldest]);
    StepKeeps(s, e);
    OthersKeepWalk(s, e);
    StepKeeps(Step(s, e), ReaderStep(true));
  }
}
