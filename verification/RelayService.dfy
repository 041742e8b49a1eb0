/**
 What the relay does for one packet from the TUN when nothing else interferes: its payload goes
 to the one open session of its 4-tuple, or to a new session, opened for it, that takes the
 place of a least recently used one when 512 are open.
 */
module RelayService {
  import opened SessionList
  import opened RelayMachine
  import opened RelayRuns
  import opened RelayWalks

  /** The reader's own steps, with every connection succeeding, lead from s to r. */
  ghost predicate Leads(s: State, r: State)
    requires Inv(s)
  {
    exists n: nat :: ReaderRun(s, n) == r
  }

  lemma {:induction false} ReaderRunAdd(s: State, m: nat, n: nat)
    requires Inv(s)
    ensures ReaderRun(s, m + n) == ReaderRun(ReaderRun(s, m), n)
  {
    hide Inv, StepReader;
    if n > 0 {
      ReaderRunAdd(s, m, n - 1);
    }
  }

  lemma LeadsOn(s: State, r: State, n: nat)
    requires Inv(s) && Leads(s, r)
    ensures Inv(r) && Leads(s, ReaderRun(r, n))
  {
    hide Inv, StepReader;
    var m: nat :| ReaderRun(s, m) == r;
    ReaderRunAdd(s, m, n);
  }

  lemma LeadsStep(s: State, r: State)
    requires Inv(s) && Leads(s, r)
    ensures Inv(r) && Leads(s, StepReader(r, true))
  {
    hide Inv, StepReader;
    LeadsOn(s, r, 1);
    assert ReaderRun(r, 1) == StepReader(ReaderRun(r, 0), true);
  }

  lemma LeadsNowhere(s: State)
    requires Inv(s)
    ensures Leads(s, s)
  {
    assert ReaderRun(s, 0) == s;
  }

  /** The position of the key's session in the list is the place session_find stops at. */
  lemma FoundIff(s: State, key: Key)
    requires Inv(s)
    ensures var k := FindIndex(View(s), key);
            && (key in Table(s) <==> k < |s.list|)
            && (key in Table(s) ==> Table(s)[key] == s.list[k])
  {
    hide NewestFirst, StoredRight, ReaderOk, MutexHeld, FindIndex;
    var k := FindIndex(View(s), key);
    if k < |s.list| {
      assert s.list[k] in Live(s);
    }
    if key in Table(s) {
      var i :| 0 <= i < |s.list| && s.list[i] == Table(s)[key];
      assert Matches(View(s)[i], key);
    }
  }

  ghost predicate Ready(s: State) {
    Inv(s) && s.reader.Reading? && s.lock == Free
  }

  lemma PacketStarts(s: State, key: Key)
    requires Ready(s)
    ensures Step(s, Packet(key)) == s.(lock := ReaderHolds, reader := Finding(key, 0, false))
    ensures Inv(Step(s, Packet(key)))
  {
    StepKeeps(s, Packet(key));
  }

  /** The session gets the payload and the current time. */
  ghost function Served(s: State, id: nat, key: Key): State
    requires id < |s.info|
  {
    s.(info := s.info[id := s.info[id].(last := s.now)], stored := s.stored + [(id, key)], reader := Reading, lock := Free)
  }

  lemma FromFinding(s0: State, s: State, id: nat)
    requires Inv(s0) && Leads(s0, s) && Inv(s) && s.reader.Finding? && s.reader.at == 0
    requires s.reader.key in Table(s) && Table(s)[s.reader.key] == id
    ensures id < |s.info| && Leads(s0, Served(s, id, s.reader.key))
  {
    hide Inv, Leads, Table, FindIndex, View;
    var key := s.reader.key;
    IsListed(s);
    FoundIff(s, key);
    var k := FindIndex(View(s), key);
    ViewAt(s, k);
    FindUndisturbed(s);
    LeadsOn(s0, s, FindSteps(k, |s.list|));
    var r := FindEnd(s, k);
    LeadsStep(s0, r);
    var r1 := StepReader(r, true);
    LeadsStep(s0, r1);
    assert Served(s, id, key).info == r1.info[id := r1.info[id].(last := s.now)];
  }

  lemma ViewAt(s: State, k: nat)
    requires Inv(s) && s.reader.Finding? && k == FindIndex(View(s), s.reader.key) < |s.list|
    ensures s.list[k] < |s.info| && !s.info[s.list[k]].closed
  {
    assert Matches(View(s)[k], s.reader.key);
  }

  lemma SameTable(s: State, r: State)
    requires Inv(s) && Inv(r) && r.list == s.list && r.info == s.info
    ensures Table(r) == Table(s)
  {
    hide Inv, Table;
    LiveIs(s);
    LiveIs(r);
    SameLive(s, r);
  }

  lemma LiveIs(s: State)
    ensures Live(s) == set id | id in s.list && id < |s.info| && !s.info[id].closed
  {
  }

  /**
   A packet whose 4-tuple has a session: undisturbed, the payload is stored to that session,
   which is stamped, and nothing else changes.
   */
  lemma PacketForSession(s: State, key: Key)
    requires Ready(s) && key in Table(s)
    ensures Inv(Step(s, Packet(key))) && Table(s)[key] < |s.info|
    ensures Leads(Step(s, Packet(key)), Served(s, Table(s)[key], key))
  {
    hide Inv, Table, Leads, Step;
    PacketStarts(s, key);
    var s1 := Step(s, Packet(key));
    LeadsNowhere(s1);
    SameTable(s, s1);
    FromFinding(s1, s1, Table(s)[key]);
  }

  /** The list and the sessions once a new one is in: a full list has lost its victim, if there is one. */
  ghost function Opened(s: State, key: Key, victim: nat): State
    requires |s.list| >= 512 ==> victim < |s.list| && s.list[victim] < |s.info|
  {
    var id := |s.info|;
    var info := s.info + [Entry(key, s.now, false)];
    if |s.list| < 512
    then s.(list := [id] + s.list, info := info, count := s.count + 1)
    else s.(list := [id] + Without(s.list, victim),
            info := info[s.list[victim] := info[s.list[victim]].(closed := true)])
  }

  lemma FromConnecting(s0: State, s: State) returns (victim: nat)
    requires Inv(s0) && Leads(s0, s) && Inv(s) && s.reader.Connecting? && s.lock == Free
    ensures Listed(s) && (|s.list| == 512 ==> IsVictim(View(s), victim))
    ensures Leads(s0, Opened(s, s.reader.key, victim).(reader := Linked(s.reader.key)))
  {
    hide Inv, Leads, View, IsVictim;
    IsListed(s);
    var key := s.reader.key;
    LeadsStep(s0, s);
    var r := StepReader(s, true);
    LeadsStep(s0, r);
    var r1 := StepReader(r, true);
    victim := 0;
    if |s.list| == 512 {
      LeadsOn(s0, r1, 0);
      victim := ChooseUndisturbed(r1);
      LeadsOn(s0, r1, |r1.list| + 1);
      ViewLonger(s, r1);
      VictimListed(s, victim);
      var r2 := ReaderRun(r1, |r1.list| + 1);
      LeadsStep(s0, r2);
    } else {
      LeadsStep(s0, r1);
    }
  }

  lemma VictimListed(s: State, k: nat)
    requires Listed(s) && IsVictim(View(s), k)
    ensures k < |s.list| && s.list[k] < |s.info|
  {
  }

  lemma ViewLonger(s: State, r: State)
    requires Listed(s) && Listed(r) && r.list == s.list && s.info <= r.info
    ensures View(r) == View(s)
  {
  }

  lemma FromLinked(s0: State, s: State)
    requires Inv(s0) && Leads(s0, s) && Inv(s) && s.reader.Linked? && s.lock == Free && s.list != []
    requires s.list[0] < |s.info| && s.info[s.list[0]].key == s.reader.key && !s.info[s.list[0]].closed
    ensures Leads(s0, Served(s, s.list[0], s.reader.key))
  {
    hide Inv, Leads, Table;
    LeadsStep(s0, s);
    var r := StepReader(s, true);
    LeadsStep(s0, r);
    HeadFound(r);
    FromFinding(s0, r, s.list[0]);
  }

  lemma HeadFound(s: State)
    requires Inv(s) && s.list != [] && s.list[0] < |s.info| && !s.info[s.list[0]].closed
    ensures s.info[s.list[0]].key in Table(s) && Table(s)[s.info[s.list[0]].key] == s.list[0]
  {
    assert s.list[0] in Live(s);
  }

  /**
   A packet whose 4-tuple has no session, with the connection succeeding: a new session is
   opened, first in the list, and gets the payload; a full list loses its victim.
   */
  lemma PacketForNew(s: State, key: Key) returns (victim: nat)
    requires Ready(s) && key !in Table(s)
    ensures Inv(Step(s, Packet(key)))
    ensures Listed(s) && (|s.list| == 512 ==> IsVictim(View(s), victim) && victim < |s.list|)
    ensures Leads(Step(s, Packet(key)), Served(Opened(s, key, victim), |s.info|, key))
  {
    hide Inv, Table, Leads, Step, View, FindIndex, IsVictim;
    PacketStarts(s, key);
    IsListed(s);
    var s1 := Step(s, Packet(key));
    LeadsNowhere(s1);
    FoundIff(s, key);
    SameView(s, s1);
    FindUndisturbed(s1);
    LeadsOn(s1, s1, FindSteps(|s.list|, |s.list|));
    var r := s.(reader := Connecting(key));
    assert FindEnd(s1, |s.list|) == r;
    LeadsOn(s1, r, 0);
    victim := FromConnecting(s1, r);
    SameView(s, r);
    if |s.list| == 512 {
      VictimListed(s, victim);
    }
    var r1 := Opened(r, key, victim).(reader := Linked(key));
    LeadsOn(s1, r1, 0);
    FromLinked(s1, r1);
    assert Served(r1, |s.info|, key) == Served(Opened(s, key, victim), |s.info|, key);
  }

  /** A connection that fails leaves everything as it was. */
  lemma ConnectionFails(s: State)
    requires Inv(s) && s.reader.Connecting?
    ensures StepReader(s, false) == s.(reader := Reading)
  {
  }

  /** A session seen closed when it is about to get a payload gets none. */
  lemma ClosedGetsNothing(s: State)
    requires Inv(s) && s.reader.Got?
    ensures s.reader.id < |s.info|
    ensures StepReader(s, true) == s.(reader := if IsOpen(s, s.reader.id) then Storing(s.reader.key, s.reader.id) else Reading)
  {
  }
}
