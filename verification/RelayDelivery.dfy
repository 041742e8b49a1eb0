/**
 The relay's registry and its sessions' queues together: what the workers get of the packets
 the TUN reader reads, in every interleaving of the threads and with any failed allocations.
 */
module RelayDelivery {
  import opened Bytes
  import opened Sequences
  import opened SessionList
  import opened RelayMachine
  import RelayRuns
  import RelayWalks
  import RelayService
  import PayloadQueue

  /** A payload accepted from the TUN, with its 4-tuple. */
  datatype Arrival = Arrival(key: Key, data: seq<byte>)

  /** The registry, one queue for every session ever created, and all arrivals so far. */
  datatype System = System(relay: State, queues: seq<PayloadQueue.QueueState>, arrived: seq<Arrival>)

  datatype Move =
    | Arrives(key: Key, data: seq<byte>)
    | Reads(connected: bool, callocOk: bool, mallocOk: bool)   // the next step of the TUN reader
    | Takes(id: nat)                                           // session_dequeue by a worker
    | Others(e: Event)                                         // clock, reaper, a worker's close or reply

  const START := System(INIT, [], [])

  /** The payloads that arrived with the given 4-tuple, in order. */
  function DataFor(arrived: seq<Arrival>, key: Key): seq<seq<byte>> {
    if arrived == [] then []
    else
      var n := |arrived| - 1;
      DataFor(arrived[..n], key) + if arrived[n].key == key then [arrived[n].data] else []
  }

  /** The arrivals the reader is done with. */
  function Settled(y: System): seq<Arrival> {
    if y.relay.reader.Reading? || y.arrived == [] then y.arrived else y.arrived[..|y.arrived| - 1]
  }

  /** The queue accounts for its payloads, and stored only payloads of its 4-tuple, in order of arrival. */
  ghost predicate QueueOk(q: PayloadQueue.QueueState, key: Key, arrived: seq<Arrival>) {
    PayloadQueue.Accounted(q) && IsSubsequence(q.stored, DataFor(arrived, key))
  }

  ghost predicate InHand(y: System) {
    !y.relay.reader.Reading? ==> y.arrived != [] && y.arrived[|y.arrived| - 1].key == y.relay.reader.key
  }

  ghost predicate QueuesOk(y: System) {
    && |y.queues| == |y.relay.info|
    && forall id :: 0 <= id < |y.queues| ==> QueueOk(y.queues[id], y.relay.info[id].key, Settled(y))
  }

  ghost predicate Good(y: System) {
    Inv(y.relay) && InHand(y) && QueuesOk(y)
  }

  ghost function Read(y: System, connected: bool, ok: bool): System
    requires Good(y)
  {
    var relay := StepReader(y.relay, connected);
    if y.relay.reader.Storing? then
      var id := y.relay.reader.id;
      y.(relay := relay, queues := y.queues[id := PayloadQueue.Stored(y.queues[id], y.arrived[|y.arrived| - 1].data, ok)])
    else if y.relay.reader.Connecting? && connected then
      y.(relay := relay, queues := y.queues + [PayloadQueue.EMPTY])
    else y.(relay := relay)
  }

  ghost function Next(y: System, m: Move): System
    requires Good(y)
  {
    match m
    case Arrives(key, data) =>
      if y.relay.reader.Reading? && y.relay.lock == Free
      then y.(relay := Step(y.relay, Packet(key)), arrived := y.arrived + [Arrival(key, data)]) else y
    case Reads(connected, callocOk, mallocOk) => Read(y, connected, callocOk && mallocOk)
    case Takes(id) =>
      if id < |y.queues|
      then y.(queues := y.queues[id := PayloadQueue.Apply(y.queues[id], PayloadQueue.Dequeue)]) else y
    case Others(e) => if e.Packet? || e.ReaderStep? then y else y.(relay := Step(y.relay, e))
  }

  lemma DataForLast(arrived: seq<Arrival>, a: Arrival, key: Key)
    ensures DataFor(arrived + [a], key) == DataFor(arrived, key) + if a.key == key then [a.data] else []
  {
    assert (arrived + [a])[..|arrived|] == arrived;
  }

  /** One more arrival, stored or not, leaves a queue's account in order. */
  lemma OneMoreArrival(q: PayloadQueue.QueueState, key: Key, arrived: seq<Arrival>, a: Arrival, ok: bool)
    requires QueueOk(q, key, arrived)
    ensures QueueOk(q, key, arrived + [a])
    ensures a.key == key ==> QueueOk(PayloadQueue.Stored(q, a.data, ok), key, arrived + [a])
  {
    hide IsSubsequence, PayloadQueue.Accounted, DataFor;
    DataForLast(arrived, a, key);
    SubsequenceOfLonger(q.stored, DataFor(arrived, key), a.data);
    assert DataFor(arrived, key) + [] == DataFor(arrived, key);
    PayloadQueue.ApplyAccounted(q, PayloadQueue.Enqueue(a.data, ok, ok));
  }

  lemma NewQueue(key: Key, arrived: seq<Arrival>)
    ensures QueueOk(PayloadQueue.EMPTY, key, arrived)
  {
    PayloadQueue.RunAccounted([]);
  }

  /** What a step of the reader does to its place in the code. */
  lemma ReaderMovesOn(s: State, connected: bool)
    requires Inv(s)
    ensures var s' := StepReader(s, connected);
            && (s.reader.Reading? ==> s'.reader.Reading?)
            && (!s.reader.Reading? && !s'.reader.Reading? ==> s'.reader.key == s.reader.key)
            && (s.reader.Storing? ==> s'.reader.Reading? && s.reader.id < |s.info| && s.info[s.reader.id].key == s.reader.key)
            && (s.reader.Connecting? && connected ==> !s'.reader.Reading?)
  {
    hide Unlink, Touch, Matches, NewestFirst, OpenIsListed, OneOpenPerKey, StoredRight, MutexHeld;
  }

  /** What it does to the sessions. */
  lemma ReaderKeepsKeys(s: State, connected: bool)
    requires Inv(s)
    ensures var s' := StepReader(s, connected);
            && Inv(s')
            && |s'.info| == |s.info| + (if s.reader.Connecting? && connected then 1 else 0)
            && forall id: nat :: id < |s.info| ==> s'.info[id].key == s.info[id].key
  {
    hide Matches, NewestFirst, OpenIsListed, OneOpenPerKey, StoredRight, MutexHeld;
    ReaderKeeps(s, connected);
    RelayRuns.StepGrows(s, ReaderStep(connected));
  }

  lemma ReadKeeps(y: System, connected: bool, ok: bool)
    requires Good(y)
    ensures Good(Read(y, connected, ok))
  {
    hide Inv, QueueOk, StepReader, DataFor;
    var s, y' := y.relay, Read(y, connected, ok);
    ReaderMovesOn(s, connected);
    ReaderKeepsKeys(s, connected);
    if !s.reader.Reading? {
      var n := |y.arrived| - 1;
      assert y.arrived == y.arrived[..n] + [y.arrived[n]];
      forall id | 0 <= id < |y'.queues|
        ensures QueueOk(y'.queues[id], y'.relay.info[id].key, Settled(y'))
      {
        if id < |y.queues| {
          OneMoreArrival(y.queues[id], s.info[id].key, y.arrived[..n], y.arrived[n], ok);
        } else {
          NewQueue(y'.relay.info[id].key, Settled(y'));
        }
      }
    }
  }

  lemma OthersKeep(s: State, e: Event)
    requires Inv(s) && !e.ReaderStep? && !e.Packet?
    ensures var s' := Step(s, e);
            && Inv(s') && s'.reader == s.reader && |s'.info| == |s.info|
            && forall id: nat :: id < |s.info| ==> s'.info[id].key == s.info[id].key
  {
    hide NewestFirst, OpenIsListed, OneOpenPerKey, StoredRight, MutexHeld;
    StepKeeps(s, e);
    RelayRuns.StepGrows(s, e);
  }

  lemma NextKeeps(y: System, m: Move)
    requires Good(y)
    ensures Good(Next(y, m))
  {
    hide Inv, QueueOk, DataFor;
    match m
    case Arrives(key, _) => StepKeeps(y.relay, Packet(key));
    case Reads(connected, callocOk, mallocOk) => ReadKeeps(y, connected, callocOk && mallocOk);
    case Takes(id) =>
      if id < |y.queues| {
        TakeKeeps(y.queues[id], y.relay.info[id].key, Settled(y));
      }
    case Others(e) =>
      if !e.Packet? && !e.ReaderStep? {
        OthersKeep(y.relay, e);
      }
  }

  lemma TakeKeeps(q: PayloadQueue.QueueState, key: Key, arrived: seq<Arrival>)
    requires QueueOk(q, key, arrived)
    ensures QueueOk(PayloadQueue.Apply(q, PayloadQueue.Dequeue), key, arrived)
  {
    PayloadQueue.ApplyAccounted(q, PayloadQueue.Dequeue);
  }

  /** The system after a run: any sequence of moves from the start. */
  ghost function Exec(ms: seq<Move>): (y: System)
    ensures Good(y)
  {
    if ms == [] then START
    else
      var y := Exec(ms[..|ms| - 1]);
      NextKeeps(y, ms[|ms| - 1]);
      Next(y, ms[|ms| - 1])
  }

  /** What the worker of a session has taken from its queue, in order. */
  function Taken(y: System, id: nat): seq<seq<byte>>
    requires id < |y.queues|
  {
    PayloadQueue.TakenOf(y.queues[id].removed)
  }

  /**
   In every interleaving, what a session's worker takes is, in order and without repetition,
   among the payloads that arrived with that session's 4-tuple; no other payload reaches it.
   */
  lemma DeliveredInOrder(ms: seq<Move>, id: nat)
    requires id < |Exec(ms).queues|
    ensures var y := Exec(ms);
            && |y.queues| == |y.relay.info|
            && IsSubsequence(Taken(y, id), DataFor(y.arrived, y.relay.info[id].key))
  {
    hide Exec, Inv, IsSubsequence, DataFor, PayloadQueue.TakenOf;
    var y := Exec(ms);
    var q, key := y.queues[id], y.relay.info[id].key;
    assert QueueOk(q, key, Settled(y));
    PayloadQueue.TakenFromStored(q);
    SubsequenceTransitive(Taken(y, id), q.stored, DataFor(Settled(y), key));
    AlsoUnsettled(y, key, Taken(y, id));
  }

  lemma AlsoUnsettled(y: System, key: Key, sub: seq<seq<byte>>)
    requires IsSubsequence(sub, DataFor(Settled(y), key))
    ensures IsSubsequence(sub, DataFor(y.arrived, key))
  {
    hide IsSubsequence;
    if Settled(y) != y.arrived {
      var a := y.arrived[|y.arrived| - 1];
      SubsequenceOfLonger(sub, DataFor(Settled(y), key), a.data);
      assert DataFor(Settled(y), key) + [] == DataFor(Settled(y), key);
    }
  }

  // ---- an arrival that nothing disturbs ----

  /** n steps of the reader, every connection and every allocation succeeding. */
  ghost function ReadRun(y: System, n: nat): (r: System)
    requires Good(y)
    ensures Good(r)
  {
    if n == 0 then y
    else
      var p := ReadRun(y, n - 1);
      ReadKeeps(p, true, true);
      Read(p, true, true)
  }

  lemma {:induction false} ReadRunRelay(y: System, n: nat)
    requires Good(y)
    ensures ReadRun(y, n).relay == RelayWalks.ReaderRun(y.relay, n) && ReadRun(y, n).arrived == y.arrived
  {
    hide Good, Inv, StepReader;
    if n > 0 {
      ReadRunRelay(y, n - 1);
      ReadShape(ReadRun(y, n - 1));
    }
  }

  lemma ReadShape(y: System)
    requires Good(y)
    ensures Inv(y.relay) && Read(y, true, true).relay == StepReader(y.relay, true) && Read(y, true, true).arrived == y.arrived
  {
  }

  /** The queue of a session, which is empty for one not created yet. */
  function QueueAt(y: System, id: nat): PayloadQueue.QueueState {
    if id < |y.queues| then y.queues[id] else PayloadQueue.EMPTY
  }

  ghost predicate SameQueues(y: System, r: System) {
    forall id: nat :: QueueAt(r, id) == QueueAt(y, id)
  }

  ghost predicate OneStored(y: System, r: System, id: nat, data: seq<byte>) {
    && QueueAt(r, id) == PayloadQueue.Stored(QueueAt(y, id), data, true)
    && forall other: nat :: other != id ==> QueueAt(r, other) == QueueAt(y, other)
  }

  /** Since y, nothing is stored yet, or the payload in hand is, and the reader is done with it. */
  ghost predicate InHandOrStored(y: System, r: System) {
    || (r.relay.stored == y.relay.stored && SameQueues(y, r))
    || (r.relay.reader.Reading? && |r.relay.stored| == |y.relay.stored| + 1 && y.arrived != []
        && OneStored(y, r, r.relay.stored[|y.relay.stored|].0, y.arrived[|y.arrived| - 1].data))
  }

  lemma ReadStores(y: System, r: System)
    requires Good(y) && Good(r) && r.arrived == y.arrived && InHandOrStored(y, r)
    ensures InHandOrStored(y, Read(r, true, true))
  {
    hide QueueOk, PayloadQueue.Stored, Unlink, NewestFirst, OpenIsListed, OneOpenPerKey, StoredRight, MutexHeld;
    var r' := Read(r, true, true);
    if r.relay.reader.Storing? {
      var id := r.relay.reader.id;
      assert r'.relay.stored == r.relay.stored + [(id, r.relay.reader.key)];
      assert QueueAt(r', id) == PayloadQueue.Stored(QueueAt(r, id), r.arrived[|r.arrived| - 1].data, true);
    } else {
      StoredKept(r.relay);
      assert SameQueues(r, r');
    }
  }

  lemma StoredKept(s: State)
    requires Inv(s) && !s.reader.Storing?
    ensures StepReader(s, true).stored == s.stored
    ensures s.reader.Reading? ==> StepReader(s, true) == s
  {
  }

  lemma {:induction false} ReadRunStores(y: System, n: nat)
    requires Good(y)
    ensures InHandOrStored(y, ReadRun(y, n))
  {
    hide Good, Read, InHandOrStored;
    if n == 0 {
      NothingStored(y);
    } else {
      ReadRunStores(y, n - 1);
      ReadRunRelay(y, n - 1);
      ReadStores(y, ReadRun(y, n - 1));
    }
  }

  lemma NothingStored(y: System)
    ensures InHandOrStored(y, y)
  {
  }

  /** The session a packet of this 4-tuple goes to: its open one, or the next to be created. */
  ghost function SessionFor(s: State, key: Key): nat
    requires Inv(s)
  {
    if key in RelayRuns.Table(s) then RelayRuns.Table(s)[key] else |s.info|
  }

  /** n undisturbed steps of the reader bring the arrival to the queue of its session. */
  ghost predicate StoredAfter(y: System, key: Key, data: seq<byte>, n: nat)
    requires Good(y)
  {
    NextKeeps(y, Arrives(key, data));
    var r := ReadRun(Next(y, Arrives(key, data)), n);
    r.relay.reader.Reading? && OneStored(y, r, SessionFor(y.relay, key), data)
  }

  /**
   An arrival that nothing disturbs is stored, to the one queue of its 4-tuple, and to no other.
   */
  lemma ArrivalStored(y: System, key: Key, data: seq<byte>)
    requires Good(y) && RelayService.Ready(y.relay)
    ensures exists n :: StoredAfter(y, key, data, n)
  {
    hide Inv, Step, RelayRuns.Table, QueuesOk, OneStored, RelayService.Opened;
    var s := y.relay;
    NextKeeps(y, Arrives(key, data));
    var y1 := Next(y, Arrives(key, data));
    var n := ServedSteps(s, key);
    ReadRunRelay(y1, n);
    ReadRunStores(y1, n);
    RelayService.PacketStarts(s, key);
    var r := ReadRun(y1, n);
    SameAccounts(y, y1, r, SessionFor(s, key), data);
    assert StoredAfter(y, key, data, n);
  }

  lemma SameAccounts(y: System, y1: System, r: System, id: nat, data: seq<byte>)
    requires y1.queues == y.queues && OneStored(y1, r, id, data)
    ensures OneStored(y, r, id, data)
  {
  }

  lemma ServedSteps(s: State, key: Key) returns (n: nat)
    requires RelayService.Ready(s)
    ensures Inv(Step(s, Packet(key)))
    ensures var r := RelayWalks.ReaderRun(Step(s, Packet(key)), n);
            r.reader.Reading? && r.stored == s.stored + [(SessionFor(s, key), key)]
  {
    hide Inv, Step, RelayRuns.Table;
    if key in RelayRuns.Table(s) {
      RelayService.PacketForSession(s, key);
      n :| RelayWalks.ReaderRun(Step(s, Packet(key)), n) == RelayService.Served(s, RelayRuns.Table(s)[key], key);
    } else {
      var victim := RelayService.PacketForNew(s, key);
      n :| RelayWalks.ReaderRun(Step(s, Packet(key)), n)
           == RelayService.Served(RelayService.Opened(s, key, victim), |s.info|, key);
    }
  }

  /** A worker that takes gets the oldest payload waiting for its session. */
  lemma TakesOldest(y: System, id: nat)
    requires Good(y) && id < |y.queues| && y.queues[id].waiting != []
    ensures var y' := Next(y, Takes(id));
            && Taken(y', id) == Taken(y, id) + [y.queues[id].waiting[0]]
            && y'.queues[id].waiting == y.queues[id].waiting[1..]
            && forall other :: 0 <= other < |y.queues| && other != id ==> y'.queues[other] == y.queues[other]
  {
    var q := y.queues[id];
    var v := PayloadQueue.Taken(q.waiting[0]);
    assert (q.removed + [v])[..|q.removed|] == q.removed;
  }
}
