/**
 All interleavings of wz-udprelay.c's threads over the session registry: the one TUN reader,
 the reaper, and a worker for every session ever created. Sessions are numbered in order of
 creation. list_mutex is a field; while a thread walks the list holding it, every visited
 node is a step of its own, and so is what is done to a node after its test, because workers
 write `closed` and `last` without the mutex.
 The clock is arbitrary: nothing here needs it to move forward.
 */
module RelayMachine {
  import opened SessionList

  datatype Holder = Free | ReaderHolds | ReaperHolds

  /** Where tun_reader stands inside session_get, session_create and session_enqueue. */
  datatype Reader =
    | Reading
    | Finding(key: Key, at: nat, again: bool)               // walking in session_find
    | Stamping(key: Key, id: nat)                           // found, not yet stamped
    | Connecting(key: Key)                                  // nothing found, mutex released
    | Created(key: Key, id: nat)                            // the worker runs, not yet on the list
    | Choosing(key: Key, id: nat, at: nat, oldest: nat)     // walking in session_evict_one
    | Linking(key: Key, id: nat)
    | Linked(key: Key)                                      // mutex released before the second lookup
    | Got(key: Key, id: nat)                                // session_get has returned
    | Storing(key: Key, id: nat)                            // the session was seen open

  datatype Reaper =
    | Sleeping
    | Visiting(at: nat)
    | Removing(at: nat)   // the node was reapable when visited

  datatype State = State(
    list: seq<nat>, info: seq<Entry>, count: int, now: int,
    lock: Holder, reader: Reader, reaper: Reaper,
    stored: seq<(nat, Key)>)   // the session and the 4-tuple of every payload handed to session_enqueue

  datatype Event =
    | Clock(now: int)
    | Packet(key: Key)
    | ReaderStep(connected: bool)   // connected: the outcome of a SOCKS5 set-up
    | ReaperStep
    | WorkerCloses(id: nat)
    | WorkerReplies(id: nat)

  const INIT := State([], [], 0, 0, Free, Reading, Sleeping, [])

  // ---- the invariant ----

  ghost predicate Listed(s: State) {
    && (forall i :: 0 <= i < |s.list| ==> s.list[i] < |s.info|)
    && s.count == |s.list| <= SESSION_MAX
  }

  ghost predicate NewestFirst(s: State) {
    forall i, j :: 0 <= i < j < |s.list| ==> s.list[i] > s.list[j]
  }

  predicate IsPending(r: Reader, id: nat) {
    (r.Created? || r.Choosing? || r.Linking?) && r.id == id
  }

  predicate IsOpen(s: State, id: nat) {
    id < |s.info| && !s.info[id].closed
  }

  ghost predicate OpenIsListed(s: State) {
    forall id: nat :: IsOpen(s, id) ==> id in s.list || IsPending(s.reader, id)
  }

  ghost predicate OneOpenPerKey(s: State) {
    forall a: nat, b: nat :: IsOpen(s, a) && IsOpen(s, b) && s.info[a].key == s.info[b].key ==> a == b
  }

  predicate MutexHeld(s: State) {
    && (s.lock == ReaderHolds <==> s.reader.Finding? || s.reader.Stamping? || s.reader.Choosing? || s.reader.Linking?)
    && (s.lock == ReaperHolds <==> !s.reaper.Sleeping?)
  }

  ghost predicate NoneOpen(s: State, key: Key) {
    forall id: nat :: IsOpen(s, id) ==> s.info[id].key != key
  }

  ghost predicate Pending(s: State, key: Key, id: nat) {
    && id + 1 == |s.info| && s.info[id].key == key
    && forall i :: 0 <= i < |s.list| ==> s.list[i] < id
  }

  ghost predicate ReaderOk(s: State)
    requires Listed(s)
  {
    match s.reader
    case Reading => true
    case Finding(key, at, _) => at <= |s.list| && forall i :: 0 <= i < at ==> !Matches(s.info[s.list[i]], key)
    case Stamping(key, id) => id < |s.info| && s.info[id].key == key
    case Connecting(key) => NoneOpen(s, key)
    case Created(key, id) => Pending(s, key, id)
    case Choosing(key, id, at, oldest) =>
      Pending(s, key, id) && at <= |s.list| && oldest < |s.list|
    case Linking(key, id) => Pending(s, key, id) && |s.list| < SESSION_MAX
    case Linked(_) => true
    case Got(key, id) => id < |s.info| && s.info[id].key == key
    case Storing(key, id) => id < |s.info| && s.info[id].key == key
  }

  ghost predicate StoredRight(s: State) {
    forall i :: 0 <= i < |s.stored| ==> s.stored[i].0 < |s.info| && s.info[s.stored[i].0].key == s.stored[i].1
  }

  ghost predicate Core(s: State) {
    Listed(s) && NewestFirst(s) && OpenIsListed(s) && OneOpenPerKey(s) && StoredRight(s)
  }

  ghost predicate Inv(s: State) {
    && Core(s) && MutexHeld(s) && ReaderOk(s)
    && (s.reaper.Visiting? ==> s.reaper.at <= |s.list|)
    && (s.reaper.Removing? ==> s.reaper.at < |s.list|)
  }

  // ---- the steps ----

  function Touch(s: State, id: nat): State
    requires id < |s.info|
  {
    s.(info := s.info[id := s.info[id].(last := s.now)])
  }

  function Close(s: State, id: nat): State
    requires id < |s.info|
  {
    s.(info := s.info[id := s.info[id].(closed := true)])
  }

  /** Takes the node at k off the list and closes it. */
  function Unlink(s: State, k: nat): State
    requires k < |s.list| && s.list[k] < |s.info|
  {
    Close(s.(list := Without(s.list, k), count := s.count - 1), s.list[k])
  }

  function ReaderMoves(s: State, r: Reader): State {
    s.(reader := r)
  }

  ghost function StepReader(s: State, connected: bool): State
    requires Inv(s)
  {
    match s.reader
    case Reading => s
    case Finding(key, at, again) =>
      if at == |s.list| then s.(lock := Free, reader := if again then Reading else Connecting(key))
      else if Matches(s.info[s.list[at]], key) then ReaderMoves(s, Stamping(key, s.list[at]))
      else ReaderMoves(s, Finding(key, at + 1, again))
    case Stamping(key, id) => Touch(s, id).(lock := Free, reader := Got(key, id))
    case Connecting(key) =>
      if connected then s.(info := s.info + [Entry(key, s.now, false)], reader := Created(key, |s.info|))
      else ReaderMoves(s, Reading)
    case Created(key, id) =>
      if s.lock != Free then s
      else if s.count >= SESSION_MAX then s.(lock := ReaderHolds, reader := Choosing(key, id, 0, 0))
      else s.(lock := ReaderHolds, reader := Linking(key, id))
    case Choosing(key, id, at, oldest) =>
      if at == |s.list| then ReaderMoves(Unlink(s, oldest), Linking(key, id))
      else if s.info[s.list[at]].last <= s.info[s.list[oldest]].last then ReaderMoves(s, Choosing(key, id, at + 1, at))
      else ReaderMoves(s, Choosing(key, id, at + 1, oldest))
    case Linking(key, id) =>
      s.(list := [id] + s.list, count := s.count + 1, lock := Free, reader := Linked(key))
    case Linked(key) =>
      if s.lock != Free then s else s.(lock := ReaderHolds, reader := Finding(key, 0, true))
    case Got(key, id) => ReaderMoves(s, if s.info[id].closed then Reading else Storing(key, id))
    case Storing(key, id) => Touch(s, id).(reader := Reading, stored := s.stored + [(id, key)])
  }

  ghost function StepReaper(s: State): State
    requires Inv(s)
  {
    match s.reaper
    case Sleeping => if s.lock != Free then s else s.(lock := ReaperHolds, reaper := Visiting(0))
    case Visiting(at) =>
      if at == |s.list| then s.(lock := Free, reaper := Sleeping)
      else s.(reaper := if Reapable(s.info[s.list[at]], s.now) then Removing(at) else Visiting(at + 1))
    case Removing(at) => Unlink(s, at).(reaper := Visiting(at))
  }

  /** One step of the system; an event that cannot happen in s leaves it as it is. */
  ghost function Step(s: State, e: Event): State
    requires Inv(s)
  {
    match e
    case Clock(now) => s.(now := now)
    case Packet(key) =>
      if s.reader.Reading? && s.lock == Free then s.(lock := ReaderHolds, reader := Finding(key, 0, false)) else s
    case ReaderStep(connected) => StepReader(s, connected)
    case ReaperStep => StepReaper(s)
    case WorkerCloses(id) => if id < |s.info| then Close(s, id) else s
    case WorkerReplies(id) => if id < |s.info| then Touch(s, id) else s
  }

  // ---- every step keeps the invariant ----

  lemma CloseKeeps(s: State, id: nat)
    requires Inv(s) && id < |s.info|
    ensures Inv(Close(s, id))
  {
  }

  lemma TouchKeeps(s: State, id: nat)
    requires Inv(s) && id < |s.info|
    ensures Inv(Touch(s, id))
  {
    var s' := Touch(s, id);
    assert forall i: nat :: IsOpen(s', i) <==> IsOpen(s, i);
    assert forall i :: 0 <= i < |s.info| ==> s'.info[i].key == s.info[i].key && s'.info[i].closed == s.info[i].closed;
  }

  lemma UnlinkKeeps(s: State, k: nat)
    requires Core(s) && k < |s.list|
    ensures Core(Unlink(s, k))
    ensures |Unlink(s, k).info| == |s.info|
    ensures forall i :: 0 <= i < |s.info| ==> Unlink(s, k).info[i].key == s.info[i].key
    ensures forall i: nat :: IsOpen(Unlink(s, k), i) ==> IsOpen(s, i)
  {
  }

  lemma FindingKeeps(s: State, connected: bool)
    requires Inv(s) && s.reader.Finding?
    ensures Inv(StepReader(s, connected))
  {
    if s.reader.at == |s.list| {
      assert forall id: nat :: IsOpen(s, id) ==> id in s.list && s.info[id].key != s.reader.key;
    }
  }

  lemma StampingKeeps(s: State, connected: bool)
    requires Inv(s) && s.reader.Stamping?
    ensures Inv(StepReader(s, connected))
  {
    TouchKeeps(s, s.reader.id);
  }

  lemma ConnectingKeeps(s: State, connected: bool)
    requires Inv(s) && s.reader.Connecting?
    ensures Inv(StepReader(s, connected))
  {
  }

  lemma ChoosingKeeps(s: State, connected: bool)
    requires Inv(s) && s.reader.Choosing?
    ensures Inv(StepReader(s, connected))
  {
    hide Unlink;
    if s.reader.at == |s.list| {
      UnlinkKeeps(s, s.reader.oldest);
      UnlinkShape(s, s.reader.oldest);
    }
  }

  lemma UnlinkShape(s: State, k: nat)
    requires Listed(s) && k < |s.list|
    ensures var s' := Unlink(s, k);
            && s'.list == Without(s.list, k) && s'.lock == s.lock && s'.reader == s.reader
            && s'.reaper == s.reaper && s'.stored == s.stored && s'.now == s.now
  {
  }

  lemma LinkingKeeps(s: State, connected: bool)
    requires Inv(s) && s.reader.Linking?
    ensures Inv(StepReader(s, connected))
  {
  }

  lemma StoringKeeps(s: State, connected: bool)
    requires Inv(s) && s.reader.Storing?
    ensures Inv(StepReader(s, connected))
  {
    TouchKeeps(s, s.reader.id);
  }

  lemma OtherReaderKeeps(s: State, connected: bool)
    requires Inv(s) && (s.reader.Reading? || s.reader.Created? || s.reader.Linked? || s.reader.Got?)
    ensures Inv(StepReader(s, connected))
  {
  }

  lemma ReaderKeeps(s: State, connected: bool)
    requires Inv(s)
    ensures Inv(StepReader(s, connected))
  {
    hide Inv, StepReader;
    match s.reader
    case Finding(_, _, _) => FindingKeeps(s, connected);
    case Stamping(_, _) => StampingKeeps(s, connected);
    case Connecting(_) => ConnectingKeeps(s, connected);
    case Choosing(_, _, _, _) => ChoosingKeeps(s, connected);
    case Linking(_, _) => LinkingKeeps(s, connected);
    case Storing(_, _) => StoringKeeps(s, connected);
    case _ => OtherReaderKeeps(s, connected);
  }

  lemma ReaperKeeps(s: State)
    requires Inv(s)
    ensures Inv(StepReaper(s))
  {
    hide Unlink;
    if s.reaper.Removing? {
      UnlinkKeeps(s, s.reaper.at);
      UnlinkShape(s, s.reaper.at);
    } else {
      assert forall id: nat :: IsOpen(StepReaper(s), id) <==> IsOpen(s, id);
    }
  }

  lemma StepKeeps(s: State, e: Event)
    requires Inv(s)
    ensures Inv(Step(s, e))
  {
    hide Close, Touch;
    match e
    case Clock(_) =>
    case Packet(_) =>
    case ReaderStep(connected) => ReaderKeeps(s, connected);
    case ReaperStep => ReaperKeeps(s);
    case WorkerCloses(id) => if id < |s.info| { CloseKeeps(s, id); }
    case WorkerReplies(id) => if id < |s.info| { TouchKeeps(s, id); }
  }
}
