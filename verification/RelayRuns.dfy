/**
 What holds over whole runs of the relay: safety in every reachable state, and the registry as
 a partial map from 4-tuples to sessions.
 */
module RelayRuns {
  import opened SessionList
  import opened RelayMachine

  /** The state after a run: any sequence of events from the start. */
  ghost function Exec(es: seq<Event>): (s: State)
    ensures Inv(s)
  {
    if es == [] then INIT
    else
      var s := Exec(es[..|es| - 1]);
      StepKeeps(s, es[|es| - 1]);
      Step(s, es[|es| - 1])
  }

  /** The safety properties of every reachable state, spelled out. */
  lemma RunSafety(es: seq<Event>)
    ensures var s := Exec(es);
            && s.count == |s.list| <= 512
            && (forall i, j :: 0 <= i < j < |s.list| ==> s.list[j] < s.list[i] < |s.info|)
            && (forall id: nat :: IsOpen(s, id) ==> id in s.list || IsPending(s.reader, id))
            && (forall a: nat, b: nat :: IsOpen(s, a) && IsOpen(s, b) && a != b ==> s.info[a].key != s.info[b].key)
            && (s.reader.Choosing? ==> s.list != [])
            && (forall i :: 0 <= i < |s.stored| ==> s.info[s.stored[i].0].key == s.stored[i].1)
  {
  }

  lemma StepGrows(s: State, e: Event)
    requires Inv(s)
    ensures var s' := Step(s, e);
            && |s.info| <= |s'.info|
            && forall id: nat :: id < |s.info| ==>
                 s'.info[id].key == s.info[id].key && (s.info[id].closed ==> s'.info[id].closed)
  {
  }

  /** A session keeps its 4-tuple, and once closed it stays closed, whatever happens next. */
  lemma {:induction false} ClosedForever(es: seq<Event>, more: seq<Event>, id: nat)
    requires id < |Exec(es).info|
    ensures id < |Exec(es + more).info|
    ensures Exec(es + more).info[id].key == Exec(es).info[id].key
    ensures Exec(es).info[id].closed ==> Exec(es + more).info[id].closed
  {
    hide Inv, Step;
    if more == [] {
      assert es + more == es;
    } else {
      var before := more[..|more| - 1];
      ClosedForever(es, before, id);
      assert (es + more)[..|es + more| - 1] == es + before;
      StepGrows(Exec(es + before), more[|more| - 1]);
    }
  }

  ghost predicate AboutToRemove(s: State, id: nat) {
    s.reaper.Removing? && s.reaper.at < |s.list| && s.list[s.reaper.at] == id
  }

  ghost predicate AboutToEvict(s: State, id: nat) {
    s.reader.Choosing? && s.reader.at == |s.list| && s.reader.oldest < |s.list| && s.list[s.reader.oldest] == id
  }

  /**
   The reaper does not turn to a session its own worker has closed. Such a session leaves the
   list only by an eviction, or when it was closed after the reaper had found it reapable.
   */
  lemma LazyUntilEvicted(s: State, e: Event, id: nat)
    requires Inv(s) && id in s.list && s.info[id].closed
    ensures id in Step(s, e).list || (e.ReaderStep? && AboutToEvict(s, id)) || (e.ReaperStep? && AboutToRemove(s, id))
    ensures AboutToRemove(Step(s, e), id) ==> AboutToRemove(s, id)
  {
    hide Matches, NewestFirst, OpenIsListed, OneOpenPerKey, StoredRight, Unlink;
    if e.ReaderStep? && s.reader.Choosing? && s.reader.at == |s.list| {
      UnlinkShape(s, s.reader.oldest);
      WithoutOther(s.list, s.reader.oldest, id);
    } else if e.ReaperStep? && s.reaper.Removing? {
      UnlinkShape(s, s.reaper.at);
      WithoutOther(s.list, s.reaper.at, id);
    }
  }

  lemma WithoutOther(xs: seq<nat>, k: nat, x: nat)
    requires k < |xs| && x in xs
    ensures x in Without(xs, k) || xs[k] == x
  {
    var j :| 0 <= j < |xs| && xs[j] == x;
    if j != k {
      assert Without(xs, k)[if j < k then j else j - 1] == x;
    }
  }

  // ---- the registry as a map ----

  ghost function Live(s: State): set<nat> {
    set id | id in s.list && IsOpen(s, id)
  }

  /** The open sessions on the list, by 4-tuple. */
  ghost function Table(s: State): (t: map<Key, nat>)
    requires Inv(s)
    ensures forall id: nat :: id in Live(s) ==> s.info[id].key in t && t[s.info[id].key] == id
    ensures forall key :: key in t ==> t[key] in Live(s) && s.info[t[key]].key == key
  {
    map id | id in Live(s) :: s.info[id].key := id
  }

  lemma TableDetermined(s: State, t: map<Key, nat>)
    requires Inv(s)
    requires forall id: nat :: id in Live(s) ==> s.info[id].key in t && t[s.info[id].key] == id
    requires forall key :: key in t ==> t[key] in Live(s) && s.info[t[key]].key == key
    ensures t == Table(s)
  {
  }

  datatype Change = Same | Put(key: Key, id: nat) | Remove(key: Key)

  function Applied(t: map<Key, nat>, c: Change): map<Key, nat> {
    match c
    case Same => t
    case Put(key, id) => t[key := id]
    case Remove(key) => t - {key}
  }

  ghost function RemovedKey(s: State, id: nat): Change
    requires id < |s.info|
  {
    if id in Live(s) then Remove(s.info[id].key) else Same
  }

  /** What a step does to the map. */
  ghost function ChangeOf(s: State, e: Event): Change
    requires Inv(s)
  {
    match e
    case ReaderStep(_) =>
      (match s.reader
       case Linking(key, id) => if s.info[id].closed then Same else Put(key, id)
       case Choosing(_, _, at, oldest) => if at == |s.list| then RemovedKey(s, s.list[oldest]) else Same
       case _ => Same)
    case ReaperStep =>
      if s.reaper.Removing? then RemovedKey(s, s.list[s.reaper.at]) else Same
    case WorkerCloses(id) => if id < |s.info| then RemovedKey(s, id) else Same
    case _ => Same
  }

  lemma TableAfterClose(s: State, s': State, gone: nat)
    requires Inv(s) && Inv(s') && gone < |s.info|
    requires Live(s') == Live(s) - {gone}
    requires |s.info| <= |s'.info| && forall i: nat :: i < |s.info| ==> s'.info[i].key == s.info[i].key
    ensures Table(s') == Applied(Table(s), RemovedKey(s, gone))
  {
    var t := Applied(Table(s), RemovedKey(s, gone));
    TableDetermined(s', t);
  }

  lemma UnlinkLive(s: State, k: nat)
    requires Core(s) && k < |s.list|
    ensures Live(Unlink(s, k)) == Live(s) - {s.list[k]}
  {
  }

  lemma SameLive(s: State, s': State)
    requires Inv(s) && Inv(s') && Live(s') == Live(s)
    requires |s.info| <= |s'.info| && forall i: nat :: i < |s.info| ==> s'.info[i].key == s.info[i].key
    ensures Table(s') == Table(s)
  {
    TableDetermined(s', Table(s));
  }

  lemma LinkingTable(s: State, s': State)
    requires Inv(s) && Inv(s') && s.reader.Linking?
    requires s'.list == [s.reader.id] + s.list && s'.info == s.info
    ensures !s.info[s.reader.id].closed ==> s.reader.key !in Table(s)
    ensures Table(s') == if s.info[s.reader.id].closed then Table(s) else Table(s)[s.reader.key := s.reader.id]
  {
    hide NewestFirst, StoredRight, MutexHeld;
    var key, id := s.reader.key, s.reader.id;
    assert id !in s.list;
    assert forall i: nat :: IsOpen(s', i) <==> IsOpen(s, i);
    if s.info[id].closed {
      assert Live(s') == Live(s);
      SameLive(s, s');
    } else {
      assert IsOpen(s, id);
      assert forall other: nat :: other in Live(s) ==> IsOpen(s, other) && s.info[other].key != key;
      assert Live(s') == Live(s) + {id};
      TableDetermined(s', Table(s)[key := id]);
    }
  }

  lemma UnlinkTable(s: State, s': State, k: nat)
    requires Inv(s) && Inv(s') && k < |s.list|
    requires s'.list == Unlink(s, k).list && s'.info == Unlink(s, k).info
    ensures Table(s') == Applied(Table(s), RemovedKey(s, s.list[k]))
  {
    UnlinkLive(s, k);
    UnlinkKeeps(s, k);
    assert Live(s') == Live(Unlink(s, k));
    TableAfterClose(s, s', s.list[k]);
  }

  lemma CloseTable(s: State, id: nat)
    requires Inv(s) && id < |s.info|
    ensures Inv(Close(s, id))
    ensures Table(Close(s, id)) == Applied(Table(s), RemovedKey(s, id))
  {
    var s' := Close(s, id);
    CloseKeeps(s, id);
    assert forall i: nat :: IsOpen(s', i) <==> IsOpen(s, i) && i != id;
    assert Live(s') == Live(s) - {id};
    TableAfterClose(s, s', id);
  }

  lemma TouchTable(s: State, s': State)
    requires Inv(s) && Inv(s') && s'.list == s.list && |s.info| <= |s'.info|
    requires forall i: nat :: i < |s.info| ==> s'.info[i].key == s.info[i].key && s'.info[i].closed == s.info[i].closed
    ensures Table(s') == Table(s)
  {
  }

  ghost predicate Refines(s: State, e: Event)
    requires Inv(s)
  {
    var s' := Step(s, e);
    && Inv(s')
    && Table(s') == Applied(Table(s), ChangeOf(s, e))
    && (ChangeOf(s, e).Put? ==> ChangeOf(s, e).key !in Table(s))
    && (ChangeOf(s, e).Remove? ==> ChangeOf(s, e).key in Table(s))
  }

  /**
   The list with its lazily closed nodes refines the map: every step does to the map exactly
   what ChangeOf says, a session is put only under a 4-tuple that has none, and the reaper and
   the eviction remove only what they unlink.
   */
  lemma StepRefines(s: State, e: Event)
    requires Inv(s)
    ensures Refines(s, e)
  {
    hide Inv, Table, Step, ChangeOf;
    match e
    case ReaderStep(connected) => ReaderRefines(s, connected);
    case ReaperStep => ReaperRefines(s);
    case _ => OtherRefines(s, e);
  }

  lemma ReaderRefines(s: State, connected: bool)
    requires Inv(s)
    ensures Refines(s, ReaderStep(connected))
  {
    hide Table, Unlink, Core, ReaderOk;
    ReaderKeeps(s, connected);
    var s' := StepReader(s, connected);
    if s.reader.Linking? {
      PendingInRange(s);
      LinkingTable(s, s');
    } else if s.reader.Choosing? && s.reader.at == |s.list| {
      ChoiceInRange(s);
      UnlinkTable(s, s', s.reader.oldest);
    } else {
      ReaderInRange(s);
      TouchTable(s, s');
    }
  }

  lemma PendingInRange(s: State)
    requires Inv(s) && s.reader.Linking?
    ensures s.reader.id < |s.info|
  {
  }

  lemma ChoiceInRange(s: State)
    requires Inv(s) && s.reader.Choosing?
    ensures s.reader.at <= |s.list| && s.reader.oldest < |s.list|
    ensures forall i :: 0 <= i < |s.list| ==> s.list[i] < |s.info|
  {
  }

  lemma ReaderInRange(s: State)
    requires Inv(s)
    ensures s.reader.Finding? ==> s.reader.at <= |s.list|
    ensures s.reader.Stamping? || s.reader.Got? || s.reader.Storing? ==> s.reader.id < |s.info|
    ensures s.reader.Choosing? ==> s.reader.at <= |s.list| && s.reader.oldest < |s.list|
    ensures forall i :: 0 <= i < |s.list| ==> s.list[i] < |s.info|
  {
  }

  lemma ReaperRefines(s: State)
    requires Inv(s)
    ensures Refines(s, ReaperStep)
  {
    hide Table, Unlink, ReaderOk;
    ReaperKeeps(s);
    var s' := StepReaper(s);
    if s.reaper.Removing? {
      UnlinkTable(s, s', s.reaper.at);
    } else {
      TouchTable(s, s');
    }
  }

  lemma OtherRefines(s: State, e: Event)
    requires Inv(s) && !e.ReaderStep? && !e.ReaperStep?
    ensures Refines(s, e)
  {
    hide Table, ReaderOk;
    StepKeeps(s, e);
    if e.WorkerCloses? && e.id < |s.info| {
      CloseTable(s, e.id);
    } else {
      TouchTable(s, Step(s, e));
    }
  }

  /** The map after a run is the result of the changes of its steps, in order. */
  ghost function Changes(es: seq<Event>): map<Key, nat> {
    if es == [] then map[]
    else Applied(Changes(es[..|es| - 1]), ChangeOf(Exec(es[..|es| - 1]), es[|es| - 1]))
  }

  lemma {:induction false} RunRefines(es: seq<Event>)
    ensures Table(Exec(es)) == Changes(es)
  {
    if es == [] {
      TableDetermined(INIT, map[]);
    } else {
      RunRefines(es[..|es| - 1]);
      StepRefines(Exec(es[..|es| - 1]), es[|es| - 1]);
    }
  }

  /**
   session_find is linearizable, however workers interfere with the walk: the session it
   finds is the map's entry at that step, and if it finds none the map has none.
   */
  lemma FindLinearizes(s: State, connected: bool)
    requires Inv(s) && s.reader.Finding?
    ensures var s', key := StepReader(s, connected), s.reader.key;
            && (s'.reader.Stamping? ==> key in Table(s) && Table(s)[key] == s'.reader.id)
            && (!s'.reader.Stamping? && !s'.reader.Finding? ==> key !in Table(s))
  {
    var at, key := s.reader.at, s.reader.key;
    if at < |s.list| {
      if Matches(s.info[s.list[at]], key) {
        assert s.list[at] in Live(s);
      }
    } else {
      forall id: nat | id in Live(s)
        ensures s.info[id].key != key
      {
        var i :| 0 <= i < |s.list| && s.list[i] == id;
      }
    }
  }
}
