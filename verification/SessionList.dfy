/**
 The session registry of wz-udprelay.c: a singly linked list of sessions with a counter.
 A session closed by its own worker stays linked; lookups skip it. Each method states what
 its critical section does to the list of entries, in terms of the functions above it.
 The instant `now` stands for the value of time(NULL) during the critical section.
 */
module SessionList {
  import opened Bytes
  import opened Sequences

  const SESSION_MAX := 512
  const IDLE_TIMEOUT := 90

  datatype Key = Key(cip: addr, cport: word, tip: addr, tport: word)

  /** What the registry code looks at in one session. */
  datatype Entry = Entry(key: Key, last: int, closed: bool)

  predicate Matches(e: Entry, key: Key) {
    !e.closed && e.key == key
  }

  /** The position session_find stops at: the first open entry with the key, else the length. */
  function FindIndex(es: seq<Entry>, key: Key): (k: nat)
    ensures k <= |es|
    ensures k < |es| ==> Matches(es[k], key)
    ensures forall i :: 0 <= i < k ==> !Matches(es[i], key)
  {
    if es == [] || Matches(es[0], key) then 0 else 1 + FindIndex(es[1..], key)
  }

  /** The victim is the least recently used entry and, among ties, the one furthest down the list. */
  ghost predicate IsVictim(es: seq<Entry>, k: nat) {
    && k < |es|
    && (forall i :: 0 <= i < |es| ==> es[k].last <= es[i].last)
    && (forall i :: k < i < |es| ==> es[k].last < es[i].last)
  }

  /** IsVictim determines the victim. */
  lemma VictimUnique(es: seq<Entry>, j: nat, k: nat)
    requires IsVictim(es, j) && IsVictim(es, k)
    ensures j == k
  {
    assert es[j].last == es[k].last;
  }

  predicate Reapable(e: Entry, now: int) {
    !e.closed && now - e.last > IDLE_TIMEOUT
  }

  function KeptCount(es: seq<Entry>, now: int): (n: nat)
    ensures n <= |es|
  {
    if es == [] then 0
    else KeptCount(es[..|es| - 1], now) + if Reapable(es[|es| - 1], now) then 0 else 1
  }

  /** The elements of xs whose entry a reaper pass at `now` leaves on the list, in order. */
  function Survivors<T>(xs: seq<T>, es: seq<Entry>, now: int): (r: seq<T>)
    requires |xs| == |es|
    ensures |r| == KeptCount(es, now)
  {
    if xs == [] then []
    else
      var n := |xs| - 1;
      Survivors(xs[..n], es[..n], now) + if Reapable(es[n], now) then [] else [xs[n]]
  }

  /** A pass keeps the order of the survivors... */
  lemma {:induction false} SurvivorsInOrder<T>(xs: seq<T>, es: seq<Entry>, now: int)
    requires |xs| == |es|
    ensures IsSubsequence(Survivors(xs, es, now), xs)
  {
    if xs != [] {
      hide IsSubsequence;
      var n := |xs| - 1;
      SurvivorsInOrder(xs[..n], es[..n], now);
      SubsequenceOfLonger(Survivors(xs[..n], es[..n], now), xs[..n], xs[n]);
      assert xs == xs[..n] + [xs[n]];
      if Reapable(es[n], now) {
        assert Survivors(xs, es, now) == Survivors(xs[..n], es[..n], now);
      }
    } else {
      assert Survivors(xs, es, now) == [];
    }
  }

  ghost predicate SurvivesAt<T>(xs: seq<T>, es: seq<Entry>, now: int, x: T, i: int) {
    0 <= i < |xs| == |es| && xs[i] == x && (es[i].closed || now - es[i].last <= 90)
  }

  ghost predicate Survives<T>(xs: seq<T>, es: seq<Entry>, now: int, x: T) {
    exists i :: SurvivesAt(xs, es, now, x, i)
  }

  lemma SurvivesOneMore<T>(xs: seq<T>, es: seq<Entry>, now: int, x: T)
    requires |xs| == |es| > 0
    ensures var n := |xs| - 1;
            Survives(xs, es, now, x) <==> Survives(xs[..n], es[..n], now, x) || (xs[n] == x && !Reapable(es[n], now))
  {
    var n := |xs| - 1;
    if Survives(xs[..n], es[..n], now, x) {
      var i :| SurvivesAt(xs[..n], es[..n], now, x, i);
      assert SurvivesAt(xs, es, now, x, i);
    }
    if Survives(xs, es, now, x) {
      var i :| SurvivesAt(xs, es, now, x, i);
      assert i < n ==> SurvivesAt(xs[..n], es[..n], now, x, i);
    }
    assert SurvivesAt(xs, es, now, x, n) <==> xs[n] == x && !Reapable(es[n], now);
  }

  /** ... and the survivors are exactly the nodes already closed or idle for at most 90 s. */
  lemma {:induction false} SurvivorsExact<T>(xs: seq<T>, es: seq<Entry>, now: int, x: T)
    requires |xs| == |es|
    ensures x in Survivors(xs, es, now) <==> Survives(xs, es, now, x)
  {
    hide Reapable, KeptCount, SurvivesAt;
    if xs == [] {
      NoneSurvive(es, now, x);
    } else {
      hide Survives;
      SurvivorsExact(xs[..|xs| - 1], es[..|xs| - 1], now, x);
      SurvivesOneMore(xs, es, now, x);
    }
  }

  lemma NoneSurvive<T>(es: seq<Entry>, now: int, x: T)
    ensures !Survives([], es, now, x)
  {
  }

  /** The list once a reaper pass has looked at its first i nodes. */
  function PassAt<T>(xs: seq<T>, es: seq<Entry>, now: int, i: nat): (r: seq<T>)
    requires i <= |xs| == |es|
    ensures |r| == KeptCount(es[..i], now) + |xs| - i
  {
    Survivors(xs[..i], es[..i], now) + xs[i..]
  }

  lemma PassStep<T>(xs: seq<T>, es: seq<Entry>, now: int, i: nat)
    requires i < |xs| == |es|
    ensures var pass, m := PassAt(xs, es, now, i), KeptCount(es[..i], now);
            && pass[m] == xs[i]
            && PassAt(xs, es, now, i + 1) == (if Reapable(es[i], now) then Without(pass, m) else pass)
            && KeptCount(es[..i + 1], now) == (if Reapable(es[i], now) then m else m + 1)
  {
    assert xs[..i + 1][..i] == xs[..i];
    assert es[..i + 1][..i] == es[..i];
    assert xs[i..] == [xs[i]] + xs[i + 1..];
  }

  lemma PassEnds<T>(xs: seq<T>, es: seq<Entry>, now: int)
    requires |xs| == |es|
    ensures PassAt(xs, es, now, 0) == xs
    ensures PassAt(xs, es, now, |xs|) == Survivors(xs, es, now)
    ensures KeptCount(es[..0], now) == 0
  {
    assert xs[..|xs|] == xs && es[..|xs|] == es;
  }

  function Without<T>(xs: seq<T>, k: nat): (r: seq<T>)
    requires k < |xs|
    ensures |r| == |xs| - 1
  {
    xs[..k] + xs[k + 1..]
  }

  class Session {
    const key: Key
    var last: int
    var closed: bool
    var next: Session?

    constructor (key: Key, now: int)
      ensures this.key == key && last == now && !closed && next == null
    {
      this.key := key;
      last, closed, next := now, false, null;
    }

    predicate Shows(e: Entry)
      reads this
    {
      key == e.key && last == e.last && closed == e.closed
    }
  }

  class Registry {
    var sessions: Session?
    var sessionCount: int
    ghost var spine: seq<Session>
    ghost var entries: seq<Entry>

    ghost predicate Linked()
      reads this, spine
    {
      && (forall i, j :: 0 <= i < j < |spine| ==> spine[i] != spine[j])
      && (forall i {:trigger spine[i].next} :: 0 <= i < |spine| ==> spine[i].next == NodeAt(i + 1))
      && sessions == NodeAt(0)
    }

    ghost function NodeAt(i: nat): Session?
      reads this
    {
      if i < |spine| then spine[i] else null
    }

    ghost predicate Valid()
      reads this, spine
    {
      && sessionCount == |spine| == |entries|
      && Linked()
      && forall i :: 0 <= i < |spine| ==> spine[i].Shows(entries[i])
    }

    constructor ()
      ensures Valid() && spine == [] && entries == []
    {
      sessions, sessionCount := null, 0;
      spine, entries := [], [];
    }

    /** session_find: the first open session with the key, stamped with the current time. */
    method Find(key: Key, now: int) returns (s: Session?)
      requires Valid()
      modifies spine, `entries
      ensures Valid() && spine == old(spine)
      ensures s == NodeAt(FindIndex(old(entries), key))
      ensures entries == if s == null then old(entries)
                         else old(entries)[FindIndex(old(entries), key) := Entry(key, now, false)]
    {
      s := sessions;
      ghost var i := 0;
      while s != null && !(!s.closed && s.key == key)
        invariant 0 <= i <= |spine| && s == NodeAt(i)
        invariant forall j :: 0 <= j < i ==> !Matches(entries[j], key)
        decreases |spine| - i
      {
        s := s.next;
        i := i + 1;
      }
      if s != null {
        s.last := now;
        entries := entries[i := Entry(key, now, false)];
      }
    }

    /** The victim search of session_evict_one. */
    method FindOldest() returns (oldest: Session, ghost k: nat)
      requires Valid() && spine != []
      ensures IsVictim(entries, k) && oldest == spine[k]
    {
      oldest := sessions;
      var s := sessions;
      ghost var i := 0;
      k := 0;
      while s != null
        invariant 0 <= i <= |spine| && s == NodeAt(i)
        invariant k < |spine| && k <= i && oldest == spine[k]
        invariant forall j :: 0 <= j < i ==> entries[k].last <= entries[j].last
        invariant forall j :: k < j < i ==> entries[k].last < entries[j].last
        decreases |spine| - i
      {
        if s.last <= oldest.last {
          oldest, k := s, i;
        }
        s := s.next;
        i := i + 1;
      }
    }

    /** for (s = sessions; s && s->next != x; s = s->next) ; */
    method Predecessor(x: Session, ghost k: nat) returns (prev: Session?)
      requires Linked() && 0 < k < |spine| && x == spine[k]
      ensures prev == spine[k - 1]
    {
      prev := sessions;
      ghost var i := 0;
      while prev != null && prev.next != x
        invariant 0 <= i < k && prev == spine[i]
        decreases k - i
      {
        prev := prev.next;
        i := i + 1;
      }
    }

    /** Takes s off the list, prev being the node before it (null for the first), and closes it. */
    method Unlink(prev: Session?, s: Session, ghost k: nat)
      requires Valid() && k < |spine| && s == spine[k]
      requires prev == if k == 0 then null else spine[k - 1]
      modifies this, prev, s`closed
      ensures Valid()
      ensures spine == Without(old(spine), k) && entries == Without(old(entries), k)
      ensures s.closed && s.next == old(s.next)
      ensures prev != null ==> prev.closed == old(prev.closed)
    {
      if prev != null {
        prev.next := s.next;
      } else {
        sessions := s.next;
      }
      sessionCount := sessionCount - 1;
      spine, entries := Without(spine, k), Without(entries, k);
      s.closed := true;
    }

    /** session_evict_one. It reads the first node unguarded, so the list must not be empty. */
    method EvictOne() returns (ghost k: nat)
      requires Valid() && spine != []
      modifies this, spine
      ensures Valid() && IsVictim(old(entries), k)
      ensures spine == Without(old(spine), k) && entries == Without(old(entries), k)
      ensures old(spine)[k].closed
    {
      var oldest: Session;
      oldest, k := FindOldest();
      var prev: Session? := null;
      if oldest != sessions {
        prev := Predecessor(oldest, k);
      }
      Unlink(prev, oldest, k);
    }

    /** The critical section at the end of session_create; a full list loses its victim first. */
    method Insert(s: Session) returns (ghost k: nat)
      requires Valid() && |spine| <= SESSION_MAX && s !in spine
      modifies this, spine, s`next
      ensures Valid() && |spine| <= SESSION_MAX
      ensures if |old(spine)| < SESSION_MAX
              then spine == [s] + old(spine) && entries[1..] == old(entries)
              else IsVictim(old(entries), k) && spine == [s] + Without(old(spine), k)
                   && entries[1..] == Without(old(entries), k) && old(spine)[k].closed
      ensures spine[0] == s && s.last == old(s.last) && s.closed == old(s.closed)
    {
      k := 0;
      if sessionCount >= SESSION_MAX {
        k := EvictOne();
      }
      PushFront(s);
    }

    /** s->next = sessions; sessions = s; session_count++ */
    method PushFront(s: Session)
      requires Valid() && s !in spine
      modifies this, s`next
      ensures Valid()
      ensures spine == [s] + old(spine)
      ensures entries == [Entry(s.key, s.last, s.closed)] + old(entries)
    {
      s.next := sessions;
      sessions := s;
      sessionCount := sessionCount + 1;
      spine, entries := [s] + spine, [Entry(s.key, s.last, s.closed)] + entries;
    }

    /** The reaper at one node; `last` is the node to link past if the next one goes. */
    method ReapNode(prev: Session?, s: Session, now: int, ghost k: nat) returns (last: Session?, next: Session?)
      requires Valid() && k < |spine| && s == spine[k]
      requires prev == if k == 0 then null else spine[k - 1]
      modifies this, prev, s`closed
      ensures Valid()
      ensures if Reapable(old(entries)[k], now)
              then spine == Without(old(spine), k) && entries == Without(old(entries), k) && s.closed
              else spine == old(spine) && entries == old(entries) && s.closed == old(s.closed)
      ensures var m := if Reapable(old(entries)[k], now) then k else k + 1;
              next == NodeAt(m) && last == if m == 0 then null else NodeAt(m - 1)
      ensures last == prev || last == s
      ensures prev != null ==> prev.closed == old(prev.closed)
    {
      hide Without;
      assert s.Shows(entries[k]);
      next := s.next;
      if !s.closed && now - s.last > IDLE_TIMEOUT {
        Unlink(prev, s, k);
        WithoutAt(old(spine), k);
        last := prev;
      } else {
        last := s;
      }
    }

    /** One pass of the reaper at a single instant. */
    method Reap(now: int)
      requires Valid()
      modifies this, spine
      ensures Valid()
      ensures spine == Survivors(old(spine), old(entries), now)
      ensures entries == Survivors(old(entries), old(entries), now)
      ensures forall i :: 0 <= i < |old(spine)| && Reapable(old(entries)[i], now) ==> old(spine)[i].closed
    {
      hide PassAt, Survivors, KeptCount, Without, Linked, Reapable;
      ghost var sp, es := spine, entries;
      PassEnds(sp, es, now);
      PassEnds(es, es, now);
      FirstNode();
      var s: Session?, prev: Session? := sessions, null;
      ghost var i := 0;
      while s != null
        invariant Valid() && 0 <= i <= |sp| == |es|
        invariant prev == null || prev in sp
        invariant spine == PassAt(sp, es, now, i) && entries == PassAt(es, es, now, i)
        invariant var m := KeptCount(es[..i], now);
                  s == NodeAt(m) && prev == if m == 0 then null else NodeAt(m - 1)
        invariant forall j :: 0 <= j < i && Reapable(es[j], now) ==> sp[j].closed
        decreases |sp| - i
      {
        PassStep(sp, es, now, i);
        PassStep(es, es, now, i);
        ghost var m := KeptCount(es[..i], now);
        assert s == spine[m] == sp[i] && entries[m] == es[i];
        assert s in sp;
        prev, s := ReapNode(prev, s, now, m);
        i := i + 1;
      }
    }

    lemma FirstNode()
      requires Valid()
      ensures sessions == NodeAt(0)
    {
    }
  }

  lemma WithoutAt<T>(xs: seq<T>, k: nat)
    requires k < |xs|
    ensures forall i :: 0 <= i < k ==> Without(xs, k)[i] == xs[i]
    ensures forall i :: k <= i < |xs| - 1 ==> Without(xs, k)[i] == xs[i + 1]
  {
  }
}
