/**
 The per-session queue of wz-udprelay.c: a head/tail linked list of payloads that drops its
 oldest element when 256 are already waiting. QueueState is what one critical section under
 qmutex does to the queue; the class is the linked list that implements it.
 */
module PayloadQueue {
  import opened Bytes
  import opened Sequences

  const QUEUE_MAX := 256

  /** How a payload left the head of the queue. */
  datatype Removal = Taken(data: seq<byte>) | Dropped(data: seq<byte>)

  /** The waiting payloads, with the history of everything stored and removed so far. */
  datatype QueueState = QueueState(waiting: seq<seq<byte>>, stored: seq<seq<byte>>, removed: seq<Removal>)

  datatype Op = Enqueue(data: seq<byte>, callocOk: bool, mallocOk: bool) | Dequeue

  const EMPTY := QueueState([], [], [])

  function TakeHead(q: QueueState): QueueState
    requires q.waiting != []
  {
    QueueState(q.waiting[1..], q.stored, q.removed + [Taken(q.waiting[0])])
  }

  function DropHead(q: QueueState): QueueState
    requires q.waiting != []
  {
    QueueState(q.waiting[1..], q.stored, q.removed + [Dropped(q.waiting[0])])
  }

  /** session_enqueue: the drop happens before, and regardless of, the two allocations. */
  function Stored(q: QueueState, data: seq<byte>, ok: bool): QueueState {
    var q1 := if |q.waiting| >= QUEUE_MAX then DropHead(q) else q;
    if ok then QueueState(q1.waiting + [data], q1.stored + [data], q1.removed) else q1
  }

  function Apply(q: QueueState, op: Op): QueueState {
    match op
    case Enqueue(data, callocOk, mallocOk) => Stored(q, data, callocOk && mallocOk)
    case Dequeue => if q.waiting == [] then q else TakeHead(q)
  }

  function Run(ops: seq<Op>): QueueState {
    if ops == [] then EMPTY else Apply(Run(ops[..|ops| - 1]), ops[|ops| - 1])
  }

  function Payloads(rs: seq<Removal>): (s: seq<seq<byte>>)
    ensures |s| == |rs|
    ensures forall i :: 0 <= i < |rs| ==> s[i] == rs[i].data
  {
    seq(|rs|, i requires 0 <= i < |rs| => rs[i].data)
  }

  /** Nothing is lost, invented or reordered, and a payload is dropped only with at least 255 younger ones stored. */
  ghost predicate Accounted(q: QueueState) {
    && |q.waiting| <= QUEUE_MAX
    && Payloads(q.removed) + q.waiting == q.stored
    && forall i :: 0 <= i < |q.removed| && q.removed[i].Dropped? ==> i + QUEUE_MAX <= |q.stored|
  }

  lemma ApplyAccounted(q: QueueState, op: Op)
    requires Accounted(q)
    ensures Accounted(Apply(q, op))
  {
  }

  /** Every run of enqueues and dequeues, with any allocation failures, accounts for every payload. */
  lemma {:induction false} RunAccounted(ops: seq<Op>)
    ensures Accounted(Run(ops))
  {
    if ops != [] {
      RunAccounted(ops[..|ops| - 1]);
      ApplyAccounted(Run(ops[..|ops| - 1]), ops[|ops| - 1]);
    }
  }

  /** The payloads the worker took, in order. */
  function TakenOf(rs: seq<Removal>): seq<seq<byte>> {
    if rs == [] then []
    else TakenOf(rs[..|rs| - 1]) + if rs[|rs| - 1].Taken? then [rs[|rs| - 1].data] else []
  }

  lemma {:induction false} TakenInOrder(rs: seq<Removal>)
    ensures IsSubsequence(TakenOf(rs), Payloads(rs))
  {
    if rs == [] {
      assert Payloads(rs) == [];
    } else {
      hide IsSubsequence;
      var n := |rs| - 1;
      TakenInOrder(rs[..n]);
      SubsequenceOfLonger(TakenOf(rs[..n]), Payloads(rs[..n]), rs[n].data);
      assert Payloads(rs) == Payloads(rs[..n]) + [rs[n].data];
      if rs[n].Taken? {
        assert TakenOf(rs) == TakenOf(rs[..n]) + [rs[n].data];
      } else {
        assert TakenOf(rs) == TakenOf(rs[..n]);
      }
    }
  }

  /** What was taken is an in-order subsequence of what was stored. */
  lemma TakenFromStored(q: QueueState)
    requires Accounted(q)
    ensures IsSubsequence(TakenOf(q.removed), q.stored)
  {
    hide IsSubsequence, TakenOf;
    TakenInOrder(q.removed);
    PrefixSubsequence(TakenOf(q.removed), Payloads(q.removed), q.waiting);
  }

  /** What reaches the worker over a run is an in-order subsequence of what was stored. */
  lemma SentInOrder(ops: seq<Op>)
    ensures IsSubsequence(TakenOf(Run(ops).removed), Run(ops).stored)
  {
    RunAccounted(ops);
    TakenFromStored(Run(ops));
  }

  /** An enqueue drops the oldest payload exactly when 256 are waiting; a dequeue takes it when there is one. */
  lemma DropOnlyWhenFull(q: QueueState, op: Op)
    requires Accounted(q)
    ensures op.Enqueue? ==>
              Apply(q, op).removed == q.removed + if |q.waiting| == 256 then [Dropped(q.waiting[0])] else []
    ensures op.Dequeue? ==>
              Apply(q, op).removed == q.removed + if q.waiting != [] then [Taken(q.waiting[0])] else []
  {
  }

  /** The payloads for which both allocations succeed, in order. */
  function Accepted(ops: seq<Op>): seq<seq<byte>> {
    if ops == [] then []
    else
      var op := ops[|ops| - 1];
      Accepted(ops[..|ops| - 1]) + if op.Enqueue? && op.callocOk && op.mallocOk then [op.data] else []
  }

  /** Over every run, exactly the accepted payloads were stored: each is waiting, taken or dropped. */
  lemma {:induction false} RunStores(ops: seq<Op>)
    ensures Run(ops).stored == Accepted(ops)
    ensures Payloads(Run(ops).removed) + Run(ops).waiting == Accepted(ops)
  {
    RunAccounted(ops);
    if ops != [] {
      RunStores(ops[..|ops| - 1]);
    }
  }

  class Payload {
    const data: seq<byte>
    var next: Payload?

    constructor (data: seq<byte>)
      ensures this.data == data && next == null
    {
      this.data := data;
      next := null;
    }
  }

  function DataOf(nodes: seq<Payload>): (s: seq<seq<byte>>)
    ensures |s| == |nodes|
    ensures forall i :: 0 <= i < |nodes| ==> s[i] == nodes[i].data
  {
    seq(|nodes|, i requires 0 <= i < |nodes| => nodes[i].data)
  }

  class Queue {
    var qhead: Payload?
    var qtail: Payload?
    var qlen: int
    ghost var nodes: seq<Payload>
    ghost var stored: seq<seq<byte>>
    ghost var removed: seq<Removal>

    ghost predicate Linked()
      reads this, nodes
    {
      && (forall i, j :: 0 <= i < j < |nodes| ==> nodes[i] != nodes[j])
      && (forall i :: 0 <= i < |nodes| - 1 ==> nodes[i].next == nodes[i + 1])
      && (if nodes == [] then qhead == null && qtail == null
          else qhead == nodes[0] && qtail == nodes[|nodes| - 1] && qtail.next == null)
    }

    ghost predicate Valid()
      reads this, nodes
    {
      Linked() && qlen == |nodes| && Accounted(State())
    }

    ghost function State(): QueueState
      reads this
    {
      QueueState(DataOf(nodes), stored, removed)
    }

    constructor ()
      ensures Valid() && State() == EMPTY && nodes == []
    {
      qhead, qtail, qlen := null, null, 0;
      nodes, stored, removed := [], [], [];
      new;
      RunAccounted([]);
    }

    /** p = qhead; qhead = p->next; if (!qhead) qtail = NULL; qlen-- */
    method Unlink() returns (p: Payload)
      requires Linked() && nodes != []
      modifies this`qhead, this`qtail, this`qlen, this`nodes
      ensures Linked() && nodes == old(nodes)[1..] && p == old(nodes)[0] && qlen == old(qlen) - 1
      ensures DataOf(nodes) == old(DataOf(nodes))[1..]
    {
      p := qhead;
      qhead := p.next;
      if qhead == null {
        qtail := null;
      }
      qlen := qlen - 1;
      nodes := nodes[1..];
    }

    /** if (qtail) qtail->next = p; else qhead = p; qtail = p; qlen++ */
    method Link(p: Payload)
      requires Linked() && p !in nodes && p.next == null
      modifies this`qhead, this`qtail, this`qlen, this`nodes, qtail
      ensures Linked() && nodes == old(nodes) + [p] && qlen == old(qlen) + 1
      ensures DataOf(nodes) == old(DataOf(nodes)) + [p.data]
    {
      if qtail != null {
        qtail.next := p;
      } else {
        qhead := p;
      }
      qtail := p;
      qlen := qlen + 1;
      nodes := nodes + [p];
    }

    /** session_enqueue, up to its time stamp; -1 when an allocation fails. */
    method Enqueue(pkt: seq<byte>, callocOk: bool, mallocOk: bool) returns (r: int)
      requires Valid()
      modifies this, nodes
      ensures Valid() && State() == Stored(old(State()), pkt, callocOk && mallocOk)
      ensures r == if callocOk && mallocOk then 0 else -1
      ensures forall p :: p in nodes ==> p in old(nodes) || fresh(p)
    {
      hide Payloads, DataOf;
      ghost var q0 := State();
      if qlen >= QUEUE_MAX {
        if qhead != null {
          var oldest := Unlink();
          removed := removed + [Dropped(oldest.data)];
        }
      }
      assert State() == if |q0.waiting| >= QUEUE_MAX then DropHead(q0) else q0;
      ApplyAccounted(q0, Op.Enqueue(pkt, callocOk, mallocOk));
      if !callocOk || !mallocOk {
        return -1;
      }
      var p := new Payload(pkt);
      Link(p);
      stored := stored + [pkt];
      r := 0;
    }

    /** session_dequeue: the oldest payload, if any. */
    method Dequeue() returns (r: bool, pkt: seq<byte>)
      requires Valid()
      modifies this
      ensures Valid() && State() == Apply(old(State()), Op.Dequeue)
      ensures r <==> old(State()).waiting != []
      ensures r ==> pkt == old(State()).waiting[0]
      ensures forall p :: p in nodes ==> p in old(nodes)
    {
      ghost var q0 := State();
      ApplyAccounted(q0, Op.Dequeue);
      r, pkt := false, [];
      if qhead != null {
        var p := Unlink();
        removed := removed + [Taken(p.data)];
        r, pkt := true, p.data;
      }
    }
  }
}
