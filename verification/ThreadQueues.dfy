/** internal/apth_thqueue.c: the six thread queues of each scheduler, and the threads that lie between two queues. */
module ThreadQueues {
  import opened Basics

  datatype Kind = NewQ | ReadyQ | WaitingQ | TerminatedQ | WakedQ | RunningQ

  /** A thread queue, named by its scheduler and its role. */
  datatype QId = Q(sched: nat, kind: Kind)

  datatype State = NEW | READY | WAITING | TERMINATED | WAKED | RUNNING

  /** The part of a `struct apth_st` that scheduling and joining touch. `joinid` is the thread that joins this one, or
      this one itself once detached; `joining` the thread that this one has claimed in apth_join. */
  datatype Tcb = Tcb(queue: Option<QId>, sched: nat, state: State, joinid: Option<Tid>,
                     joining: Option<Tid>, exited: bool, joinArg: int)

  /** th_state of a queue. */
  function StateOf(k: Kind): State {
    match k
    case NewQ => NEW
    case ReadyQ => READY
    case WaitingQ => WAITING
    case TerminatedQ => TERMINATED
    case WakedQ => WAKED
    case RunningQ => RUNNING
  }

  /** The lists, the size fields and the live TCBs. */
  datatype Data = Data(queues: map<QId, seq<Tid>>, size: map<QId, int>, tcb: map<Tid, Tcb>) {

    function List(q: QId): seq<Tid> {
      if q in queues then queues[q] else []
    }

    function Size(q: QId): int {
      if q in size then size[q] else 0
    }

    function At(t: Tid): Tcb {
      if t in tcb then tcb[t] else NO_TCB
    }

    function Set(t: Tid, b: Tcb): Data {
      this.(tcb := tcb[t := b])
    }

    /** list_remove and size--; the TCB keeps naming the queue it came from. */
    function Remove(t: Tid, q: QId): Data {
      this.(queues := queues[q := Minus(List(q), t)], size := size[q := Size(q) - 1])
    }

    /** list_push_front or list_push_back, size++, current_queue and state, all under the queue's lock. */
    function Push(t: Tid, q: QId, front: bool): Data {
      Data(queues[q := if front then [t] + List(q) else List(q) + [t]], size[q := Size(q) + 1],
           tcb[t := At(t).(queue := Some(q), state := StateOf(q.kind))])
    }

    /** The body of transfer_th, transfer_th_front and a successful transfer_one_th. */
    function Transfer(t: Tid, from: QId, to: QId, front: bool): Data {
      Remove(t, from).Push(t, to, front)
    }
  }

  const NO_TCB := Tcb(None, 0, NEW, None, None, false, 0)

  /** Every live thread is either carried, or in exactly one queue, which its TCB names together with that queue's
      scheduler; every size field is the length of its list. */
  ghost predicate Partition(d: Data, n: nat, carried: set<Tid>) {
    && (forall q :: q in d.queues <==> q.sched < n)
    && (forall q :: q in d.size <==> q.sched < n)
    && (forall q :: q in d.queues ==> ListOk(d, q, carried))
    && carried <= d.tcb.Keys
    && (forall t :: t in d.tcb && t !in carried ==> Placed(d, t))
  }

  ghost predicate ListOk(d: Data, q: QId, carried: set<Tid>)
    requires q in d.queues && q in d.size
  {
    && NoRepeats(d.queues[q])
    && d.size[q] == |d.queues[q]|
    && forall t :: t in d.queues[q] ==>
         t in d.tcb && t !in carried && d.tcb[t].queue == Some(q) && d.tcb[t].sched == q.sched
  }

  ghost predicate Placed(d: Data, t: Tid)
    requires t in d.tcb
  {
    d.tcb[t].queue.Some? && d.tcb[t].queue.value in d.queues && t in d.queues[d.tcb[t].queue.value]
  }

  lemma RemoveCarries(d: Data, n: nat, carried: set<Tid>, t: Tid, q: QId)
    requires Partition(d, n, carried) && q in d.queues && t in d.queues[q]
    ensures Partition(d.Remove(t, q), n, carried + {t})
  {
    var d' := d.Remove(t, q);
    MinusOne(d.queues[q], t);
    forall p | p in d'.queues
      ensures ListOk(d', p, carried + {t})
    {
      assert ListOk(d, p, carried);
    }
    forall u | u in d'.tcb && u !in carried + {t}
      ensures Placed(d', u)
    {
      assert Placed(d, u);
    }
  }

  lemma PushDelivers(d: Data, n: nat, carried: set<Tid>, t: Tid, q: QId, front: bool)
    requires Partition(d, n, carried) && q in d.queues && t in carried && d.tcb[t].sched == q.sched
    ensures Partition(d.Push(t, q, front), n, carried - {t})
  {
    var d' := d.Push(t, q, front);
    assert forall x :: x in d'.queues[q] <==> x in d.queues[q] || x == t;
    forall p | p in d'.queues
      ensures ListOk(d', p, carried - {t})
    {
      assert ListOk(d, p, carried);
    }
    forall u | u in d'.tcb && u !in carried - {t}
      ensures Placed(d', u)
    {
      assert u != t ==> Placed(d, u);
    }
  }

  lemma TransferKeeps(d: Data, n: nat, carried: set<Tid>, t: Tid, from: QId, to: QId, front: bool)
    requires Partition(d, n, carried) && from in d.queues && to in d.queues && from.sched == to.sched
    requires t in d.queues[from]
    ensures Partition(d.Transfer(t, from, to, front), n, carried)
  {
    RemoveCarries(d, n, carried, t, from);
    PushDelivers(d.Remove(t, from), n, carried + {t}, t, to, front);
    assert carried + {t} - {t} == carried;
  }

  /** A TCB may change in any field but those that name its place. */
  lemma UpdateKeeps(d: Data, n: nat, carried: set<Tid>, t: Tid, b: Tcb)
    requires Partition(d, n, carried) && t in d.tcb
    requires t in carried || (b.queue == d.tcb[t].queue && b.sched == d.tcb[t].sched)
    ensures Partition(d.(tcb := d.tcb[t := b]), n, carried)
  {
  }

  lemma AllocCarries(d: Data, n: nat, carried: set<Tid>, t: Tid, b: Tcb)
    requires Partition(d, n, carried) && t !in d.tcb
    ensures Partition(d.(tcb := d.tcb[t := b]), n, carried + {t})
  {
  }

  lemma FreeDrops(d: Data, n: nat, carried: set<Tid>, t: Tid)
    requires Partition(d, n, carried) && t in carried
    ensures Partition(d.(tcb := d.tcb - {t}), n, carried - {t})
  {
  }
}
