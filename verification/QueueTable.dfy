/** internal/apth_thqueue.c in place: the queues as fields that the transfers change, keeping every thread in one
    place. */
module QueueTable {
  import opened Basics
  import opened ThreadQueues
  import opened Scheduler

  /** The queues of n schedulers; `carried` are the threads that some worker holds outside every queue. */
  class Table {
    var queues: map<QId, seq<Tid>>
    var size: map<QId, int>
    var tcb: map<Tid, Tcb>
    ghost const n: nat
    ghost var carried: set<Tid>

    ghost function D(): Data
      reads this
    {
      Data(queues, size, tcb)
    }

    ghost predicate Valid()
      reads this
    {
      Partition(D(), n, carried)
    }

    /** thqueue_init of each queue. */
    constructor (names: seq<QId>, schedulers: nat)
      requires forall q: QId :: q in names <==> q.sched < schedulers
      ensures Valid() && n == schedulers && carried == {} && tcb == map[]
      ensures forall q :: q in queues ==> queues[q] == [] && size[q] == 0
    {
      queues := map q | q in names :: [];
      size := map q | q in names :: 0;
      tcb, carried, n := map[], {}, schedulers;
    }

    /** push_apth_to, for a thread that its caller holds. */
    method PushTo(q: QId, t: Tid)
      requires Valid() && q in queues && t in carried && t in tcb && tcb[t].sched == q.sched
      modifies this
      ensures Valid() && D() == old(D()).Push(t, q, false) && carried == old(carried) - {t}
    {
      hide Partition;
      PushDelivers(D(), n, carried, t, q, false);
      Sized(D(), n, carried);
      queues := queues[q := queues[q] + [t]];
      size := size[q := size[q] + 1];
      tcb := tcb[t := tcb[t].(queue := Some(q), state := StateOf(q.kind))];
      carried := carried - {t};
    }

    /** remove_apth_from: the thread is left to the caller. */
    method RemoveFrom(q: QId, t: Tid)
      requires Valid() && q in queues && t in queues[q]
      modifies this
      ensures Valid() && carried == old(carried) + {t}
      ensures D() == old(D()).Remove(t, q).Set(t, old(D()).At(t).(queue := None))
    {
      hide Partition;
      Sized(D(), n, carried);
      Listed(D(), n, carried, q, t);
      RemoveCarries(D(), n, carried, t, q);
      UpdateKeeps(D().Remove(t, q), n, carried + {t}, t, tcb[t].(queue := None));
      queues := queues[q := Minus(queues[q], t)];
      size := size[q := size[q] - 1];
      tcb := tcb[t := tcb[t].(queue := None)];
      carried := carried + {t};
    }

    /** transfer_th and transfer_th_front. */
    method Transfer(t: Tid, from: QId, to: QId, front: bool)
      requires Valid() && from in queues && to in queues && from.sched == to.sched && t in queues[from]
      modifies this
      ensures Valid() && D() == old(D()).Transfer(t, from, to, front) && carried == old(carried)
    {
      hide Partition;
      Sized(D(), n, carried);
      Listed(D(), n, carried, from, t);
      TransferKeeps(D(), n, carried, t, from, to, front);
      queues := queues[from := Minus(queues[from], t)];
      size := size[from := size[from] - 1];
      queues := queues[to := if front then [t] + queues[to] else queues[to] + [t]];
      size := size[to := size[to] + 1];
      tcb := tcb[t := tcb[t].(queue := Some(to), state := StateOf(to.kind))];
    }

    /** transfer_one_th moves the front thread, if any. */
    method TransferOne(from: QId, to: QId, front: bool) returns (th: Option<Tid>)
      requires Valid() && from in queues && to in queues && from.sched == to.sched
      modifies this
      ensures Valid() && carried == old(carried)
      ensures D() == FinishMove(old(D()), Move(None, from, to, front)).0
      ensures th == if old(queues)[from] == [] then None else Some(old(queues)[from][0])
    {
      if queues[from] == [] {
        return None;
      }
      var t := queues[from][0];
      Transfer(t, from, to, front);
      th := Some(t);
    }

    /** The section under the victim's lock: the back thread of a ready queue that keeps at least one is taken out. */
    method PopBack(victim: QId) returns (th: Option<Tid>)
      requires Valid() && victim in queues
      modifies this
      ensures Valid() && D() == StealPop(old(D()), victim).0
      ensures th.Some? <==> |old(queues)[victim]| > 1
      ensures th.None? ==> carried == old(carried) && D() == old(D())
      ensures th.Some? ==>
                && th.value in tcb && carried == old(carried) + {th.value} && th.value !in old(carried)
                && Taken(old(D()), D(), victim, th.value)
    {
      hide Partition;
      Sized(D(), n, carried);
      SizeIs(D(), n, carried, victim);
      var l := queues[victim];
      if size[victim] <= 1 {
        return None;
      }
      var t := l[|l| - 1];
      Listed(D(), n, carried, victim, t);
      RemoveLast(D(), n, carried, victim);
      RemoveCarries(D(), n, carried, t, victim);
      queues := queues[victim := l[..|l| - 1]];
      size := size[victim := size[victim] - 1];
      carried := carried + {t};
      th := Some(t);
    }

    /** The sections under the ownership lock and the thief's lock: the thread changes hands and goes to the front. */
    method Deliver(t: Tid, w: nat)
      requires Valid() && t in carried && t in tcb && Q(w, ReadyQ) in queues
      modifies this
      ensures Valid() && carried == old(carried) - {t} && Given(old(D()), D(), w, t)
      ensures forall v :: D() == Advance(Advance(old(D()), w, StealPopped(v, t)).0, w, StealOwns(t)).0
    {
      hide Partition;
      Sized(D(), n, carried);
      var b := tcb[t].(sched := w, state := READY);
      UpdateKeeps(D(), n, carried, t, b);
      tcb := tcb[t := b];
      PushDelivers(D(), n, carried, t, Q(w, ReadyQ), true);
      queues := queues[Q(w, ReadyQ) := [t] + queues[Q(w, ReadyQ)]];
      size := size[Q(w, ReadyQ) := size[Q(w, ReadyQ)] + 1];
      tcb := tcb[t := tcb[t].(queue := Some(Q(w, ReadyQ)), state := READY)];
      carried := carried - {t};
    }

    /** The hand-over of try_steal_work once a victim is chosen. */
    method Steal(victim: QId, w: nat) returns (th: Option<Tid>)
      requires Valid() && victim.kind == ReadyQ && victim in queues && Q(w, ReadyQ) in queues && w != victim.sched
      modifies this
      ensures Valid() && carried == old(carried)
      ensures th.Some? <==> |old(queues)[victim]| > 1
      ensures th.None? ==> D() == old(D())
      ensures th.Some? ==> Stolen(old(D()), D(), victim, w, th.value)
    {
      hide Partition;
      th := PopBack(victim);
      if th.Some? {
        Deliver(th.value, w);
        assert old(carried) + {th.value} - {th.value} == old(carried);
      }
    }

    /** apth_join up to its compare-and-swap. */
    method Claim(t: Tid, tid: Tid, spurious: bool) returns (ret: JoinRet)
      requires Valid() && t in tcb && tid in tcb
      modifies this`tcb
      ensures Valid() && forall s: System :: s.d == old(D()) ==> D() == NextClaim(s, t, tid, spurious).d
      ensures ret == Claimed <==>
                old(tcb)[tid].joinid.None? && tid != t && old(tcb)[t].joinid != Some(tid) && !spurious
      ensures ret == EDEADLK <==> old(tcb)[tid].joinid != Some(tid) && (t == tid || old(tcb)[t].joinid == Some(tid))
      ensures tcb == if ret == Claimed then Claiming(old(tcb), t, tid) else old(tcb)
    {
      hide Partition;
      if tcb[tid].joinid == Some(tid) {
        return EINVAL;
      }
      if tid == t || tcb[t].joinid == Some(tid) {
        return EDEADLK;
      }
      if tcb[tid].joinid.Some? || spurious {
        return EINVAL;
      }
      UpdateKeeps(D(), n, carried, tid, tcb[tid].(joinid := Some(t)));
      tcb := tcb[tid := tcb[tid].(joinid := Some(t))];
      UpdateKeeps(D(), n, carried, t, tcb[t].(joining := Some(tid)));
      tcb := tcb[t := tcb[t].(joining := Some(tid))];
      ret := Claimed;
    }

    /** apth_detach. */
    method Detach(tid: Tid) returns (ok: bool)
      requires Valid() && tid in tcb
      modifies this`tcb
      ensures Valid() && forall s: System :: s.d == old(D()) ==> D() == NextDetach(s, tid).d
      ensures ok <==> old(tcb)[tid].joinid.None?
      ensures tcb == if ok then old(tcb)[tid := old(tcb)[tid].(joinid := Some(tid))] else old(tcb)
    {
      hide Partition;
      ok := tcb[tid].joinid.None?;
      if ok {
        UpdateKeeps(D(), n, carried, tid, tcb[tid].(joinid := Some(tid)));
        tcb := tcb[tid := tcb[tid].(joinid := Some(tid))];
      }
    }

    /** The rest of apth_join once its target has terminated: the target is taken off the terminated queue of its
        scheduler and freed, unless it is not there. */
    method Reap(tid: Tid) returns (value: Option<int>)
      requires Valid() && tid in tcb && tid !in carried && tcb[tid].sched < n
      modifies this
      ensures Valid() && carried == old(carried)
      ensures value.Some? <==> old(tcb)[tid].queue == Some(Q(old(tcb)[tid].sched, TerminatedQ))
      ensures value.None? ==> D() == old(D())
      ensures value.Some? ==> value.value == old(tcb)[tid].joinArg && tcb == old(tcb) - {tid}
      ensures value.Some? ==> forall q :: q in queues ==> queues[q] == Minus(old(queues)[q], tid)
    {
      hide Partition, Minus;
      var q := Q(tcb[tid].sched, TerminatedQ);
      if tcb[tid].queue != Some(q) {
        return None;
      }
      ThereOnly(D(), n, carried, tid);
      value := Some(tcb[tid].joinArg);
      RemoveFrom(q, tid);
      FreeDrops(D(), n, carried, tid);
      assert old(carried) + {tid} - {tid} == old(carried);
      tcb := tcb - {tid};
      carried := carried - {tid};
      assert tcb == old(tcb) - {tid};
    }

    /** What the scheduler does with a thread that yielded with EXIT: a detached one is freed, the others go to the
        terminated queue. */
    method HandOver(w: nat, t: Tid) returns (freed: bool)
      requires Valid() && w < n && Q(w, RunningQ) in queues && t in queues[Q(w, RunningQ)] && t in tcb
      modifies this
      ensures Valid() && carried == old(carried)
      ensures freed <==> old(tcb)[t].joinid == Some(t)
      ensures freed ==> D() == old(D()).Remove(t, Q(w, RunningQ)).(tcb := old(tcb) - {t})
      ensures !freed ==> D() == old(D()).Transfer(t, Q(w, RunningQ), Q(w, TerminatedQ), false)
    {
      hide Partition, Minus;
      AllKinds(D(), n, carried, w);
      Listed(D(), n, carried, Q(w, RunningQ), t);
      freed := tcb[t].joinid == Some(t);
      if freed {
        RemoveFrom(Q(w, RunningQ), t);
        FreeDrops(D(), n, carried, t);
        assert old(carried) + {t} - {t} == old(carried);
        tcb := tcb - {t};
        carried := carried - {t};
        assert tcb == old(tcb) - {t};
      } else {
        Transfer(t, Q(w, RunningQ), Q(w, TerminatedQ), false);
      }
    }

    /** try_steal_work: the first victim, in the order of the offsets, that has two ready threads to its name. */
    method TrySteal(w: nat, workers: nat, offset: nat) returns (th: Option<Tid>, ghost round: nat)
      requires Valid() && workers == n && w < n
      modifies this
      ensures Valid() && carried == old(carried)
      ensures th.None? ==> D() == old(D())
      ensures th.None? <==>
                workers <= 1 || forall i :: 0 <= i < workers ==> !CanSteal(old(queues), w, Victim(offset, i, workers))
      ensures th.Some? ==>
                && round < workers && CanSteal(old(queues), w, Victim(offset, round, workers))
                && (forall i :: 0 <= i < round ==> !CanSteal(old(queues), w, Victim(offset, i, workers)))
                && Stolen(old(D()), D(), Q(Victim(offset, round, workers), ReadyQ), w, th.value)
    {
      hide Partition, Stolen;
      th, round := None, 0;
      if workers <= 1 {
        return;
      }
      for i := 0 to workers
        invariant D() == old(D()) && carried == old(carried) && th == None
        invariant forall j :: 0 <= j < i ==> !CanSteal(queues, w, Victim(offset, j, workers))
      {
        var v := Victim(offset, i, workers);
        AllThere(D(), n, carried, w);
        AllThere(D(), n, carried, v);
        if v != w {
          th := Steal(Q(v, ReadyQ), w);
          if th.Some? {
            round := i;
            assert CanSteal(old(queues), w, Victim(offset, i, workers));
            return;
          }
        }
      }
    }
  }

  /** The back thread t has left the victim's queue, which is not empty. */
  ghost predicate Taken(before: Data, after: Data, victim: QId, t: Tid) {
    var l := before.List(victim);
    && |l| > 1 && t == l[|l| - 1]
    && after == before.(queues := before.queues[victim := l[..|l| - 1]],
                        size := before.size[victim := before.Size(victim) - 1])
  }

  /** t is at the front of worker w's ready queue, and is w's. */
  ghost predicate Given(before: Data, after: Data, w: nat, t: Tid) {
    var q := Q(w, ReadyQ);
    after == Data(before.queues[q := [t] + before.List(q)], before.size[q := before.Size(q) + 1],
                  before.tcb[t := before.At(t).(queue := Some(q), sched := w, state := READY)])
  }

  ghost predicate Stolen(before: Data, after: Data, victim: QId, w: nat, t: Tid) {
    exists between :: Taken(before, between, victim, t) && Given(between, after, w, t)
  }

  /** tid's joiner is t, and t knows. */
  function Claiming(tcb: map<Tid, Tcb>, t: Tid, tid: Tid): map<Tid, Tcb>
    requires t in tcb && tid in tcb && t != tid
  {
    tcb[tid := tcb[tid].(joinid := Some(t))][t := tcb[t].(joining := Some(tid))]
  }

  datatype JoinRet = Claimed | EINVAL | EDEADLK

  /** A thread that is not carried is in the queue that its TCB names and in no other. */
  lemma ThereOnly(d: Data, n: nat, carried: set<Tid>, t: Tid)
    requires Partition(d, n, carried) && t in d.tcb && t !in carried
    ensures d.tcb[t].queue.Some? && d.tcb[t].queue.value in d.queues && t in d.queues[d.tcb[t].queue.value]
    ensures forall q :: q in d.queues && q != d.tcb[t].queue.value ==> Minus(d.queues[q], t) == d.queues[q]
  {
    assert Placed(d, t);
    forall q | q in d.queues && q != d.tcb[t].queue.value
      ensures Minus(d.queues[q], t) == d.queues[q]
    {
      assert ListOk(d, q, carried);
      MinusNothing(d.queues[q], t);
    }
  }

  lemma AllKinds(d: Data, n: nat, carried: set<Tid>, w: nat)
    requires Partition(d, n, carried) && w < n
    ensures forall k: Kind :: Q(w, k) in d.queues
  {
  }

  /** The worker that is looked at in round i; the sum is taken in unsigned ints. */
  function Victim(offset: nat, i: nat, workers: nat): (v: nat)
    requires workers > 0
    ensures v < workers
  {
    (offset + i) % UINT_RANGE % workers
  }

  predicate CanSteal(queues: map<QId, seq<Tid>>, w: nat, v: nat) {
    v != w && Q(v, ReadyQ) in queues && |queues[Q(v, ReadyQ)]| > 1
  }

  lemma AllThere(d: Data, n: nat, carried: set<Tid>, w: nat)
    requires Partition(d, n, carried) && w < n
    ensures Q(w, ReadyQ) in d.queues
  {
  }

  // Which workers a scan reaches

  ghost predicate Reaches(offset: nat, workers: nat, v: nat)
    requires workers > 0
  {
    exists i :: 0 <= i < workers && Victim(offset, i, workers) == v
  }

  /** Round i when the sum stays within range: residues follow each other. */
  lemma RoundFor(offset: nat, workers: nat, v: nat) returns (i: nat)
    requires workers > 0 && v < workers
    ensures i < workers && (offset + i) % workers == v
  {
    var o := offset % workers;
    var q := offset / workers;
    assert offset == q * workers + o;
    i := if o <= v then v - o else v - o + workers;
    if o <= v {
      ModIs(offset + i, workers, q, v);
    } else {
      assert (q + 1) * workers == q * workers + workers;
      ModIs(offset + i, workers, q + 1, v);
    }
  }

  lemma WrapHarmless(x: nat, workers: nat)
    requires workers > 0 && UINT_RANGE % workers == 0
    ensures x % UINT_RANGE % workers == x % workers
  {
    var k, y := UINT_RANGE / workers, x % UINT_RANGE;
    var a := x / UINT_RANGE;
    assert UINT_RANGE == k * workers && x == a * UINT_RANGE + y;
    var b, r := y / workers, y % workers;
    assert y == b * workers + r;
    assert a * (k * workers) == (a * k) * workers;
    assert x == (a * k + b) * workers + r;
    ModIs(x, workers, a * k + b, r);
  }

  lemma RoundBeforeWrap(offset: nat, workers: nat, i: nat)
    requires 1 < workers < UINT_RANGE && offset + i < UINT_RANGE < offset + workers
    ensures var d := UINT_RANGE % workers - (UINT_RANGE - offset) + i;
            Victim(offset, i, workers) == if d >= 0 then d else d + workers
  {
    var c, q := UINT_RANGE % workers, UINT_RANGE / workers;
    assert UINT_RANGE == q * workers + c;
    var d := c - (UINT_RANGE - offset) + i;
    if d >= 0 {
      ModIs(offset + i, workers, q, d);
    } else {
      assert (q - 1) * workers == q * workers - workers;
      ModIs(offset + i, workers, q - 1, d + workers);
    }
  }

  lemma RoundAfterWrap(offset: nat, workers: nat, i: nat)
    requires 1 < workers < UINT_RANGE && offset < UINT_RANGE <= offset + i && i < workers
    ensures Victim(offset, i, workers) == offset + i - UINT_RANGE
  {
    ModIs(offset + i, UINT_RANGE, 1, offset + i - UINT_RANGE);
    ModIs(offset + i - UINT_RANGE, workers, 0, offset + i - UINT_RANGE);
  }

  /** A scan whose sums wrap misses a worker, unless the number of workers divides 2^32. */
  lemma WrapMisses(offset: nat, workers: nat) returns (v: nat)
    requires 1 < workers < UINT_RANGE && offset < UINT_RANGE < offset + workers && UINT_RANGE % workers != 0
    ensures v < workers && !Reaches(offset, workers, v)
  {
    hide Victim;
    var c, j := UINT_RANGE % workers, UINT_RANGE - offset;
    assert 0 < c < workers;
    v := if c >= j then workers - 1 else workers - 1 + c - j;
    forall i | 0 <= i < workers
      ensures Victim(offset, i, workers) != v
    {
      if i < j {
        RoundBeforeWrap(offset, workers, i);
      } else {
        RoundAfterWrap(offset, workers, i);
      }
    }
  }

  /** The scan looks at every worker exactly when its sums do not wrap around or the number of workers divides 2^32;
      then a steal fails only if nobody else has two ready threads. */
  lemma ReachesAllIff(offset: nat, workers: nat)
    requires 1 < workers < UINT_RANGE && offset < UINT_RANGE
    ensures (forall v :: 0 <= v < workers ==> Reaches(offset, workers, v)) <==>
            offset + workers <= UINT_RANGE || UINT_RANGE % workers == 0
  {
    if offset + workers <= UINT_RANGE || UINT_RANGE % workers == 0 {
      forall v | 0 <= v < workers
        ensures Reaches(offset, workers, v)
      {
        var i := RoundFor(offset, workers, v);
        if UINT_RANGE % workers == 0 {
          WrapHarmless(offset + i, workers);
        }
        assert Victim(offset, i, workers) == v;
      }
    } else {
      var v := WrapMisses(offset, workers);
    }
  }

  lemma Sized(d: Data, n: nat, carried: set<Tid>)
    requires Partition(d, n, carried)
    ensures forall q :: q in d.queues <==> q in d.size
  {
  }

  lemma Listed(d: Data, n: nat, carried: set<Tid>, q: QId, t: Tid)
    requires Partition(d, n, carried) && q in d.queues && t in d.queues[q]
    ensures t in d.tcb && t !in carried
  {
    assert ListOk(d, q, carried);
  }

  lemma SizeIs(d: Data, n: nat, carried: set<Tid>, q: QId)
    requires Partition(d, n, carried) && q in d.queues
    ensures q in d.size && d.size[q] == |d.queues[q]|
  {
    assert ListOk(d, q, carried);
  }

  lemma RemoveLast(d: Data, n: nat, carried: set<Tid>, q: QId)
    requires Partition(d, n, carried) && q in d.queues && d.queues[q] != []
    ensures Minus(d.queues[q], d.queues[q][|d.queues[q]| - 1]) == d.queues[q][..|d.queues[q]| - 1]
  {
    assert ListOk(d, q, carried);
    MinusAt(d.queues[q], |d.queues[q]| - 1);
  }
}
