/** Each step of the scheduler machine, shown to keep its invariant. */
module SchedulerSteps {
  import opened Basics
  import opened ThreadQueues
  import opened Scheduler
  import opened SchedulerSafety

  lemma NobodyTouched(s: System, w: nat)
    ensures Local(s, s.d, w, {}) && SameLives(s.d, s.d)
  {
  }

  /** Facts about the moving worker. */
  lemma Mine(s: System, addr: Layout, w: nat)
    requires Inv(s, addr) && w in s.pc
    ensures 0 <= w < s.n && PcInv(s.d, s.n, w, s.pc[w]) && CarriedOnce(s.pc)
    ensures s.d.List(Q(w, RunningQ)) == if s.pc[w].Cur().Some? then [s.pc[w].Cur().value] else []
    ensures Partition(s.d, s.n, CarriedSet(s.pc))
    ensures forall q :: q in s.d.queues <==> q.sched < s.n
  {
  }

  /** A step that changes nothing but the worker's program point. */
  lemma PcOnly(s: System, addr: Layout, w: nat, p: Pc)
    requires Inv(s, addr) && w in s.pc
    requires p.Carried() == s.pc[w].Carried() && p.Cur() == s.pc[w].Cur() && PcInv(s.d, s.n, w, p)
    requires forall l :: l in Holds(w, p, addr) ==> l in Holds(w, s.pc[w], addr) || Free(s, l, addr)
    ensures Inv(s.(pc := s.pc[w := p]), addr)
  {
    hide *;
    NobodyTouched(s, w);
    Mine(s, addr, w);
    CarryNothingNew(s.pc, w, p);
    assert forall t :: t in CarriedSet(s.pc) ==> t in CarriedSet(s.pc[w := p]);
    Assemble(s, addr, w, s.d, p, {});
    assert s.(d := s.d, pc := s.pc[w := p]) == s.(pc := s.pc[w := p]);
  }

  /** A step that also rewrites the TCB of one thread that the worker is involved with. */
  lemma SetOnly(s: System, addr: Layout, w: nat, t: Tid, b: Tcb, p: Pc)
    requires Inv(s, addr) && w in s.pc && t in Involves(s.pc[w]) && t in s.d.tcb
    requires b.(state := s.d.At(t).state, sched := s.d.At(t).sched) == s.d.At(t)
    requires b.sched == s.d.At(t).sched || t in CarriedSet(s.pc)
    requires p.Carried() == s.pc[w].Carried() && p.Cur() == s.pc[w].Cur()
    requires PcInv(s.d.Set(t, b), s.n, w, p)
    requires t !in CarriedSet(s.pc) ==> b.state != TERMINATED && s.d.At(t).state != TERMINATED
    requires forall l :: l in Holds(w, p, addr) ==> l in Holds(w, s.pc[w], addr) || Free(s, l, addr)
    ensures Inv(s.(d := s.d.Set(t, b), pc := s.pc[w := p]), addr)
  {
    var d' := s.d.Set(t, b);
    UpdateLocal(s, addr, w, t, b);
    CarryNothingNew(s.pc, w, p);
    UpdateKeeps(s.d, s.n, CarriedSet(s.pc), t, b);
    assert t !in CarriedSet(s.pc) ==> QueueInv(s.d, t);
    hide PcInv, Partition, Inv, CarriedOnce, CarriedSet, SameLives, Local, Holds, Free;
    Mine(s, addr, w);
    Assemble(s, addr, w, d', p, {t});
  }

  lemma UpdateLocal(s: System, addr: Layout, w: nat, t: Tid, b: Tcb)
    requires Inv(s, addr) && w in s.pc && t in Involves(s.pc[w]) && t in s.d.tcb
    requires b.(state := s.d.At(t).state, sched := s.d.At(t).sched) == s.d.At(t)
    ensures Local(s, s.d.Set(t, b), w, {t}) && SameLives(s.d, s.d.Set(t, b))
  {
    hide Inv, Involves;
    forall c | c in s.pc && c != w
      ensures Involves(s.pc[c]) !! {t}
    {
      Apart(s, addr, w, c, t);
    }
  }

  lemma InvolvedIn(p: Pc)
    ensures p.Cur().Some? ==> p.Cur().value in Involves(p)
    ensures p.Carried().Some? ==> p.Carried().value in Involves(p)
    ensures p.Target().Some? ==> p.Target().value in Involves(p)
    ensures p.Transferring? && p.m.th.Some? ==> p.m.th.value in Involves(p)
  {
  }

  lemma CarriedIn(pc: map<nat, Pc>, w: nat, t: Tid)
    requires w in pc && pc[w].Carried() == Some(t)
    ensures t in CarriedSet(pc)
  {
  }

  lemma ApartFromAll(s: System, addr: Layout, w: nat, t: Tid)
    requires Inv(s, addr) && w in s.pc && t in Involves(s.pc[w])
    ensures forall b :: b in s.pc && b != w ==> t !in Involves(s.pc[b])
  {
    hide *;
    forall b | b in s.pc && b != w
      ensures t !in Involves(s.pc[b])
    {
      Apart(s, addr, w, b, t);
    }
  }

  // ----- transfers

  lemma LockTaken(s: System, addr: Layout, w: nat, m: Move, locks: nat)
    requires Inv(s, addr) && w in s.pc && s.pc[w] == Transferring(m, locks) && locks < 2
    requires Free(s, QueueLock(if locks == 0 then First(m, addr) else Second(m, addr)), addr)
    ensures Inv(s.(pc := s.pc[w := Transferring(m, locks + 1)]), addr)
  {
    hide Inv, Partition, CarriedOnce, CarriedSet, Free;
    Mine(s, addr, w);
    PcOnly(s, addr, w, Transferring(m, locks + 1));
  }

  /** The thread a transfer moves, when there is one. */
  ghost function Moved(d: Data, m: Move): Tid
    requires m.th.Some? || d.List(m.from) != []
  {
    if m.th.Some? then m.th.value else d.List(m.from)[0]
  }

  lemma MovedFacts(s: System, addr: Layout, w: nat, m: Move)
    requires Inv(s, addr) && w in s.pc && s.pc[w] == Transferring(m, 2) && (m.th.Some? || s.d.List(m.from) != [])
    ensures var t := Moved(s.d, m);
            && t in s.d.List(m.from) && m.from in s.d.queues && m.to in s.d.queues && t in s.d.tcb
            && t !in CarriedSet(s.pc)
            && (forall b :: b in s.pc && b != w ==> t !in Involves(s.pc[b]))
            && (m.to.kind == TerminatedQ <==> s.d.At(t).exited)
  {
    hide Inv, Partition, CarriedOnce, CarriedSet, Involves;
    Mine(s, addr, w);
    var t := Moved(s.d, m);
    QueuedOnce(s, addr, m.from, m.from, t);
    InvolvedIn(s.pc[w]);
    if m.th.Some? {
      ApartFromAll(s, addr, w, t);
    } else {
      forall b | b in s.pc && b != w
        ensures t !in Involves(s.pc[b])
      {
        Dormant(s, addr, m.from, t, b);
      }
    }
  }

  lemma TransferLists(d: Data, t: Tid, from: QId, to: QId, front: bool)
    requires from != to
    ensures var d' := d.Transfer(t, from, to, front);
            && (forall q :: q != from && q != to ==> d'.List(q) == d.List(q))
            && d'.List(from) == Minus(d.List(from), t)
            && d'.List(to) == (if front then [t] + d.List(to) else d.List(to) + [t])
            && d'.tcb == d.tcb[t := d.At(t).(queue := Some(to), state := StateOf(to.kind))]
  {
  }

  lemma TransferLocal(s: System, w: nat, t: Tid, m: Move)
    requires t in s.d.tcb && m.from != m.to && m.from.sched == w && m.to.sched == w
    requires forall b :: b in s.pc && b != w ==> t !in Involves(s.pc[b])
    ensures var d' := s.d.Transfer(t, m.from, m.to, m.front); Local(s, d', w, {t}) && SameLives(s.d, d')
  {
    hide Involves;
    TransferLists(s.d, t, m.from, m.to, m.front);
  }

  lemma SomethingMoved(s: System, addr: Layout, w: nat, m: Move)
    requires Inv(s, addr) && w in s.pc && s.pc[w] == Transferring(m, 2) && (m.th.Some? || s.d.List(m.from) != [])
    ensures var (d', p) := FinishMove(s.d, m); Inv(s.(d := d', pc := s.pc[w := p]), addr)
  {
    hide Inv, Partition, CarriedOnce, CarriedSet, Involves, Local, SameLives, Free, Data.Transfer;
    Mine(s, addr, w);
    var (d', p) := FinishMove(s.d, m);
    var t := Moved(s.d, m);
    MovedFacts(s, addr, w, m);
    TransferLists(s.d, t, m.from, m.to, m.front);
    TransferLocal(s, w, t, m);
    TransferKeeps(s.d, s.n, CarriedSet(s.pc), t, m.from, m.to, m.front);
    CarryNothingNew(s.pc, w, p);
    Assemble(s, addr, w, d', p, {t});
  }

  lemma MoveDone(s: System, addr: Layout, w: nat, m: Move)
    requires Inv(s, addr) && w in s.pc && s.pc[w] == Transferring(m, 2)
    ensures var (d', p) := FinishMove(s.d, m); Inv(s.(d := d', pc := s.pc[w := p]), addr)
  {
    hide Inv, Partition, CarriedOnce, CarriedSet, Involves;
    if m.th.None? && s.d.List(m.from) == [] {
      Mine(s, addr, w);
      PcOnly(s, addr, w, Head);
      assert s.(d := s.d, pc := s.pc[w := Head]) == s.(pc := s.pc[w := Head]);
    } else {
      SomethingMoved(s, addr, w, m);
    }
  }

  // ----- stealing

  lemma RemoveLocal(s: System, w: nat, t: Tid, q: QId)
    requires q.kind != RunningQ && q.kind != WaitingQ
    ensures Local(s, s.d.Remove(t, q), w, {}) && SameLives(s.d, s.d.Remove(t, q))
  {
    hide Involves;
  }

  /** A steal takes the back thread and never empties its victim's queue. */
  lemma StealTried(s: System, addr: Layout, w: nat, v: QId)
    requires Inv(s, addr) && w in s.pc && s.pc[w] == StealWants(v) && Free(s, QueueLock(v), addr)
    ensures var (d', p) := StealPop(s.d, v);
            Inv(s.(d := d', pc := s.pc[w := p]), addr) && (p.StealPopped? ==> d'.List(v) != [])
  {
    hide Inv, Partition, CarriedOnce, CarriedSet, Involves, Local, SameLives, Free;
    var l := s.d.List(v);
    Mine(s, addr, w);
    var (d', p) := StealPop(s.d, v);
    if p == Head {
      PcOnly(s, addr, w, Head);
      assert s.(d := d', pc := s.pc[w := p]) == s.(pc := s.pc[w := Head]);
    } else {
      var t := l[|l| - 1];
      QueuedOnce(s, addr, v, v, t);
      ListFacts(s.d, s.n, CarriedSet(s.pc), v);
      MinusOne(l, t);
      RemoveCarries(s.d, s.n, CarriedSet(s.pc), t, v);
      PickUp(s.pc, w, p, t);
      RemoveLocal(s, w, t, v);
      Assemble(s, addr, w, d', p, {});
    }
  }

  lemma ListFacts(d: Data, n: nat, carried: set<Tid>, q: QId)
    requires Partition(d, n, carried) && q in d.queues
    ensures NoRepeats(d.List(q)) && d.Size(q) == |d.List(q)|
  {
    assert ListOk(d, q, carried);
  }

  lemma StealTaken(s: System, addr: Layout, w: nat, v: QId, t: Tid)
    requires Inv(s, addr) && w in s.pc && s.pc[w] == StealPopped(v, t) && Free(s, OwnershipLock(t), addr)
    ensures Inv(s.(d := s.d.Set(t, s.d.At(t).(sched := w, state := READY)), pc := s.pc[w := StealOwns(t)]), addr)
  {
    hide Inv, Partition, CarriedOnce, CarriedSet, Involves, Free;
    Mine(s, addr, w);
    CarriedIn(s.pc, w, t);
    InvolvedIn(s.pc[w]);
    SetOnly(s, addr, w, t, s.d.At(t).(sched := w, state := READY), StealOwns(t));
  }

  lemma PushLocal(s: System, w: nat, t: Tid, q: QId, front: bool)
    requires t in s.d.tcb && q.kind != RunningQ && q.kind != WaitingQ
    requires forall b :: b in s.pc && b != w ==> t !in Involves(s.pc[b])
    ensures Local(s, s.d.Push(t, q, front), w, {t}) && SameLives(s.d, s.d.Push(t, q, front))
    ensures s.d.Push(t, q, front).List(Q(w, RunningQ)) == s.d.List(Q(w, RunningQ))
  {
    hide Involves;
  }

  /** A carried thread is put into a new or ready queue. */
  lemma Delivered(s: System, addr: Layout, w: nat, t: Tid, q: QId, front: bool, p: Pc)
    requires Inv(s, addr) && w in s.pc && s.pc[w].Carried() == Some(t)
    requires q.sched < s.n && (q.kind == ReadyQ || q.kind == NewQ) && t in s.d.tcb
    requires s.d.At(t).sched == q.sched && !s.d.At(t).exited
    requires p.Carried().None? && p.Cur() == s.pc[w].Cur() && PcInv(s.d.Push(t, q, front), s.n, w, p)
    requires forall l :: l in Holds(w, p, addr) ==> l in Holds(w, s.pc[w], addr) || Free(s, l, addr)
    ensures Inv(s.(d := s.d.Push(t, q, front), pc := s.pc[w := p]), addr)
  {
    hide Inv, Partition, CarriedOnce, CarriedSet, Involves, Local, SameLives, PcInv, Holds, Free;
    var d' := s.d.Push(t, q, front);
    Mine(s, addr, w);
    PutDown(s.pc, w, p, t);
    PushDelivers(s.d, s.n, CarriedSet(s.pc), t, q, front);
    InvolvedIn(s.pc[w]);
    ApartFromAll(s, addr, w, t);
    PushLocal(s, w, t, q, front);
    Assemble(s, addr, w, d', p, {t});
  }

  lemma StealDelivered(s: System, addr: Layout, w: nat, t: Tid)
    requires Inv(s, addr) && w in s.pc && s.pc[w] == StealOwns(t)
    ensures Inv(s.(d := s.d.Push(t, Q(w, ReadyQ), true), pc := s.pc[w := StealPushed(t)]), addr)
  {
    hide Inv, Partition, CarriedOnce, CarriedSet, Free;
    Mine(s, addr, w);
    Delivered(s, addr, w, t, Q(w, ReadyQ), true, StealPushed(t));
  }

  lemma ChildPushed(s: System, addr: Layout, w: nat, t: Tid, child: Tid)
    requires Inv(s, addr) && w in s.pc && s.pc[w] == Creating(t, child)
    ensures Inv(s.(d := s.d.Push(child, Q(s.d.At(child).sched, NewQ), false), pc := s.pc[w := Running(t)]), addr)
  {
    hide Inv, Partition, CarriedOnce, CarriedSet, Free;
    Mine(s, addr, w);
    Delivered(s, addr, w, child, Q(s.d.At(child).sched, NewQ), false, Running(t));
  }

  // ----- retiring

  /** After a yield no PANIC arm of the retire switch is taken. */
  lemma Retired(s: System, addr: Layout, w: nat, t: Tid)
    requires Inv(s, addr) && w in s.pc && s.pc[w] == Back(t)
    ensures var (d', p) := Retire(s.d, w, t); Inv(s.(d := d', pc := s.pc[w := p]), addr) && p != Panic
  {
    hide Inv, Partition, CarriedOnce, CarriedSet, Involves, Free;
    Mine(s, addr, w);
    InvolvedIn(s.pc[w]);
    QueuedOnce(s, addr, Q(w, RunningQ), Q(w, RunningQ), t);
    var b := s.d.At(t);
    var (d', p) := Retire(s.d, w, t);
    if !b.exited && b.state == RUNNING {
      SetOnly(s, addr, w, t, b.(state := READY), p);
    } else {
      PcOnly(s, addr, w, p);
      assert s.(d := d', pc := s.pc[w := p]) == s.(pc := s.pc[w := p]);
    }
  }

  // ----- joining

  /** A winning joiner always finds its target in the terminated queue of the scheduler its TCB names. */
  lemma JoinerFindsTarget(s: System, addr: Layout, w: nat)
    requires Inv(s, addr) && w in s.pc && s.pc[w].JoinOwns?
    ensures var tid := s.pc[w].tid;
            s.d.At(tid).queue == Some(s.pc[w].q) && tid in s.d.List(s.pc[w].q) && s.pc[w].q in s.d.queues
  {
    var tid := s.pc[w].tid;
    Mine(s, addr, w);
    if tid in CarriedSet(s.pc) {
      var b :| b in s.pc && s.pc[b].Carried() == Some(tid);
      Apart(s, addr, w, b, tid);
    }
    assert Placed(s.d, tid) && QueueInv(s.d, tid);
    var r := s.d.At(tid).queue.value;
    assert tid in s.d.List(r);
    QueuedOnce(s, addr, r, r, tid);
  }

  /** The data once a target has been unlinked. */
  function Unlinked(d: Data, tid: Tid, q: QId): Data {
    d.Remove(tid, q).Set(tid, d.At(tid).(queue := None))
  }

  lemma TargetCarried(s: System, addr: Layout, w: nat, t: Tid, tid: Tid, q: QId)
    requires Inv(s, addr) && w in s.pc && s.pc[w] == JoinOwns(t, tid, q)
    ensures var pc' := s.pc[w := Reaping(t, tid)];
            CarriedOnce(pc') && CarriedSet(pc') == CarriedSet(s.pc) + {tid}
            && Partition(Unlinked(s.d, tid, q), s.n, CarriedSet(pc')) && tid in s.d.tcb
  {
    hide Inv, Partition, CarriedOnce, CarriedSet, PcInv;
    Mine(s, addr, w);
    JoinerFindsTarget(s, addr, w);
    QueuedOnce(s, addr, q, q, tid);
    RemoveCarries(s.d, s.n, CarriedSet(s.pc), tid, q);
    PickUp(s.pc, w, Reaping(t, tid), tid);
    UpdateKeeps(s.d.Remove(tid, q), s.n, CarriedSet(s.pc) + {tid}, tid, s.d.At(tid).(queue := None));
  }

  lemma TargetRemoved(s: System, addr: Layout, w: nat, t: Tid, tid: Tid, q: QId)
    requires Inv(s, addr) && w in s.pc && s.pc[w] == JoinOwns(t, tid, q)
    ensures Inv(s.(d := Unlinked(s.d, tid, q), pc := s.pc[w := Reaping(t, tid)]), addr)
  {
    hide Inv, Partition, CarriedOnce, CarriedSet, Involves, Local, SameLives, Free;
    Mine(s, addr, w);
    TargetCarried(s, addr, w, t, tid, q);
    InvolvedIn(s.pc[w]);
    ApartFromAll(s, addr, w, tid);
    UnlinkLocal(s, w, tid, q);
    Assemble(s, addr, w, Unlinked(s.d, tid, q), Reaping(t, tid), {tid});
  }

  lemma UnlinkLocal(s: System, w: nat, t: Tid, q: QId)
    requires t in s.d.tcb && q.kind == TerminatedQ
    requires forall b :: b in s.pc && b != w ==> t !in Involves(s.pc[b])
    ensures Local(s, Unlinked(s.d, t, q), w, {t}) && SameLives(s.d, Unlinked(s.d, t, q))
  {
    hide Involves;
  }

  // ----- what user code and the scheduler begin

  lemma MoveBegun(s: System, addr: Layout, w: nat, m: Move)
    requires Inv(s, addr) && w in s.pc && s.pc[w] == Head && HeadMove(s.d, w, m)
    ensures Inv(Next(s, w, BeginMove(m)), addr)
  {
    hide Inv, Partition, CarriedOnce, CarriedSet, Involves, Local, SameLives, Free;
    Mine(s, addr, w);
    var p := Transferring(m, 0);
    if m.th.None? {
      PcOnly(s, addr, w, p);
    } else {
      var t := m.th.value;
      var b := s.d.At(t).(state := READY);
      QueuedOnce(s, addr, m.from, m.from, t);
      WaitingInvolvesNobody(s, addr, w, t);
      UpdateKeeps(s.d, s.n, CarriedSet(s.pc), t, b);
      CarryNothingNew(s.pc, w, p);
      SetLocal(s, w, t, b);
      Assemble(s, addr, w, s.d.Set(t, b), p, {t});
    }
  }

  lemma WaitingInvolvesNobody(s: System, addr: Layout, w: nat, t: Tid)
    requires Inv(s, addr) && w in s.pc && t in s.d.List(Q(w, WaitingQ))
    ensures forall b :: b in s.pc && b != w ==> t !in Involves(s.pc[b])
  {
    hide Inv, Partition, CarriedOnce, Involves;
    QueuedOnce(s, addr, Q(w, WaitingQ), Q(w, WaitingQ), t);
    forall b | b in s.pc && b != w
      ensures t !in Involves(s.pc[b])
    {
      if t in Involves(s.pc[b]) {
        InvolvedFacts(s, addr, b, t);
        QueuedOnce(s, addr, Q(w, WaitingQ), Q(b, RunningQ), t);
        QueuedOnce(s, addr, Q(w, WaitingQ), Q(b, WaitingQ), t);
      }
    }
  }

  lemma SetLocal(s: System, w: nat, t: Tid, b: Tcb)
    requires t in s.d.tcb && b.(state := s.d.At(t).state) == s.d.At(t)
    requires forall c :: c in s.pc && c != w ==> t !in Involves(s.pc[c])
    ensures Local(s, s.d.Set(t, b), w, {t}) && SameLives(s.d, s.d.Set(t, b))
  {
    hide Involves;
  }

  lemma Yielded(s: System, addr: Layout, w: nat, t: Tid)
    requires Inv(s, addr) && w in s.pc && s.pc[w] == Running(t)
    ensures Inv(Next(s, w, YieldReady), addr) && Inv(Next(s, w, YieldWait), addr)
  {
    hide Inv, Partition, CarriedOnce, CarriedSet, Involves, Free;
    Mine(s, addr, w);
    InvolvedIn(s.pc[w]);
    QueuedOnce(s, addr, Q(w, RunningQ), Q(w, RunningQ), t);
    PcOnly(s, addr, w, Back(t));
    SetOnly(s, addr, w, t, s.d.At(t).(state := WAITING), Back(t));
  }

  lemma JoinTies(s: System, addr: Layout, t: Tid)
    requires Inv(s, addr) && t in s.d.tcb && s.d.At(t).joining.Some?
    ensures var tid := s.d.At(t).joining.value;
            tid != t && tid in s.d.tcb && s.d.At(tid).joinid == Some(t) && !s.d.At(t).exited
    ensures JoinInv(s.d) && HistoryInv(s)
  {
    assert Tied(s.d, t);
  }

  /** A thread is TERMINATED only once it has exited. */
  lemma TerminatedHasExited(s: System, addr: Layout, tid: Tid)
    requires Inv(s, addr) && tid in s.d.tcb && s.d.At(tid).state == TERMINATED
    ensures s.d.At(tid).exited
  {
    if tid in CarriedSet(s.pc) {
      var b :| b in s.pc && s.pc[b].Carried() == Some(tid);
      assert PcInv(s.d, s.n, b, s.pc[b]);
    } else {
      assert Placed(s.d, tid) && QueueInv(s.d, tid);
    }
  }

  lemma Proceeded(s: System, addr: Layout, w: nat, t: Tid)
    requires Inv(s, addr) && Enabled(s, w, Proceed, addr) && s.pc[w] == Running(t)
    ensures Inv(Next(s, w, Proceed), addr)
  {
    hide Inv, Partition, CarriedOnce, CarriedSet, Involves, Free, JoinInv, HistoryInv;
    Mine(s, addr, w);
    JoinTies(s, addr, t);
    TerminatedHasExited(s, addr, s.d.At(t).joining.value);
    PcOnly(s, addr, w, JoinWants(t, s.d.At(t).joining.value));
  }

  lemma StealBegun(s: System, addr: Layout, w: nat, v: QId)
    requires Inv(s, addr) && Enabled(s, w, BeginSteal(v), addr)
    ensures Inv(Next(s, w, BeginSteal(v)), addr)
  {
    hide Inv, Partition, CarriedOnce, CarriedSet, Free;
    PcOnly(s, addr, w, StealWants(v));
  }

  lemma OwnershipRead(s: System, addr: Layout, w: nat, t: Tid, tid: Tid)
    requires Inv(s, addr) && w in s.pc && s.pc[w] == JoinWants(t, tid) && Free(s, OwnershipLock(tid), addr)
    ensures Inv(s.(pc := s.pc[w := JoinOwns(t, tid, Q(s.d.At(tid).sched, TerminatedQ))]), addr)
  {
    hide Inv, Partition, CarriedOnce, CarriedSet, Free;
    Mine(s, addr, w);
    PcOnly(s, addr, w, JoinOwns(t, tid, Q(s.d.At(tid).sched, TerminatedQ)));
  }

  lemma StealEnded(s: System, addr: Layout, w: nat, t: Tid)
    requires Inv(s, addr) && w in s.pc && s.pc[w] == StealPushed(t)
    ensures Inv(s.(pc := s.pc[w := Head]), addr)
  {
    hide Inv, Partition, CarriedOnce, CarriedSet, Free;
    PcOnly(s, addr, w, Head);
  }
}
