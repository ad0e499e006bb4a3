/** The steps by which threads are created, claimed, detached, exit and are freed. */
module SchedulerLives {
  import opened Basics
  import opened ThreadQueues
  import opened Scheduler
  import opened SchedulerSafety
  import opened SchedulerSteps

  lemma Books(s: System, addr: Layout)
    requires Inv(s, addr)
    ensures JoinInv(s.d) && HistoryInv(s)
  {
  }

  // ----- what each of them does to the books

  lemma ExitBooks(s: System, t: Tid, value: int)
    requires JoinInv(s.d) && HistoryInv(s) && t in s.d.tcb && !s.d.At(t).exited && s.d.At(t).joining.None?
    ensures var d' := s.d.Set(t, s.d.At(t).(exited := true, joinArg := value));
            JoinInv(d') && HistoryInv(s.(d := d', exits := s.exits[t := value]))
  {
    var d' := s.d.Set(t, s.d.At(t).(exited := true, joinArg := value));
    var s' := s.(d := d', exits := s.exits[t := value]);
    forall u | u in d'.tcb
      ensures Tied(d', u)
    {
      assert Tied(s.d, u);
    }
    forall u
      ensures Recorded(s', u)
    {
      assert Recorded(s, u);
    }
  }

  lemma CreateBooks(s: System, child: Tid, b: Tcb)
    requires JoinInv(s.d) && HistoryInv(s) && child !in s.d.tcb && child !in s.freed
    requires (b.joinid == None || b.joinid == Some(child)) && b.joining == None && !b.exited
    ensures JoinInv(s.d.Set(child, b)) && HistoryInv(s.(d := s.d.Set(child, b)))
  {
    forall u | u in s.d.Set(child, b).tcb
      ensures Tied(s.d.Set(child, b), u)
    {
      assert u != child ==> Tied(s.d, u);
    }
    forall u
      ensures Recorded(s.(d := s.d.Set(child, b)), u)
    {
      assert Recorded(s, u);
    }
  }

  lemma Appended(l: seq<Tid>, t: Tid)
    requires NoRepeats(l) && t !in l
    ensures NoRepeats(l + [t])
  {
  }

  lemma DetachBooks(s: System, tid: Tid)
    requires JoinInv(s.d) && HistoryInv(s) && tid in s.d.tcb && s.d.At(tid).joinid.None?
    ensures JoinInv(NextDetach(s, tid).d) && HistoryInv(NextDetach(s, tid))
  {
    var s' := NextDetach(s, tid);
    assert Recorded(s, tid);
    Appended(s.written, tid);
    forall u | u in s'.d.tcb
      ensures Tied(s'.d, u)
    {
      assert Tied(s.d, u);
    }
    forall u
      ensures Recorded(s', u)
    {
      assert Recorded(s, u);
    }
  }

  lemma ClaimTies(d: Data, t: Tid, tid: Tid)
    requires JoinInv(d) && tid in d.tcb && t in d.tcb && t != tid
    requires d.tcb[tid].joinid.None? && d.tcb[t].joining.None? && !d.tcb[t].exited && d.tcb[t].joinid != Some(tid)
    ensures JoinInv(d.Set(tid, d.tcb[tid].(joinid := Some(t))).Set(t, d.tcb[t].(joining := Some(tid))))
  {
    var d' := d.Set(tid, d.tcb[tid].(joinid := Some(t))).Set(t, d.tcb[t].(joining := Some(tid)));
    forall u | u in d'.tcb
      ensures Tied(d', u)
    {
      assert Tied(d, u);
    }
  }

  lemma ClaimBooks(s: System, t: Tid, tid: Tid)
    requires JoinInv(s.d) && HistoryInv(s) && tid in s.d.tcb && t in s.d.tcb && t != tid
    requires s.d.At(tid).joinid.None? && s.d.At(t).joining.None? && !s.d.At(t).exited
    requires s.d.At(t).joinid != Some(tid)
    ensures JoinInv(NextClaim(s, t, tid, false).d) && HistoryInv(NextClaim(s, t, tid, false))
  {
    hide JoinInv;
    var s' := NextClaim(s, t, tid, false);
    ClaimTies(s.d, t, tid);
    assert s'.d == s.d.Set(tid, s.d.tcb[tid].(joinid := Some(t))).Set(t, s.d.tcb[t].(joining := Some(tid)));
    assert Recorded(s, tid);
    Appended(s.written, tid);
    forall u
      ensures Recorded(s', u)
    {
      assert Recorded(s, u);
    }
  }

  /** A detached thread that has exited is tied to nobody. */
  lemma DropBooks(s: System, t: Tid)
    requires JoinInv(s.d) && HistoryInv(s) && t in s.d.tcb && s.d.At(t).exited && s.d.At(t).joinid == Some(t)
    ensures var d' := s.d.(tcb := s.d.tcb - {t}); JoinInv(d') && HistoryInv(s.(d := d', freed := s.freed + [t]))
  {
    var d' := s.d.(tcb := s.d.tcb - {t});
    assert Recorded(s, t) && Tied(s.d, t);
    Appended(s.freed, t);
    forall u | u in d'.tcb
      ensures Tied(d', u)
    {
      assert Tied(s.d, u);
    }
    forall u
      ensures Recorded(s.(d := d', freed := s.freed + [t]), u)
    {
      assert Recorded(s, u);
    }
  }

  ghost function Reaped(s: System, t: Tid, tid: Tid): System {
    var d := s.d.Set(t, s.d.At(t).(joining := None));
    s.(d := d.(tcb := d.tcb - {tid}), joins := s.joins[tid := s.d.At(tid).joinArg], freed := s.freed + [tid])
  }

  lemma ReapBooks(s: System, t: Tid, tid: Tid)
    requires JoinInv(s.d) && HistoryInv(s) && t in s.d.tcb && tid in s.d.tcb && t != tid
    requires s.d.At(t).joining == Some(tid) && s.d.At(tid).exited
    ensures JoinInv(Reaped(s, t, tid).d) && HistoryInv(Reaped(s, t, tid))
  {
    var s' := Reaped(s, t, tid);
    assert Recorded(s, tid) && Tied(s.d, tid) && Tied(s.d, t);
    Appended(s.freed, tid);
    forall u | u in s'.d.tcb
      ensures Tied(s'.d, u)
    {
      assert Tied(s.d, u);
    }
    forall u
      ensures Recorded(s', u)
    {
      assert Recorded(s, u);
    }
  }

  // ----- the steps

  lemma Exited(s: System, addr: Layout, w: nat, t: Tid, value: int)
    requires Inv(s, addr) && w in s.pc && s.pc[w] == Running(t) && s.d.At(t).joining.None?
    ensures Inv(Next(s, w, Exit(value)), addr)
  {
    hide Inv, Partition, CarriedOnce, CarriedSet, Involves, Local, Free, JoinInv, HistoryInv;
    Mine(s, addr, w);
    Books(s, addr);
    QueuedOnce(s, addr, Q(w, RunningQ), Q(w, RunningQ), t);
    var b := s.d.At(t).(exited := true, joinArg := value);
    var s' := Next(s, w, Exit(value));
    ExitBooks(s, t, value);
    HistoryIgnoresPc(s.(d := s.d.Set(t, b), exits := s.exits[t := value]), s'.pc);
    UpdateKeeps(s.d, s.n, CarriedSet(s.pc), t, b);
    CarryNothingNew(s.pc, w, Back(t));
    InvolvedIn(s.pc[w]);
    ApartFromAll(s, addr, w, t);
    AnyLocal(s, w, t, b);
    AssembleAll(s, addr, w, s', Back(t), {t});
  }

  lemma AnyLocal(s: System, w: nat, t: Tid, b: Tcb)
    requires forall c :: c in s.pc && c != w ==> t !in Involves(s.pc[c])
    ensures Local(s, s.d.Set(t, b), w, {t})
  {
    hide Involves;
  }

  lemma UnknownInvolvesNobody(s: System, addr: Layout, t: Tid)
    requires Inv(s, addr) && t !in s.d.tcb
    ensures forall b :: b in s.pc ==> t !in Involves(s.pc[b])
    ensures t !in CarriedSet(s.pc)
  {
    forall b | b in s.pc
      ensures t !in Involves(s.pc[b])
    {
      if t in Involves(s.pc[b]) {
        InvolvedFacts(s, addr, b, t);
      }
    }
  }

  lemma Created(s: System, addr: Layout, w: nat, t: Tid, child: Tid, sched: nat, detached: bool)
    requires Inv(s, addr) && w in s.pc && s.pc[w] == Running(t)
    requires child !in s.d.tcb && child !in s.freed && sched < s.n
    ensures Inv(Next(s, w, Create(child, sched, detached)), addr)
  {
    hide Inv, Partition, CarriedOnce, CarriedSet, Involves, Local, Free, JoinInv, HistoryInv;
    Mine(s, addr, w);
    Books(s, addr);
    var b := Tcb(None, sched, NEW, if detached then Some(child) else None, None, false, 0);
    var s' := Next(s, w, Create(child, sched, detached));
    var p := Creating(t, child);
    CreateBooks(s, child, b);
    HistoryIgnoresPc(s.(d := s.d.Set(child, b)), s'.pc);
    UnknownInvolvesNobody(s, addr, child);
    AnyLocal(s, w, child, b);
    PickUp(s.pc, w, p, child);
    AllocCarries(s.d, s.n, CarriedSet(s.pc), child, b);
    AssembleAll(s, addr, w, s', p, {child});
  }

  lemma JoinidLocal(s: System, w: nat, tid: Tid, t: Tid, b: Tcb)
    requires t in s.d.tcb && tid in s.d.tcb && s.d.At(tid).joinid.None?
    requires forall c :: c in s.pc && c != w ==> t !in Involves(s.pc[c])
    ensures Local(s, s.d.Set(tid, s.d.At(tid).(joinid := Some(t))).Set(t, b), w, {t})
    ensures Local(s, s.d.Set(tid, s.d.At(tid).(joinid := Some(tid))), w, {})
  {
    hide Involves;
  }

  lemma Detached(s: System, addr: Layout, w: nat, t: Tid, tid: Tid)
    requires Inv(s, addr) && w in s.pc && s.pc[w] == Running(t) && tid in s.d.tcb
    ensures Inv(NextDetach(s, tid), addr)
  {
    hide Inv, Partition, CarriedOnce, CarriedSet, Involves, Local, Free, JoinInv, HistoryInv;
    if s.d.At(tid).joinid.None? {
      Mine(s, addr, w);
      Books(s, addr);
      DetachBooks(s, tid);
      var s' := NextDetach(s, tid);
      assert s'.pc == s.pc[w := s.pc[w]];
      UpdateKeeps(s.d, s.n, CarriedSet(s.pc), tid, s.d.At(tid).(joinid := Some(tid)));
      InvolvedIn(s.pc[w]);
      ApartFromAll(s, addr, w, t);
      JoinidLocal(s, w, tid, t, s.d.At(t));
      AssembleAll(s, addr, w, s', s.pc[w], {});
    }
  }

  lemma ClaimMade(s: System, addr: Layout, w: nat, t: Tid, tid: Tid, spurious: bool)
    requires Inv(s, addr) && w in s.pc && s.pc[w] == Running(t) && tid in s.d.tcb && s.d.At(t).joining.None?
    ensures Inv(NextClaim(s, t, tid, spurious), addr)
  {
    hide Inv, Partition, CarriedOnce, CarriedSet, Involves, Local, Free, JoinInv, HistoryInv;
    var s' := NextClaim(s, t, tid, spurious);
    if s' != s {
      Mine(s, addr, w);
      Books(s, addr);
      ClaimBooks(s, t, tid);
      QueuedOnce(s, addr, Q(w, RunningQ), Q(w, RunningQ), t);
      assert s'.pc == s.pc[w := s.pc[w]];
      var b1, b2 := s.d.At(tid).(joinid := Some(t)), s.d.At(t).(joining := Some(tid));
      UpdateKeeps(s.d, s.n, CarriedSet(s.pc), tid, b1);
      UpdateKeeps(s.d.Set(tid, b1), s.n, CarriedSet(s.pc), t, b2);
      InvolvedIn(s.pc[w]);
      ApartFromAll(s, addr, w, t);
      JoinidLocal(s, w, tid, t, b2);
      AssembleAll(s, addr, w, s', s.pc[w], {t});
    }
  }

  lemma DropLocal(s: System, w: nat, t: Tid)
    requires forall c :: c in s.pc && c != w ==> t !in Involves(s.pc[c])
    ensures var d := s.d.Remove(t, Q(w, RunningQ)); Local(s, d.(tcb := d.tcb - {t}), w, {t})
  {
    hide Involves;
  }

  lemma Dropped(s: System, addr: Layout, w: nat, t: Tid)
    requires Inv(s, addr) && w in s.pc && s.pc[w] == Dropping(t)
    ensures Inv(NextGo(s, w), addr)
  {
    hide Inv, Partition, CarriedOnce, CarriedSet, Involves, Local, Free, JoinInv, HistoryInv;
    Mine(s, addr, w);
    Books(s, addr);
    QueuedOnce(s, addr, Q(w, RunningQ), Q(w, RunningQ), t);
    var s' := NextGo(s, w);
    DropBooks(s, t);
    var d := s.d.Remove(t, Q(w, RunningQ));
    BooksIgnoreQueues(s.(d := s.d.(tcb := s.d.tcb - {t}), freed := s.freed + [t]), s');
    RemoveCarries(s.d, s.n, CarriedSet(s.pc), t, Q(w, RunningQ));
    FreeDrops(d, s.n, CarriedSet(s.pc) + {t}, t);
    assert CarriedSet(s.pc) + {t} - {t} == CarriedSet(s.pc);
    CarryNothingNew(s.pc, w, Head);
    InvolvedIn(s.pc[w]);
    ApartFromAll(s, addr, w, t);
    DropLocal(s, w, t);
    AssembleAll(s, addr, w, s', Head, {t});
  }

  lemma BooksIgnoreQueues(s: System, s': System)
    requires JoinInv(s.d) && HistoryInv(s) && s'.d.tcb == s.d.tcb
    requires s' == s.(d := s'.d, pc := s'.pc)
    ensures JoinInv(s'.d) && HistoryInv(s')
  {
    forall t | t in s'.d.tcb
      ensures Tied(s'.d, t)
    {
      assert Tied(s.d, t);
    }
    forall t
      ensures Recorded(s', t)
    {
      assert Recorded(s, t);
    }
  }

  lemma ReapLocal(s: System, w: nat, t: Tid, tid: Tid)
    requires forall c :: c in s.pc && c != w ==> t !in Involves(s.pc[c]) && tid !in Involves(s.pc[c])
    ensures Local(s, Reaped(s, t, tid).d, w, {t, tid})
  {
    hide Involves;
  }

  lemma TargetFreed(s: System, addr: Layout, w: nat, t: Tid, tid: Tid)
    requires Inv(s, addr) && w in s.pc && s.pc[w] == Reaping(t, tid)
    ensures Inv(NextGo(s, w), addr)
  {
    hide Inv, Partition, CarriedOnce, CarriedSet, Involves, Local, Free, JoinInv, HistoryInv;
    Mine(s, addr, w);
    Books(s, addr);
    QueuedOnce(s, addr, Q(w, RunningQ), Q(w, RunningQ), t);
    var s' := NextGo(s, w);
    assert s' == Reaped(s, t, tid).(pc := s'.pc);
    ReapBooks(s, t, tid);
    BooksIgnoreQueues(Reaped(s, t, tid), s');
    var b := s.d.At(t).(joining := None);
    UpdateKeeps(s.d, s.n, CarriedSet(s.pc), t, b);
    CarriedIn(s.pc, w, tid);
    FreeDrops(s.d.Set(t, b), s.n, CarriedSet(s.pc), tid);
    PutDown(s.pc, w, Running(t), tid);
    InvolvedIn(s.pc[w]);
    ApartFromAll(s, addr, w, t);
    ApartFromAll(s, addr, w, tid);
    ReapLocal(s, w, t, tid);
    AssembleAll(s, addr, w, s', Running(t), {t, tid});
  }
}
