/** What the locks of the scheduler machine are for: what a worker has locked, no other worker changes. */
module SchedulerLocks {
  import opened Basics
  import opened ThreadQueues
  import opened Scheduler
  import opened SchedulerSafety
  import opened SchedulerSteps
  import opened SchedulerTheorems

  /** A worker at p is between taking and releasing the lock of queue q: both queues of a transfer that has its two
      locks, the one at the lower address of a transfer that has its first, and a victim's until its thread is owned.
      */
  predicate Locked(p: Pc, q: QId, addr: Layout) {
    match p
    case Transferring(m, locks) =>
      || (locks == 2 && (q == m.from || q == m.to))
      || (locks == 1 && q == if addr(m.from) < addr(m.to) then m.from else m.to)
    case StealPopped(victim, _) => q == victim
    case _ => false
  }

  /** A worker at p is between taking and releasing the ownership lock of t: a thief until t is in its queue, a
      joiner until t is off the terminated queue. */
  predicate Owned(p: Pc, t: Tid) {
    match p
    case StealOwns(u) => u == t
    case StealPushed(u) => u == t
    case JoinOwns(_, tid, _) => tid == t
    case _ => false
  }

  lemma AdvanceTouches(d: Data, w: nat, p: Pc, q: QId, addr: Layout)
    requires Advance(d, w, p).0.List(q) != d.List(q) && (p.Transferring? ==> p.locks <= 2)
    ensures QueueLock(q) in Holds(w, p, addr) || Wants(w, p, d, addr) == Some(QueueLock(q))
  {
  }

  /** A step changes only a queue whose lock its worker holds or takes. */
  lemma StepTouches(s: System, addr: Layout, w: nat, a: Action, q: QId)
    requires Enabled(s, w, a, addr) && PcInv(s.d, s.n, w, s.pc[w]) && Next(s, w, a).d.List(q) != s.d.List(q)
    ensures QueueLock(q) in Holds(w, s.pc[w], addr) || Wants(w, s.pc[w], s.d, addr) == Some(QueueLock(q))
    ensures a.Go?
  {
    hide Advance, Free;
    if a.Go? && !s.pc[w].Dropping? && !s.pc[w].Reaping? {
      AdvanceTouches(s.d, w, s.pc[w], q, addr);
    }
  }

  lemma AdvanceMovesOwned(d: Data, w: nat, p: Pc, t: Tid, addr: Layout)
    requires t in d.tcb && Advance(d, w, p).0.At(t).sched != d.At(t).sched
    ensures Wants(w, p, d, addr) == Some(OwnershipLock(t))
  {
  }

  lemma StepMovesOwned(s: System, addr: Layout, w: nat, a: Action, t: Tid)
    requires Enabled(s, w, a, addr) && t in s.d.tcb && t in Next(s, w, a).d.tcb
    requires Next(s, w, a).d.At(t).sched != s.d.At(t).sched
    ensures a.Go? && Wants(w, s.pc[w], s.d, addr) == Some(OwnershipLock(t))
  {
    hide Advance, Free;
    if a.Go? && !s.pc[w].Dropping? && !s.pc[w].Reaping? {
      AdvanceMovesOwned(s.d, w, s.pc[w], t, addr);
    }
  }

  /** No other worker holds or gets a lock that w holds. */
  lemma NotHisToo(s: System, addr: Layout, w: nat, b: nat, a: Action, l: Lock)
    requires Inv(s, addr) && w in s.pc && b != w && Enabled(s, b, a, addr) && l in Holds(w, s.pc[w], addr)
    ensures l !in Holds(b, s.pc[b], addr) && (a.Go? ==> Wants(b, s.pc[b], s.d, addr) != Some(l))
  {
    hide Partition, PcInv, JoinInv, HistoryInv, RunInv, CarriedOnce, QueueInv;
    assert LocksExclusive(s, addr);
  }

  /** While a worker has a queue locked, no other worker changes the queue; while it has a thread's ownership lock,
      no other worker moves the thread to another scheduler. */
  lemma LocksProtect(n: nat, main: Tid, steps: seq<Step>, addr: Layout, w: nat, b: nat, a: Action, q: QId, t: Tid)
    requires n > 0 && Run(Init(n, main), steps, addr)
    requires var s := After(Init(n, main), steps, addr); w in s.pc && b != w && Enabled(s, b, a, addr)
    ensures var s := After(Init(n, main), steps, addr);
            var s' := Next(s, b, a);
            && (Locked(s.pc[w], q, addr) ==> s'.d.List(q) == s.d.List(q))
            && (Owned(s.pc[w], t) && t in s.d.tcb && t in s'.d.tcb ==> s'.d.At(t).sched == s.d.At(t).sched)
  {
    hide Inv, Init, Next;
    var s := After(Init(n, main), steps, addr);
    ReachableHolds(n, main, steps, addr);
    Mine(s, addr, b);
    if Locked(s.pc[w], q, addr) {
      NotHisToo(s, addr, w, b, a, QueueLock(q));
      if Next(s, b, a).d.List(q) != s.d.List(q) {
        StepTouches(s, addr, b, a, q);
        assert false;
      }
    }
    if Owned(s.pc[w], t) && t in s.d.tcb && t in Next(s, b, a).d.tcb {
      NotHisToo(s, addr, w, b, a, OwnershipLock(t));
      if Next(s, b, a).d.At(t).sched != s.d.At(t).sched {
        StepMovesOwned(s, addr, b, a, t);
        assert false;
      }
    }
  }
}
