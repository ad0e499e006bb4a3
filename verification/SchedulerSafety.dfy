/** What every step of the scheduler machine keeps: the partition of threads, the dispatch discipline, mutual exclusion
    of locks, and the books of exit, join, detach and free. */
module SchedulerSafety {
  import opened Basics
  import opened ThreadQueues
  import opened Scheduler

  ghost function CarriedSet(pc: map<nat, Pc>): set<Tid> {
    set w | w in pc && pc[w].Carried().Some? :: pc[w].Carried().value
  }

  /** No thread is carried by two workers. */
  ghost predicate CarriedOnce(pc: map<nat, Pc>) {
    forall a, b :: a in pc && b in pc && a != b && pc[a].Carried().Some? ==> pc[a].Carried() != pc[b].Carried()
  }

  /** What a worker's program point says about the threads it deals with. */
  ghost predicate PcInv(d: Data, n: nat, w: nat, p: Pc) {
    match p
    case Head => true
    case Transferring(m, locks) =>
      && locks <= 2 && m.from.sched == w && m.to.sched == w && m.from.kind != m.to.kind
      && MoveInv(d, m)
    case StealWants(victim) => victim.kind == ReadyQ && victim.sched < n && victim.sched != w
    case StealPopped(victim, t) =>
      && victim.kind == ReadyQ && victim.sched < n && victim.sched != w
      && t in d.tcb && !d.At(t).exited && d.At(t).state != TERMINATED
    case StealOwns(t) => t in d.tcb && !d.At(t).exited && d.At(t).state == READY && d.At(t).sched == w
    case StealPushed(t) => true
    case Running(t) => OnCpu(d, t)
    case Back(t) =>
      && t in d.tcb
      && (d.At(t).state == RUNNING || d.At(t).state == WAITING)
      && (d.At(t).exited ==> d.At(t).joining.None?)
    case Dropping(t) =>
      t in d.tcb && d.At(t).exited && d.At(t).joining.None? && d.At(t).joinid == Some(t) && d.At(t).state != TERMINATED
    case Creating(t, child) =>
      && OnCpu(d, t) && child in d.tcb && child != t
      && !d.At(child).exited && d.At(child).state == NEW && d.At(child).sched < n
    case JoinWants(t, tid) => OnCpu(d, t) && Claimed(d, t, tid)
    case JoinOwns(t, tid, q) => OnCpu(d, t) && Claimed(d, t, tid) && q == Q(d.At(tid).sched, TerminatedQ)
    case Reaping(t, tid) => OnCpu(d, t) && Claimed(d, t, tid)
    case Panic => false
  }

  ghost predicate OnCpu(d: Data, t: Tid) {
    t in d.tcb && !d.At(t).exited && d.At(t).state == RUNNING
  }

  ghost predicate Claimed(d: Data, t: Tid, tid: Tid) {
    t != tid && tid in d.tcb && d.At(t).joining == Some(tid) && d.At(tid).state == TERMINATED && d.At(tid).exited
  }

  ghost predicate MoveInv(d: Data, m: Move) {
    match m.th
    case None =>
      || (m.from.kind == NewQ && m.to.kind == ReadyQ)
      || (m.from.kind == WakedQ && m.to.kind == ReadyQ)
      || (m.from.kind == ReadyQ && m.to.kind == RunningQ)
    case Some(t) =>
      && t in d.tcb && t in d.List(m.from) && d.At(t).state != TERMINATED
      && (m.from.kind == WaitingQ || m.from.kind == RunningQ)
      && (m.from.kind == WaitingQ ==> m.to.kind == ReadyQ && !d.At(t).exited)
      && (m.from.kind == RunningQ ==>
            || (m.to.kind == ReadyQ && !d.At(t).exited)
            || (m.to.kind == WaitingQ && !d.At(t).exited)
            || (m.to.kind == TerminatedQ && d.At(t).exited && d.At(t).joining.None?))
  }

  /** What the queue that a thread is in says about it. */
  ghost predicate QueueInv(d: Data, t: Tid)
    requires t in d.tcb
  {
    var b := d.tcb[t];
    b.queue.Some? ==>
      && (b.queue.value.kind == TerminatedQ ==> b.exited && b.state == TERMINATED)
      && (b.queue.value.kind != TerminatedQ ==> b.state != TERMINATED)
      && (b.queue.value.kind != TerminatedQ && b.queue.value.kind != RunningQ ==> !b.exited)
  }

  /** A claim ties two live threads to each other. */
  ghost predicate Tied(d: Data, t: Tid)
    requires t in d.tcb
  {
    var b := d.tcb[t];
    && (b.joining.Some? ==>
          !b.exited && b.joining != Some(t) && b.joining.value in d.tcb && d.tcb[b.joining.value].joinid == Some(t))
    && (b.joinid.Some? && b.joinid != Some(t) ==>
          b.joinid.value in d.tcb && d.tcb[b.joinid.value].joining == Some(t))
  }

  ghost predicate JoinInv(d: Data) {
    forall t :: t in d.tcb ==> Tied(d, t)
  }

  /** What the history says about one thread. */
  ghost predicate Recorded(s: System, t: Tid) {
    && (t in s.freed ==> t !in s.d.tcb)
    && (t in s.written ==> t in s.d.tcb || t in s.freed)
    && (t in s.written <==> t in s.claims || t in s.detaches)
    && (t in s.claims ==> t !in s.detaches)
    && (t in s.exits ==> t in s.d.tcb || t in s.freed)
    && (t in s.joins ==> t in s.exits && s.joins[t] == s.exits[t] && t in s.freed && t in s.claims)
    && (t in s.d.tcb ==>
          && (s.d.tcb[t].joinid.None? ==> t !in s.written)
          && (s.d.tcb[t].exited <==> t in s.exits)
          && (s.d.tcb[t].exited ==> s.exits[t] == s.d.tcb[t].joinArg)
          && (t in s.claims <==> s.d.tcb[t].joinid.Some? && s.d.tcb[t].joinid != Some(t)))
  }

  ghost predicate HistoryInv(s: System) {
    NoRepeats(s.freed) && NoRepeats(s.written) && forall t :: Recorded(s, t)
  }

  ghost predicate LocksExclusive(s: System, addr: Layout) {
    forall a, b :: a in s.pc && b in s.pc && a != b ==> Holds(a, s.pc[a], addr) !! Holds(b, s.pc[b], addr)
  }

  /** A running queue holds exactly the worker's current thread. */
  ghost predicate RunInv(s: System) {
    forall w :: w in s.pc ==>
      s.d.List(Q(w, RunningQ)) == if s.pc[w].Cur().Some? then [s.pc[w].Cur().value] else []
  }

  ghost predicate Inv(s: System, addr: Layout) {
    && (forall w :: w in s.pc <==> 0 <= w < s.n)
    && CarriedOnce(s.pc)
    && Partition(s.d, s.n, CarriedSet(s.pc))
    && RunInv(s)
    && (forall w :: w in s.pc ==> PcInv(s.d, s.n, w, s.pc[w]))
    && (forall t :: t in s.d.tcb && t !in CarriedSet(s.pc) ==> QueueInv(s.d, t))
    && JoinInv(s.d)
    && HistoryInv(s)
    && LocksExclusive(s, addr)
  }

  // ----- locks

  /** A step holds at most what its worker held before and the lock it was granted. */
  lemma LocksStayExclusive(s: System, w: nat, p: Pc, addr: Layout)
    requires w in s.pc && LocksExclusive(s, addr)
    requires forall l :: l in Holds(w, p, addr) ==> l in Holds(w, s.pc[w], addr) || Free(s, l, addr)
    ensures LocksExclusive(s.(pc := s.pc[w := p]), addr)
  {
  }

  // ----- carried threads

  lemma CarryNothingNew(pc: map<nat, Pc>, w: nat, p: Pc)
    requires w in pc && CarriedOnce(pc) && p.Carried() == pc[w].Carried()
    ensures CarriedOnce(pc[w := p]) && CarriedSet(pc[w := p]) == CarriedSet(pc)
  {
    var pc' := pc[w := p];
    forall t
      ensures t in CarriedSet(pc') <==> t in CarriedSet(pc)
    {
      if t in CarriedSet(pc) {
        var b :| b in pc && pc[b].Carried() == Some(t);
        assert pc'[b].Carried() == Some(t);
      }
      if t in CarriedSet(pc') {
        var b :| b in pc' && pc'[b].Carried() == Some(t);
        assert pc[b].Carried() == Some(t);
      }
    }
  }

  lemma PickUp(pc: map<nat, Pc>, w: nat, p: Pc, t: Tid)
    requires w in pc && CarriedOnce(pc) && pc[w].Carried().None? && p.Carried() == Some(t) && t !in CarriedSet(pc)
    ensures CarriedOnce(pc[w := p]) && CarriedSet(pc[w := p]) == CarriedSet(pc) + {t}
  {
    var pc' := pc[w := p];
    forall u
      ensures u in CarriedSet(pc') <==> u in CarriedSet(pc) + {t}
    {
      if u in CarriedSet(pc) {
        var b :| b in pc && pc[b].Carried() == Some(u);
        assert pc'[b].Carried() == Some(u);
      }
      assert pc'[w].Carried() == Some(t);
    }
  }

  lemma PutDown(pc: map<nat, Pc>, w: nat, p: Pc, t: Tid)
    requires w in pc && CarriedOnce(pc) && pc[w].Carried() == Some(t) && p.Carried().None?
    ensures CarriedOnce(pc[w := p]) && CarriedSet(pc[w := p]) == CarriedSet(pc) - {t} && t in CarriedSet(pc)
  {
    var pc' := pc[w := p];
    assert pc[w].Carried() == Some(t);
    forall u
      ensures u in CarriedSet(pc') <==> u in CarriedSet(pc) - {t}
    {
      if u in CarriedSet(pc) && u != t {
        var b :| b in pc && pc[b].Carried() == Some(u);
        assert pc'[b].Carried() == Some(u);
      }
      if u in CarriedSet(pc') {
        var b :| b in pc' && pc'[b].Carried() == Some(u);
        assert b != w && pc[b].Carried() == Some(u);
      }
    }
  }

  // ----- what other workers do not notice

  /** The threads whose TCB a worker's program point speaks about. */
  ghost function Involves(p: Pc): set<Tid> {
    (if p.Cur().Some? then {p.Cur().value} else {})
    + (if p.Carried().Some? then {p.Carried().value} else {})
    + (if p.Target().Some? then {p.Target().value} else {})
    + (if p.Transferring? && p.m.th.Some? then {p.m.th.value} else {})
  }

  /** Where an involved thread is. */
  lemma InvolvedFacts(s: System, addr: Layout, b: nat, t: Tid)
    requires Inv(s, addr) && b in s.pc && t in Involves(s.pc[b])
    ensures t in s.d.tcb
    ensures || (t in s.d.List(Q(b, RunningQ)) && s.d.At(t).state != TERMINATED)
            || (s.pc[b].Carried() == Some(t) && s.d.At(t).state != TERMINATED)
            || (t in s.d.List(Q(b, WaitingQ)) && s.d.At(t).state != TERMINATED)
            || (s.pc[b].Target() == Some(t) && s.d.At(t).state == TERMINATED && s.pc[b].Cur().Some?
                && s.d.At(t).joinid == s.pc[b].Cur())
  {
    hide Partition, QueueInv, HistoryInv, LocksExclusive, CarriedOnce;
    var p := s.pc[b];
    assert PcInv(s.d, s.n, b, p);
    assert p.Cur().Some? && p.Cur().value in s.d.tcb ==> Tied(s.d, p.Cur().value);
    assert s.d.List(Q(b, RunningQ)) == if p.Cur().Some? then [p.Cur().value] else [];
  }

  lemma QueuedOnce(s: System, addr: Layout, q: QId, r: QId, t: Tid)
    requires Inv(s, addr) && t in s.d.List(q)
    ensures q in s.d.queues && t in s.d.tcb && t !in CarriedSet(s.pc) && s.d.At(t).queue == Some(q)
    ensures s.d.At(t).sched == q.sched && QueueInv(s.d, t)
    ensures t in s.d.List(r) ==> q == r
  {
    hide HistoryInv, LocksExclusive, CarriedOnce, JoinInv, RunInv, PcInv;
    assert ListOk(s.d, q, CarriedSet(s.pc));
    if t in s.d.List(r) {
      assert ListOk(s.d, r, CarriedSet(s.pc));
    }
  }

  /** Two workers are never involved with the same thread. */
  lemma Apart(s: System, addr: Layout, w: nat, b: nat, t: Tid)
    requires Inv(s, addr) && w in s.pc && b in s.pc && w != b && t in Involves(s.pc[w])
    ensures t !in Involves(s.pc[b])
  {
    if t in Involves(s.pc[b]) {
      InvolvedFacts(s, addr, w, t);
      InvolvedFacts(s, addr, b, t);
      if s.d.At(t).state == TERMINATED {
        var c := s.pc[w].Cur().value;
        assert c in s.d.List(Q(w, RunningQ)) && c in s.d.List(Q(b, RunningQ));
        QueuedOnce(s, addr, Q(w, RunningQ), Q(b, RunningQ), c);
      } else if s.pc[w].Carried() == Some(t) {
        CarriedNotQueued(s, addr, w, b, t);
      } else if s.pc[b].Carried() == Some(t) {
        CarriedNotQueued(s, addr, b, w, t);
      } else {
        var q := Q(w, if t in s.d.List(Q(w, RunningQ)) then RunningQ else WaitingQ);
        var r := Q(b, if t in s.d.List(Q(b, RunningQ)) then RunningQ else WaitingQ);
        QueuedOnce(s, addr, q, r, t);
      }
    }
  }

  lemma CarriedNotQueued(s: System, addr: Layout, w: nat, b: nat, t: Tid)
    requires Inv(s, addr) && w in s.pc && b in s.pc && w != b && s.pc[w].Carried() == Some(t)
    ensures s.pc[b].Carried() != Some(t)
    ensures forall q :: t !in s.d.List(q)
  {
    assert t in CarriedSet(s.pc);
    forall q
      ensures t !in s.d.List(q)
    {
      if t in s.d.List(q) {
        QueuedOnce(s, addr, q, q, t);
      }
    }
  }

  /** A thread in a new, ready or waked queue involves nobody. */
  lemma Dormant(s: System, addr: Layout, q: QId, t: Tid, b: nat)
    requires Inv(s, addr) && t in s.d.List(q) && b in s.pc
    requires q.kind == NewQ || q.kind == ReadyQ || q.kind == WakedQ
    ensures t !in Involves(s.pc[b])
  {
    if t in Involves(s.pc[b]) {
      InvolvedFacts(s, addr, b, t);
      assert s.pc[b].Carried() == Some(t) ==> t in CarriedSet(s.pc);
      QueuedOnce(s, addr, q, q, t);
      if t in s.d.List(Q(b, RunningQ)) {
        QueuedOnce(s, addr, q, Q(b, RunningQ), t);
      } else if t in s.d.List(Q(b, WaitingQ)) {
        QueuedOnce(s, addr, q, Q(b, WaitingQ), t);
      }
    }
  }

  /** A TCB as another worker may find it changed: a joinid may have been written. */
  ghost predicate SameButJoinid(b: Tcb, b': Tcb) {
    b'.(joinid := b.joinid) == b && (b.joinid.Some? ==> b'.joinid == b.joinid)
  }

  lemma PcFrame(d: Data, d': Data, n: nat, w: nat, p: Pc)
    requires PcInv(d, n, w, p)
    requires forall t :: t in Involves(p) && t in d.tcb ==> t in d'.tcb && SameButJoinid(d.tcb[t], d'.tcb[t])
    requires d'.List(Q(w, RunningQ)) == d.List(Q(w, RunningQ))
    requires d'.List(Q(w, WaitingQ)) == d.List(Q(w, WaitingQ))
    ensures PcInv(d', n, w, p)
  {
    assert p.Cur().Some? ==> p.Cur().value in Involves(p);
    assert p.Carried().Some? ==> p.Carried().value in Involves(p);
    assert p.Target().Some? ==> p.Target().value in Involves(p);
    assert p.Transferring? && p.m.th.Some? ==> p.m.th.value in Involves(p);
  }

  // ----- steps that leave the books of exit and join alone

  /** d' differs from d in no field that exit, join and detach rest on. */
  ghost predicate SameLives(d: Data, d': Data) {
    && d'.tcb.Keys == d.tcb.Keys
    && forall t :: t in d.tcb ==>
         && d'.tcb[t].joinid == d.tcb[t].joinid && d'.tcb[t].joining == d.tcb[t].joining
         && d'.tcb[t].exited == d.tcb[t].exited && d'.tcb[t].joinArg == d.tcb[t].joinArg
  }

  lemma LivesKeepBooks(s: System, d': Data)
    requires JoinInv(s.d) && HistoryInv(s) && SameLives(s.d, d')
    ensures JoinInv(d') && HistoryInv(s.(d := d'))
  {
    forall t | t in d'.tcb
      ensures Tied(d', t)
    {
      assert Tied(s.d, t);
    }
    forall t
      ensures Recorded(s.(d := d'), t)
    {
      assert Recorded(s, t);
    }
  }

  /** But for a written joinid only `touched` changed, and no other worker is involved with it. */
  ghost predicate Local(s: System, d': Data, w: nat, touched: set<Tid>) {
    && (forall t :: t in s.d.tcb && t !in touched ==> t in d'.tcb && SameButJoinid(s.d.tcb[t], d'.tcb[t]))
    && (forall b :: b in s.pc && b != w ==>
          && Involves(s.pc[b]) !! touched
          && d'.List(Q(b, RunningQ)) == s.d.List(Q(b, RunningQ))
          && d'.List(Q(b, WaitingQ)) == s.d.List(Q(b, WaitingQ)))
  }

  lemma OthersUndisturbed(s: System, addr: Layout, d': Data, w: nat, touched: set<Tid>)
    requires Inv(s, addr) && Local(s, d', w, touched)
    ensures forall b :: b in s.pc && b != w ==> PcInv(d', s.n, b, s.pc[b])
  {
    hide Partition, QueueInv, HistoryInv, LocksExclusive, CarriedOnce, JoinInv, RunInv, PcInv;
    forall b | b in s.pc && b != w
      ensures PcInv(d', s.n, b, s.pc[b])
    {
      PcFrame(s.d, d', s.n, b, s.pc[b]);
    }
  }

  /** The new state is good if what the moving worker did is. */
  lemma AssembleAll(s: System, addr: Layout, w: nat, s': System, p: Pc, touched: set<Tid>)
    requires Inv(s, addr) && w in s.pc && Local(s, s'.d, w, touched)
    requires s'.n == s.n && s'.pc == s.pc[w := p]
    requires CarriedOnce(s'.pc) && Partition(s'.d, s.n, CarriedSet(s'.pc))
    requires s'.d.List(Q(w, RunningQ)) == if p.Cur().Some? then [p.Cur().value] else []
    requires PcInv(s'.d, s.n, w, p)
    requires forall t :: t in s'.d.tcb && t !in CarriedSet(s'.pc) ==>
               t in touched || t in CarriedSet(s.pc) || t !in s.d.tcb ==> QueueInv(s'.d, t)
    requires forall l :: l in Holds(w, p, addr) ==> l in Holds(w, s.pc[w], addr) || Free(s, l, addr)
    requires JoinInv(s'.d) && HistoryInv(s')
    ensures Inv(s', addr)
  {
    hide Partition, HistoryInv, LocksExclusive, CarriedOnce, JoinInv, PcInv, CarriedSet, QueueInv, RunInv, Free, Holds,
         Local;
    OthersUndisturbed(s, addr, s'.d, w, touched);
    LocksStayExclusive(s, w, p, addr);
    LocksIgnoreRest(s.(pc := s.pc[w := p]), s', addr);
    RunQueuesKept(s, s', w, p, touched);
    QueuesKept(s, s'.d, w, p, touched);
  }

  lemma Assemble(s: System, addr: Layout, w: nat, d': Data, p: Pc, touched: set<Tid>)
    requires Inv(s, addr) && w in s.pc && SameLives(s.d, d') && Local(s, d', w, touched)
    requires CarriedOnce(s.pc[w := p]) && Partition(d', s.n, CarriedSet(s.pc[w := p]))
    requires d'.List(Q(w, RunningQ)) == if p.Cur().Some? then [p.Cur().value] else []
    requires PcInv(d', s.n, w, p)
    requires forall t :: t in d'.tcb && t !in CarriedSet(s.pc[w := p]) && (t in touched || t in CarriedSet(s.pc)) ==>
               QueueInv(d', t)
    requires forall l :: l in Holds(w, p, addr) ==> l in Holds(w, s.pc[w], addr) || Free(s, l, addr)
    ensures Inv(s.(d := d', pc := s.pc[w := p]), addr)
  {
    hide Partition, HistoryInv, LocksExclusive, CarriedOnce, JoinInv, PcInv, CarriedSet, QueueInv, RunInv, Free, Holds,
         Local;
    LivesKeepBooks(s, d');
    HistoryIgnoresPc(s.(d := d'), s.pc[w := p]);
    AssembleAll(s, addr, w, s.(d := d', pc := s.pc[w := p]), p, touched);
  }

  lemma RunQueuesKept(s: System, s': System, w: nat, p: Pc, touched: set<Tid>)
    requires RunInv(s) && w in s.pc && Local(s, s'.d, w, touched) && s'.pc == s.pc[w := p]
    requires s'.d.List(Q(w, RunningQ)) == if p.Cur().Some? then [p.Cur().value] else []
    ensures RunInv(s')
  {
  }

  lemma QueuesKept(s: System, d': Data, w: nat, p: Pc, touched: set<Tid>)
    requires w in s.pc && Local(s, d', w, touched)
    requires forall t :: t in s.d.tcb && t !in CarriedSet(s.pc) ==> QueueInv(s.d, t)
    requires forall t :: t in d'.tcb && t !in CarriedSet(s.pc[w := p]) ==>
               t in touched || t in CarriedSet(s.pc) || t !in s.d.tcb ==> QueueInv(d', t)
    ensures forall t :: t in d'.tcb && t !in CarriedSet(s.pc[w := p]) ==> QueueInv(d', t)
  {
    hide CarriedSet;
    forall t | t in d'.tcb && t !in CarriedSet(s.pc[w := p])
      ensures QueueInv(d', t)
    {
      if t !in touched && t !in CarriedSet(s.pc) && t in s.d.tcb {
        assert QueueInv(s.d, t);
      }
    }
  }

  lemma LocksIgnoreRest(s: System, s': System, addr: Layout)
    requires LocksExclusive(s, addr) && s'.pc == s.pc
    ensures LocksExclusive(s', addr)
  {
  }

  lemma HistoryIgnoresPc(s: System, pc: map<nat, Pc>)
    requires HistoryInv(s)
    ensures HistoryInv(s.(pc := pc))
  {
    forall t
      ensures Recorded(s.(pc := pc), t)
    {
      assert Recorded(s, t);
    }
  }
}
