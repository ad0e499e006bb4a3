/** Which detached threads are freed: those detached before the scheduler that handles their exit has looked. */
module SchedulerDetach {
  import opened Basics
  import opened ThreadQueues
  import opened Scheduler
  import opened SchedulerSafety
  import opened SchedulerSteps
  import opened SchedulerLives
  import opened SchedulerTheorems

  /** The worker at p takes t, which has exited, to the terminated queue. */
  predicate HandsOver(p: Pc, t: Tid) {
    p.Transferring? && p.m.th == Some(t) && p.m.to.kind == TerminatedQ
  }

  ghost predicate BeingHandedOver(s: System, t: Tid) {
    exists b :: b in s.pc && HandsOver(s.pc[b], t)
  }

  /** The exit of t has been handled as that of a thread that will be joined. */
  ghost predicate Late(s: System, t: Tid) {
    t in s.d.tcb && (s.d.tcb[t].state == TERMINATED || BeingHandedOver(s, t))
  }

  ghost predicate MarkedDetached(d: Data, t: Tid) {
    t in d.tcb && d.tcb[t].joinid == Some(t)
  }

  // ----- a worker that has nothing to do with t leaves it alone

  ghost predicate Unconcerned(d: Data, p: Pc, t: Tid) {
    && p.Cur() != Some(t) && p.Carried() != Some(t) && p.Target() != Some(t)
    && (p.Transferring? && p.m.th.Some? ==> p.m.th != Some(t))
    && (p.Transferring? && p.m.th.None? && d.List(p.m.from) != [] ==> d.List(p.m.from)[0] != t)
  }

  lemma AdvanceSpares(d: Data, w: nat, p: Pc, t: Tid)
    requires Unconcerned(d, p, t) && t in d.tcb
    ensures t in Advance(d, w, p).0.tcb && Advance(d, w, p).0.tcb[t] == d.tcb[t]
  {
  }

  lemma GoSpares(s: System, w: nat, t: Tid)
    requires w in s.pc && Unconcerned(s.d, s.pc[w], t) && t in s.d.tcb
    ensures t in NextGo(s, w).d.tcb && NextGo(s, w).d.tcb[t] == s.d.tcb[t]
  {
    hide Advance;
    AdvanceSpares(s.d, w, s.pc[w], t);
  }

  lemma ActSpares(s: System, addr: Layout, w: nat, a: Action, t: Tid)
    requires Enabled(s, w, a, addr) && !a.Go? && Unconcerned(s.d, s.pc[w], t) && MarkedDetached(s.d, t)
    requires t !in s.d.List(Q(w, WaitingQ))
    ensures t in Next(s, w, a).d.tcb && Next(s, w, a).d.tcb[t] == s.d.tcb[t]
  {
    hide NextGo, Free, Wants;
  }

  lemma StepSpares(s: System, addr: Layout, w: nat, a: Action, t: Tid)
    requires Enabled(s, w, a, addr) && Unconcerned(s.d, s.pc[w], t) && MarkedDetached(s.d, t)
    requires t !in s.d.List(Q(w, WaitingQ))
    ensures t in Next(s, w, a).d.tcb && Next(s, w, a).d.tcb[t] == s.d.tcb[t]
  {
    hide Unconcerned, NextGo;
    if a.Go? {
      GoSpares(s, w, t);
    } else {
      ActSpares(s, addr, w, a, t);
    }
  }

  /** Nobody is concerned with a detached thread once it has terminated. */
  lemma NobodysConcern(s: System, addr: Layout, w: nat, t: Tid)
    requires Inv(s, addr) && w in s.pc && MarkedDetached(s.d, t) && s.d.tcb[t].state == TERMINATED
    ensures Unconcerned(s.d, s.pc[w], t) && t !in s.d.List(Q(w, WaitingQ))
  {
    forall q: QId | q.kind != TerminatedQ
      ensures t !in s.d.List(q)
    {
      if t in s.d.List(q) {
        QueuedOnce(s, addr, q, q, t);
      }
    }
    assert PcInv(s.d, s.n, w, s.pc[w]);
    assert s.pc[w].Target().Some? ==> Tied(s.d, s.pc[w].Cur().value);
    assert s.pc[w].Transferring? && s.d.List(s.pc[w].m.from) != [] ==>
             s.d.List(s.pc[w].m.from)[0] in s.d.List(s.pc[w].m.from);
  }

  /** While b hands t over, t is in the running queue of b and nobody else is concerned with it. */
  lemma OnlyItsWorkers(s: System, addr: Layout, w: nat, b: nat, t: Tid)
    requires Inv(s, addr) && w in s.pc && b in s.pc && w != b && HandsOver(s.pc[b], t)
    ensures Unconcerned(s.d, s.pc[w], t) && t !in s.d.List(Q(w, WaitingQ))
  {
    assert PcInv(s.d, s.n, b, s.pc[b]) && PcInv(s.d, s.n, w, s.pc[w]);
    var q := Q(b, RunningQ);
    assert t in s.d.List(q);
    forall r: QId | r != q
      ensures t !in s.d.List(r)
    {
      QueuedOnce(s, addr, q, r, t);
    }
    assert s.pc[w].Carried() == Some(t) ==> t in CarriedSet(s.pc);
    assert s.d.List(Q(w, RunningQ)) == if s.pc[w].Cur().Some? then [s.pc[w].Cur().value] else [];
    assert s.pc[w].Transferring? && s.d.List(s.pc[w].m.from) != [] ==>
             s.d.List(s.pc[w].m.from)[0] in s.d.List(s.pc[w].m.from);
    QueuedOnce(s, addr, q, q, t);
  }

  // ----- too late

  /** The worker's own steps finish the hand-over. */
  lemma HandOverGoesOn(s: System, addr: Layout, b: nat, a: Action, t: Tid)
    requires Enabled(s, b, a, addr) && HandsOver(s.pc[b], t) && MarkedDetached(s.d, t)
    ensures MarkedDetached(Next(s, b, a).d, t) && Late(Next(s, b, a), t)
  {
    assert a.Go?;
    assert s.pc[b].locks < 2 ==> HandsOver(Next(s, b, a).pc[b], t);
  }

  lemma StepKeepsLate(s: System, addr: Layout, w: nat, a: Action, t: Tid)
    requires Inv(s, addr) && Enabled(s, w, a, addr) && MarkedDetached(s.d, t) && Late(s, t)
    ensures MarkedDetached(Next(s, w, a).d, t) && Late(Next(s, w, a), t)
  {
    hide Inv, Unconcerned, HandsOver;
    if s.d.tcb[t].state == TERMINATED {
      NobodysConcern(s, addr, w, t);
      StepSpares(s, addr, w, a, t);
    } else {
      var b :| b in s.pc && HandsOver(s.pc[b], t);
      if b == w {
        HandOverGoesOn(s, addr, w, a, t);
      } else {
        OnlyItsWorkers(s, addr, w, b, t);
        StepSpares(s, addr, w, a, t);
        OthersStay(s, addr, w, a, b);
      }
    }
  }

  lemma OthersStay(s: System, addr: Layout, w: nat, a: Action, b: nat)
    requires Enabled(s, w, a, addr) && b in s.pc && b != w
    ensures b in Next(s, w, a).pc && Next(s, w, a).pc[b] == s.pc[b]
  {
  }

  lemma {:induction false} LateForever(s: System, steps: seq<Step>, addr: Layout, t: Tid)
    requires Inv(s, addr) && Run(s, steps, addr) && MarkedDetached(s.d, t) && Late(s, t)
    ensures MarkedDetached(After(s, steps, addr).d, t)
    decreases |steps|
  {
    hide Inv, Next, Late, MarkedDetached;
    if steps != [] {
      StepKeepsLate(s, addr, steps[0].w, steps[0].a, t);
      StepKeepsInv(s, addr, steps[0].w, steps[0].a);
      LateForever(Next(s, steps[0].w, steps[0].a), steps[1..], addr, t);
    }
  }

  // ----- in time

  /** A thread that has been detached: it is still marked so, or it is gone for good. */
  lemma MarkedOrGone(s: System, addr: Layout, t: Tid)
    requires Inv(s, addr) && t in s.detaches
    ensures t in s.d.tcb ==> MarkedDetached(s.d, t)
    ensures t !in s.d.tcb ==> t in s.freed
  {
    assert Recorded(s, t);
  }

  lemma AdvanceInTime(d: Data, n: nat, w: nat, p: Pc, t: Tid)
    requires MarkedDetached(d, t) && d.tcb[t].state != TERMINATED && !HandsOver(p, t) && PcInv(d, n, w, p)
    ensures var (d', p') := Advance(d, w, p);
            !HandsOver(p', t) && (t in d'.tcb ==> d'.tcb[t].state != TERMINATED)
  {
  }

  lemma GoInTime(s: System, w: nat, t: Tid)
    requires w in s.pc && MarkedDetached(s.d, t) && s.d.tcb[t].state != TERMINATED && !HandsOver(s.pc[w], t)
    requires PcInv(s.d, s.n, w, s.pc[w])
    ensures var s' := NextGo(s, w);
            w in s'.pc && !HandsOver(s'.pc[w], t) && (t in s'.d.tcb ==> s'.d.tcb[t].state != TERMINATED)
  {
    hide Advance, PcInv;
    AdvanceInTime(s.d, s.n, w, s.pc[w], t);
  }

  lemma ActInTime(s: System, addr: Layout, w: nat, a: Action, t: Tid)
    requires Enabled(s, w, a, addr) && !a.Go? && MarkedDetached(s.d, t) && s.d.tcb[t].state != TERMINATED
    requires !HandsOver(s.pc[w], t)
    ensures var s' := Next(s, w, a);
            w in s'.pc && !HandsOver(s'.pc[w], t) && (t in s'.d.tcb ==> s'.d.tcb[t].state != TERMINATED)
  {
    hide NextGo, Free, Wants;
  }

  lemma StepInTime(s: System, addr: Layout, w: nat, a: Action, t: Tid)
    requires Inv(s, addr) && Enabled(s, w, a, addr) && t in s.d.tcb && MarkedDetached(s.d, t) && !Late(s, t)
    ensures !Late(Next(s, w, a), t)
  {
    assert PcInv(s.d, s.n, w, s.pc[w]);
    hide Inv, PcInv, HandsOver, NextGo;
    if a.Go? {
      GoInTime(s, w, t);
    } else {
      ActInTime(s, addr, w, a, t);
    }
    var s' := Next(s, w, a);
    forall b | b in s'.pc
      ensures !HandsOver(s'.pc[b], t)
    {
      if b != w {
        SamePcs(s, addr, w, a);
        OthersStay(s, addr, w, a, b);
      }
    }
  }

  lemma SamePcs(s: System, addr: Layout, w: nat, a: Action)
    requires Enabled(s, w, a, addr)
    ensures Next(s, w, a).pc.Keys == s.pc.Keys
  {
    hide Advance;
  }

  lemma HistoryGrows(s: System, addr: Layout, w: nat, a: Action)
    requires Enabled(s, w, a, addr)
    ensures s.freed <= Next(s, w, a).freed && s.detaches <= Next(s, w, a).detaches
  {
    hide Advance;
  }

  lemma StepKeepsInTime(s: System, addr: Layout, w: nat, a: Action, t: Tid)
    requires Inv(s, addr) && Enabled(s, w, a, addr) && t in s.detaches && !Late(s, t)
    ensures t in Next(s, w, a).detaches && !Late(Next(s, w, a), t)
  {
    hide Inv, Next, MarkedDetached;
    HistoryGrows(s, addr, w, a);
    MarkedOrGone(s, addr, t);
    if t in s.d.tcb {
      StepInTime(s, addr, w, a, t);
    } else {
      StepKeepsInv(s, addr, w, a);
      assert t in Next(s, w, a).freed;
      GoneForGood(Next(s, w, a), addr, t);
    }
  }

  lemma GoneForGood(s: System, addr: Layout, t: Tid)
    requires Inv(s, addr)
    ensures t in s.freed ==> t !in s.d.tcb
  {
    assert Recorded(s, t);
  }

  lemma {:induction false} InTimeForever(s: System, steps: seq<Step>, addr: Layout, t: Tid)
    requires Inv(s, addr) && Run(s, steps, addr) && t in s.detaches && !Late(s, t)
    ensures t in After(s, steps, addr).detaches && !Late(After(s, steps, addr), t)
    decreases |steps|
  {
    hide Inv, Next, Late;
    if steps != [] {
      StepKeepsInTime(s, addr, steps[0].w, steps[0].a, t);
      StepKeepsInv(s, addr, steps[0].w, steps[0].a);
      InTimeForever(Next(s, steps[0].w, steps[0].a), steps[1..], addr, t);
    }
  }

  /** The worker that t yielded to has not handled its exit yet, or is about to free it. */
  ghost predicate ExitPending(s: System, t: Tid) {
    exists w :: w in s.pc && (s.pc[w] == Back(t) || s.pc[w] == Dropping(t))
  }

  lemma CarriedAreNot(s: System, addr: Layout, w: nat)
    requires Inv(s, addr) && w in s.pc && s.pc[w].Carried().Some?
    ensures var u := s.pc[w].Carried().value; u in s.d.tcb && !(s.d.tcb[u].exited && s.d.tcb[u].joinid == Some(u))
  {
    assert PcInv(s.d, s.n, w, s.pc[w]);
    assert s.pc[w].Reaping? ==> Tied(s.d, s.pc[w].t);
  }

  lemma ExitedIsWhere(s: System, addr: Layout, t: Tid)
    requires Inv(s, addr) && t in s.detaches && !Late(s, t) && t in s.exits
    ensures t in s.freed || ExitPending(s, t)
  {
    assert Recorded(s, t);
    if t in s.d.tcb {
      assert s.d.tcb[t].exited && MarkedDetached(s.d, t);
      forall w | w in s.pc && s.pc[w].Carried().Some?
        ensures s.pc[w].Carried() != Some(t)
      {
        CarriedAreNot(s, addr, w);
      }
      assert Placed(s.d, t) && QueueInv(s.d, t);
      var q := s.d.tcb[t].queue.value;
      var w := q.sched;
      assert ListOk(s.d, q, CarriedSet(s.pc));
      assert t in s.d.List(q) && s.d.List(q) == if s.pc[w].Cur().Some? then [s.pc[w].Cur().value] else [];
      assert PcInv(s.d, s.n, w, s.pc[w]);
      assert HandsOver(s.pc[w], t) || s.pc[w] == Back(t) || s.pc[w] == Dropping(t);
    }
  }

  // ----- both, over every run

  /** A successful detach in a reachable state, and any continuation of it. */
  ghost predicate DetachThen(n: nat, main: Tid, steps: seq<Step>, addr: Layout, w: nat, t: Tid, more: seq<Step>) {
    && n > 0 && Run(Init(n, main), steps, addr)
    && var s := After(Init(n, main), steps, addr);
    && Enabled(s, w, Detach(t), addr) && s.d.At(t).joinid.None?
    && Run(Next(s, w, Detach(t)), more, addr)
  }

  ghost function Before(n: nat, main: Tid, steps: seq<Step>, addr: Layout): System
    requires Run(Init(n, main), steps, addr)
  {
    After(Init(n, main), steps, addr)
  }

  ghost function Finally(n: nat, main: Tid, steps: seq<Step>, addr: Layout, w: nat, t: Tid, more: seq<Step>): System
    requires DetachThen(n, main, steps, addr, w, t, more)
  {
    After(Next(After(Init(n, main), steps, addr), w, Detach(t)), more, addr)
  }

  lemma DetachMarks(s: System, w: nat, t: Tid, addr: Layout)
    requires Enabled(s, w, Detach(t), addr) && s.d.At(t).joinid.None?
    ensures var s' := Next(s, w, Detach(t));
            MarkedDetached(s'.d, t) && t in s'.detaches && (Late(s', t) <==> Late(s, t))
  {
  }

  /** A thread that is detached once its exit has been handled, or is being handled, as that of a joinable thread is
      never freed. */
  lemma DetachedTooLate(n: nat, main: Tid, steps: seq<Step>, addr: Layout, w: nat, t: Tid, more: seq<Step>)
    requires DetachThen(n, main, steps, addr, w, t, more) && Late(Before(n, main, steps, addr), t)
    ensures var e := Finally(n, main, steps, addr, w, t, more); t in e.d.tcb && t !in e.freed
  {
    hide Inv, Next, Init, Late;
    var s := Before(n, main, steps, addr);
    ReachableHolds(n, main, steps, addr);
    DetachMarks(s, w, t, addr);
    StepKeepsInv(s, addr, w, Detach(t));
    var s1 := Next(s, w, Detach(t));
    LateForever(s1, more, addr, t);
    RunKeepsInv(s1, more, addr);
    GoneForGood(After(s1, more, addr), addr, t);
  }

  /** A thread that is detached before that is freed when its exit is handled. */
  lemma DetachedInTime(n: nat, main: Tid, steps: seq<Step>, addr: Layout, w: nat, t: Tid, more: seq<Step>)
    requires DetachThen(n, main, steps, addr, w, t, more) && !Late(Before(n, main, steps, addr), t)
    ensures var e := Finally(n, main, steps, addr, w, t, more);
            t in e.exits ==> t in e.freed || ExitPending(e, t)
  {
    hide Inv, Next, Init, Late, ExitPending;
    var s := Before(n, main, steps, addr);
    ReachableHolds(n, main, steps, addr);
    DetachMarks(s, w, t, addr);
    StepKeepsInv(s, addr, w, Detach(t));
    var s1 := Next(s, w, Detach(t));
    InTimeForever(s1, more, addr, t);
    RunKeepsInv(s1, more, addr);
    if t in After(s1, more, addr).exits {
      ExitedIsWhere(After(s1, more, addr), addr, t);
    }
  }

  // ----- a run that leaks

  ghost predicate Unlocked(s: System, addr: Layout) {
    forall b :: b in s.pc ==> Holds(b, s.pc[b], addr) == {}
  }

  lemma {:induction false} RunsOn(s: System, a: seq<Step>, b: seq<Step>, addr: Layout)
    requires Run(s, a, addr) && Run(After(s, a, addr), b, addr)
    ensures Run(s, a + b, addr) && After(s, a + b, addr) == After(After(s, a, addr), b, addr)
    decreases |a|
  {
    hide Next;
    if a == [] {
      assert a + b == b;
    } else {
      RunsOn(Next(s, a[0].w, a[0].a), a[1..], b, addr);
      assert (a + b)[1..] == a[1..] + b;
    }
  }

  lemma OneStep(s: System, w: nat, a: Action, addr: Layout)
    requires Enabled(s, w, a, addr)
    ensures Run(s, [Step(w, a)], addr) && After(s, [Step(w, a)], addr) == Next(s, w, a)
  {
    hide Next;
    assert Run(Next(s, w, a), [], addr);
  }

  /** A transfer that nobody else gets in the way of. */
  lemma WholeMove(s: System, addr: Layout, w: nat, m: Move) returns (steps: seq<Step>)
    requires w in s.pc && s.pc[w] == Head && HeadMove(s.d, w, m) && m.th.None? && m.from != m.to && Unlocked(s, addr)
    ensures Run(s, steps, addr)
    ensures After(s, steps, addr) == s.(d := FinishMove(s.d, m).0, pc := s.pc[w := FinishMove(s.d, m).1])
  {
    hide Run, After, FinishMove;
    var s1 := s.(pc := s.pc[w := Transferring(m, 0)]);
    var s2 := s.(pc := s.pc[w := Transferring(m, 1)]);
    var s3 := s.(pc := s.pc[w := Transferring(m, 2)]);
    var s4 := s.(d := FinishMove(s.d, m).0, pc := s.pc[w := FinishMove(s.d, m).1]);
    OneStep(s, w, BeginMove(m), addr);
    assert Next(s, w, BeginMove(m)) == s1;
    OneStep(s1, w, Go, addr);
    assert Next(s1, w, Go) == s2;
    RunsOn(s, [Step(w, BeginMove(m))], [Step(w, Go)], addr);
    OneStep(s2, w, Go, addr);
    assert Next(s2, w, Go) == s3;
    RunsOn(s, [Step(w, BeginMove(m))] + [Step(w, Go)], [Step(w, Go)], addr);
    OneStep(s3, w, Go, addr);
    assert Next(s3, w, Go) == s4;
    steps := [Step(w, BeginMove(m))] + [Step(w, Go)] + [Step(w, Go)] + [Step(w, Go)];
    RunsOn(s, [Step(w, BeginMove(m))] + [Step(w, Go)] + [Step(w, Go)], [Step(w, Go)], addr);
  }

  lemma MovedAlone(d: Data, m: Move, t: Tid)
    requires m.th.None? && m.from != m.to && !m.front && d.List(m.from) == [t] && t in d.tcb
    ensures var d' := FinishMove(d, m).0;
            && d'.List(m.to) == d.List(m.to) + [t]
            && d'.tcb == d.tcb[t := d.tcb[t].(queue := Some(m.to), state := StateOf(m.to.kind))]
            && forall q :: q != m.from && q != m.to ==> d'.List(q) == d.List(q)
    ensures FinishMove(d, m).1 == if m.to.kind == RunningQ then Running(t) else Head
  {
  }

  /** What a dispatch of the thread that waits in worker w's new queue leaves. */
  ghost predicate DispatchedFrom(s: System, s': System, w: nat, t: Tid) {
    && t in s.d.tcb && s' == s.(d := s'.d, pc := s.pc[w := Running(t)])
    && s'.d.tcb == s.d.tcb[t := s.d.tcb[t].(queue := Some(Q(w, RunningQ)), state := RUNNING)]
    && forall q: QId :: q.sched != w ==> s'.d.List(q) == s.d.List(q)
  }

  lemma WholeDispatch(s: System, addr: Layout, w: nat, t: Tid) returns (steps: seq<Step>)
    requires w in s.pc && s.pc[w] == Head && Unlocked(s, addr) && t in s.d.tcb
    requires s.d.List(Q(w, NewQ)) == [t] && s.d.List(Q(w, ReadyQ)) == []
    ensures Run(s, steps, addr) && DispatchedFrom(s, After(s, steps, addr), w, t)
  {
    hide Run, After, FinishMove, Holds;
    var m1, m2 := Move(None, Q(w, NewQ), Q(w, ReadyQ), false), Move(None, Q(w, ReadyQ), Q(w, RunningQ), false);
    var steps1 := WholeMove(s, addr, w, m1);
    MovedAlone(s.d, m1, t);
    var s1 := After(s, steps1, addr);
    assert s1.pc == s.pc;
    var steps2 := WholeMove(s1, addr, w, m2);
    MovedAlone(s1.d, m2, t);
    RunsOn(s, steps1, steps2, addr);
    steps := steps1 + steps2;
  }

  /** Creating a thread on another worker. */
  lemma WholeCreate(s: System, addr: Layout, w: nat, t: Tid, child: Tid, sched: nat) returns (steps: seq<Step>)
    requires w in s.pc && s.pc[w] == Running(t) && Unlocked(s, addr) && t in s.d.tcb && s.d.tcb[t].joining.None?
    requires child !in s.d.tcb && child !in s.freed && sched < s.n
    ensures Run(s, steps, addr)
    ensures var s' := After(s, steps, addr);
            && s' == s.(d := s'.d)
            && s'.d.tcb == s.d.tcb[child := Tcb(Some(Q(sched, NewQ)), sched, NEW, None, None, false, 0)]
            && s'.d.List(Q(sched, NewQ)) == s.d.List(Q(sched, NewQ)) + [child]
            && forall q :: q != Q(sched, NewQ) ==> s'.d.List(q) == s.d.List(q)
  {
    hide Run, After;
    var s1 := Next(s, w, Create(child, sched, false));
    OneStep(s, w, Create(child, sched, false), addr);
    OneStep(s1, w, Go, addr);
    RunsOn(s, [Step(w, Create(child, sched, false))], [Step(w, Go)], addr);
    steps := [Step(w, Create(child, sched, false))] + [Step(w, Go)];
    assert Next(s1, w, Go).pc == s.pc;
  }

  /** A thread that exits, up to the point where its worker has decided to hand it over. */
  lemma ExitBegun(s: System, addr: Layout, w: nat, t: Tid, value: int) returns (steps: seq<Step>)
    requires w in s.pc && s.pc[w] == Running(t) && t in s.d.tcb && s.d.tcb[t].joining.None? && s.d.tcb[t].joinid.None?
    ensures Run(s, steps, addr)
    ensures var s' := After(s, steps, addr);
            && w in s'.pc && HandsOver(s'.pc[w], t) && s'.pc == s.pc[w := s'.pc[w]]
            && s'.d.tcb == s.d.tcb[t := s.d.tcb[t].(exited := true, joinArg := value)]
  {
    hide Run, After;
    var s1 := Next(s, w, Exit(value));
    OneStep(s, w, Exit(value), addr);
    OneStep(s1, w, Go, addr);
    RunsOn(s, [Step(w, Exit(value))], [Step(w, Go)], addr);
    steps := [Step(w, Exit(value))] + [Step(w, Go)];
  }

  ghost predicate MainRuns(s: System) {
    && s.n == 2 && s.pc == map[0 := Running(0), 1 := Head] && s.d.tcb.Keys == {0} && s.freed == []
    && s.d.tcb[0].joining.None? && forall q: QId :: q.sched == 1 ==> s.d.List(q) == []
  }

  lemma StartMain(addr: Layout) returns (steps: seq<Step>)
    ensures Run(Init(2, 0), steps, addr) && MainRuns(After(Init(2, 0), steps, addr))
  {
    hide Run, After, Holds, Unlocked;
    NothingHeld(Init(2, 0), addr);
    InitLists(2, 0);
    assert Init(2, 0).pc == map[0 := Head, 1 := Head];
    steps := WholeDispatch(Init(2, 0), addr, 0, 0);
  }

  /** The main thread creates thread 1 on the other worker, which dispatches it. */
  ghost predicate BothRun(s: System) {
    && s.n == 2 && s.pc == map[0 := Running(0), 1 := Running(1)] && s.d.tcb.Keys == {0, 1}
    && s.d.tcb[0].joining.None? && s.d.tcb[1].joining.None? && s.d.tcb[1].joinid.None? && s.d.tcb[1].state == RUNNING
  }

  lemma StartBoth(s: System, addr: Layout) returns (steps: seq<Step>)
    requires MainRuns(s)
    ensures Run(s, steps, addr) && BothRun(After(s, steps, addr))
  {
    hide Run, After, Holds, Unlocked;
    NothingHeld(s, addr);
    var b := WholeCreate(s, addr, 0, 0, 1, 1);
    var s1 := After(s, b, addr);
    NothingHeld(s1, addr);
    var c := WholeDispatch(s1, addr, 1, 1);
    RunsOn(s, b, c, addr);
    steps := b + c;
  }

  lemma ExitsUnderWay(s: System, addr: Layout) returns (steps: seq<Step>)
    requires BothRun(s)
    ensures Run(s, steps, addr)
    ensures var s' := After(s, steps, addr);
            Enabled(s', 0, Detach(1), addr) && s'.d.At(1).joinid.None? && Late(s', 1) && s'.d.At(1).state != TERMINATED
  {
    hide Run, After, HandsOver;
    steps := ExitBegun(s, addr, 1, 1, 7);
  }

  /** With two workers: thread 1 exits, and while its worker hands it over the main thread detaches it, so that its
      TCB is never freed; it has not terminated yet when it is detached. */
  lemma LeakingRun(addr: Layout) returns (steps: seq<Step>)
    ensures DetachThen(2, 0, steps, addr, 0, 1, []) && Late(Before(2, 0, steps, addr), 1)
    ensures Before(2, 0, steps, addr).d.At(1).state != TERMINATED
  {
    hide Run, After, Init, Late, MainRuns, BothRun, Next;
    var s0 := Init(2, 0);
    var a := StartMain(addr);
    var b := StartBoth(After(s0, a, addr), addr);
    RunsOn(s0, a, b, addr);
    var c := ExitsUnderWay(After(s0, a + b, addr), addr);
    RunsOn(s0, a + b, c, addr);
    steps := a + b + c;
    Stopped(Next(After(s0, steps, addr), 0, Detach(1)), addr);
  }

  lemma Stopped(s: System, addr: Layout)
    ensures Run(s, [], addr)
  {
  }

  lemma NothingHeld(s: System, addr: Layout)
    requires forall b :: b in s.pc ==> s.pc[b] == Head || s.pc[b].Running?
    ensures Unlocked(s, addr)
  {
  }

  lemma InitLists(n: nat, main: Tid)
    requires n > 0
    ensures Init(n, main).d.List(Q(0, NewQ)) == [main] && Init(n, main).d.tcb.Keys == {main}
    ensures forall q :: q != Q(0, NewQ) ==> Init(n, main).d.List(q) == []
  {
    EveryKind(NewQ);
    assert Q(0, NewQ) in AllQueues(n);
  }
}
