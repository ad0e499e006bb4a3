/** Where each action of a thread takes it, whatever the other workers do meanwhile, in terms of queues, states and
    results. */
module SchedulerAnswers {
  import opened Basics
  import opened ThreadQueues
  import opened Scheduler
  import opened SchedulerSafety
  import opened SchedulerSteps
  import opened SchedulerLives
  import opened SchedulerTheorems
  import opened SchedulerDetach

  /** How many steps of a run are worker w's. */
  ghost function OwnSteps(steps: seq<Step>, w: nat): nat {
    if steps == [] then 0 else OwnSteps(steps[1..], w) + if steps[0].w == w then 1 else 0
  }

  /** The last of k steps of worker w ends the run. */
  ghost predicate EndsWithStep(steps: seq<Step>, w: nat, k: nat) {
    steps != [] && steps[|steps| - 1].w == w && OwnSteps(steps, w) == k
  }

  lemma {:induction false} RestEnds(steps: seq<Step>, w: nat, k: nat)
    requires EndsWithStep(steps, w, k)
    ensures k >= 1
    ensures steps[0].w == w ==> (k == 1 <==> |steps| == 1)
    ensures |steps| > 1 ==> EndsWithStep(steps[1..], w, if steps[0].w == w then k - 1 else k)
    ensures steps[0].w != w ==> |steps| > 1
    decreases |steps|
  {
    if |steps| > 1 {
      RestEnds(steps[1..], w, OwnSteps(steps[1..], w));
    } else {
      assert OwnSteps(steps[1..], w) == 0;
    }
  }

  // ----- what other workers leave alone

  /** The current thread of worker w is in w's running queue, and no other worker is concerned with it. */
  lemma MineAlone(s: System, addr: Layout, b: nat, w: nat, t: Tid)
    requires Inv(s, addr) && b in s.pc && w in s.pc && b != w && s.pc[w].Cur() == Some(t)
    ensures t in s.d.tcb && Unconcerned(s.d, s.pc[b], t) && t !in s.d.List(Q(b, WaitingQ))
  {
    assert PcInv(s.d, s.n, b, s.pc[b]) && PcInv(s.d, s.n, w, s.pc[w]);
    var q := Q(w, RunningQ);
    assert t in s.d.List(q);
    forall r: QId | r != q
      ensures t !in s.d.List(r)
    {
      QueuedOnce(s, addr, q, r, t);
    }
    assert s.pc[b].Carried() == Some(t) ==> t in CarriedSet(s.pc);
    assert s.d.List(Q(b, RunningQ)) == if s.pc[b].Cur().Some? then [s.pc[b].Cur().value] else [];
    assert s.pc[b].Transferring? && s.d.List(s.pc[b].m.from) != [] ==>
             s.d.List(s.pc[b].m.from)[0] in s.d.List(s.pc[b].m.from);
    QueuedOnce(s, addr, q, q, t);
  }

  lemma ActSparesMost(s: System, addr: Layout, b: nat, a: Action, t: Tid)
    requires Enabled(s, b, a, addr) && !a.Go? && Unconcerned(s.d, s.pc[b], t) && t in s.d.tcb
    requires t !in s.d.List(Q(b, WaitingQ))
    ensures t in Next(s, b, a).d.tcb && SameButJoinid(s.d.tcb[t], Next(s, b, a).d.tcb[t])
  {
    hide NextGo, Free, Wants;
  }

  /** Another worker's step may detach or claim a worker's current thread, and changes nothing else of it. */
  lemma OthersSpare(s: System, addr: Layout, b: nat, a: Action, w: nat, t: Tid)
    requires Inv(s, addr) && Enabled(s, b, a, addr) && w in s.pc && b != w && s.pc[w].Cur() == Some(t)
    ensures var s' := Next(s, b, a);
            && w in s'.pc && s'.pc[w] == s.pc[w]
            && t in s.d.tcb && t in s'.d.tcb && SameButJoinid(s.d.tcb[t], s'.d.tcb[t])
  {
    hide Inv, Unconcerned, NextGo;
    MineAlone(s, addr, b, w, t);
    OthersStay(s, addr, b, a, w);
    if a.Go? {
      GoSpares(s, b, t);
    } else {
      ActSparesMost(s, addr, b, a, t);
    }
  }

  // ----- yielding

  /** Thread t, which has yielded on worker w, has gone j of the four steps to the queue of that kind. */
  ghost predicate OnItsWay(s: System, w: nat, t: Tid, kind: Kind, j: nat) {
    && w in s.pc && t in s.d.tcb
    && if j == 0 then
         && s.pc[w] == Back(t) && !s.d.tcb[t].exited
         && s.d.tcb[t].state == (if kind == ReadyQ then RUNNING else WAITING)
       else s.pc[w] == Transferring(Move(Some(t), Q(w, RunningQ), Q(w, kind), false), j - 1)
  }

  /** Worker w is at its loop head with an empty running queue, and t is at the back of its queue of that kind. */
  ghost predicate AtBack(s: System, w: nat, t: Tid, kind: Kind) {
    && w in s.pc && s.pc[w] == Head && s.d.List(Q(w, RunningQ)) == []
    && var l := s.d.List(Q(w, kind));
    && l != [] && l[|l| - 1] == t && s.d.At(t).state == StateOf(kind) && s.d.At(t).queue == Some(Q(w, kind))
  }

  /** A worker in the middle of a section has one thing to do. */
  lemma OnlyGo(s: System, addr: Layout, w: nat, a: Action)
    requires Enabled(s, w, a, addr) && !s.pc[w].Head? && !s.pc[w].Running?
    ensures a.Go?
  {
  }

  lemma BackStep(s: System, w: nat, t: Tid, kind: Kind)
    requires OnItsWay(s, w, t, kind, 0) && (kind == ReadyQ || kind == WaitingQ)
    ensures OnItsWay(NextGo(s, w), w, t, kind, 1)
  {
  }

  lemma LockStep(s: System, w: nat, m: Move, locks: nat)
    requires w in s.pc && s.pc[w] == Transferring(m, locks) && locks < 2
    ensures NextGo(s, w) == s.(pc := s.pc[w := Transferring(m, locks + 1)])
  {
  }

  /** The last step of a transfer: the thread it names, or else the first of the queue, has moved. */
  lemma FinishStep(s: System, w: nat, m: Move)
    requires w in s.pc && s.pc[w] == Transferring(m, 2) && m.from != m.to
    ensures var s' := NextGo(s, w);
            if m.th.None? && s.d.List(m.from) == [] then s' == s.(pc := s.pc[w := Head])
            else
              var t: Tid := if m.th.Some? then m.th.value else s.d.List(m.from)[0];
              && s' == s.(d := s'.d, pc := s.pc[w := if m.to.kind == RunningQ then Running(t) else Head])
              && s'.d.List(m.from) == Minus(s.d.List(m.from), t)
              && s'.d.List(m.to) == (if m.front then [t] + s.d.List(m.to) else s.d.List(m.to) + [t])
              && (forall q :: q != m.from && q != m.to ==> s'.d.List(q) == s.d.List(q))
              && s'.d.tcb == s.d.tcb[t := s.d.At(t).(queue := Some(m.to), state := StateOf(m.to.kind))]
  {
    if m.th.Some? || s.d.List(m.from) != [] {
      var t: Tid := if m.th.Some? then m.th.value else s.d.List(m.from)[0];
      TransferLists(s.d, t, m.from, m.to, m.front);
      hide Data.Transfer;
    }
  }

  lemma ArriveStep(s: System, w: nat, t: Tid, kind: Kind)
    requires OnItsWay(s, w, t, kind, 3) && s.d.List(Q(w, RunningQ)) == [t] && kind != RunningQ
    ensures AtBack(NextGo(s, w), w, t, kind)
  {
    hide NextGo;
    FinishStep(s, w, Move(Some(t), Q(w, RunningQ), Q(w, kind), false));
  }

  lemma OwnStepOn(s: System, addr: Layout, w: nat, a: Action, t: Tid, kind: Kind, j: nat)
    requires Inv(s, addr) && Enabled(s, w, a, addr) && OnItsWay(s, w, t, kind, j) && j <= 3 && kind != RunningQ
    requires j == 0 ==> kind == ReadyQ || kind == WaitingQ
    ensures if j < 3 then OnItsWay(Next(s, w, a), w, t, kind, j + 1) else AtBack(Next(s, w, a), w, t, kind)
  {
    hide Inv, Partition, Free, NextGo, AtBack, PcInv, Wants;
    Mine(s, addr, w);
    OnlyGo(s, addr, w, a);
    if j == 0 {
      BackStep(s, w, t, kind);
    } else if j < 3 {
      LockStep(s, w, s.pc[w].m, j - 1);
    } else {
      ArriveStep(s, w, t, kind);
    }
  }

  lemma {:induction false} GoesTo(s: System, more: seq<Step>, addr: Layout, w: nat, t: Tid, kind: Kind, j: nat)
    requires Inv(s, addr) && Run(s, more, addr) && OnItsWay(s, w, t, kind, j) && j <= 3 && kind != RunningQ
    requires j == 0 ==> kind == ReadyQ || kind == WaitingQ
    requires EndsWithStep(more, w, 4 - j)
    ensures AtBack(After(s, more, addr), w, t, kind)
    decreases |more|
  {
    hide Inv, Next, AtBack, Free, Wants;
    RestEnds(more, w, 4 - j);
    var b, a := more[0].w, more[0].a;
    StepKeepsInv(s, addr, b, a);
    var s' := Next(s, b, a);
    if b == w {
      OwnStepOn(s, addr, w, a, t, kind, j);
      if j < 3 {
        GoesTo(s', more[1..], addr, w, t, kind, j + 1);
      }
    } else {
      OthersSpare(s, addr, b, a, w, t);
      GoesTo(s', more[1..], addr, w, t, kind, j);
    }
  }

  /** A thread that runs in a reachable state takes the action, and the others and its worker then go on. */
  ghost predicate Acts(n: nat, main: Tid, steps: seq<Step>, addr: Layout, w: nat, t: Tid, a: Action, more: seq<Step>) {
    && n > 0 && Run(Init(n, main), steps, addr)
    && var s := After(Init(n, main), steps, addr);
    && Enabled(s, w, a, addr) && s.pc[w] == Running(t) && Run(Next(s, w, a), more, addr)
  }

  ghost function Then(n: nat, main: Tid, steps: seq<Step>, addr: Layout, w: nat, t: Tid, a: Action,
                      more: seq<Step>): System
    requires Acts(n, main, steps, addr, w, t, a, more)
  {
    After(Next(After(Init(n, main), steps, addr), w, a), more, addr)
  }

  /** Four steps of its worker after a thread has yielded, whatever others do in between, it is at the back of the ready
      queue, or of the waiting queue if it has to wait. */
  lemma YieldGoesTo(n: nat, main: Tid, steps: seq<Step>, addr: Layout, w: nat, t: Tid, a: Action, more: seq<Step>)
    requires Acts(n, main, steps, addr, w, t, a, more) && (a == YieldReady || a == YieldWait)
    requires EndsWithStep(more, w, 4)
    ensures AtBack(Then(n, main, steps, addr, w, t, a, more), w, t, if a == YieldReady then ReadyQ else WaitingQ)
  {
    hide Inv, Init, AtBack;
    var s := After(Init(n, main), steps, addr);
    ReachableHolds(n, main, steps, addr);
    YieldBegins(s, addr, w, t, a);
    StepKeepsInv(s, addr, w, a);
    hide Next;
    GoesTo(Next(s, w, a), more, addr, w, t, if a == YieldReady then ReadyQ else WaitingQ, 0);
  }

  lemma YieldBegins(s: System, addr: Layout, w: nat, t: Tid, a: Action)
    requires Inv(s, addr) && Enabled(s, w, a, addr) && s.pc[w] == Running(t) && (a == YieldReady || a == YieldWait)
    ensures OnItsWay(Next(s, w, a), w, t, if a == YieldReady then ReadyQ else WaitingQ, 0)
  {
    hide Inv, Partition, Free, Wants;
    Mine(s, addr, w);
  }

  // ----- exiting

  /** t has exited with value and waits for its worker to look at it. */
  ghost predicate HasExited(s: System, w: nat, t: Tid, value: int) {
    && w in s.pc && s.pc[w] == Back(t) && t in s.d.tcb && s.d.tcb[t].exited
    && t in s.exits && s.exits[t] == value
  }

  lemma {:induction false} ExitWaits(s: System, more: seq<Step>, addr: Layout, w: nat, t: Tid, value: int)
    requires Inv(s, addr) && Run(s, more, addr) && HasExited(s, w, t, value) && OwnSteps(more, w) == 0
    ensures HasExited(After(s, more, addr), w, t, value) && Inv(After(s, more, addr), addr)
    decreases |more|
  {
    hide Inv, Next;
    if more != [] {
      var b, a := more[0].w, more[0].a;
      StepKeepsInv(s, addr, b, a);
      OthersSpare(s, addr, b, a, w, t);
      ExitOnce(s, addr, b, a, t);
      ExitWaits(Next(s, b, a), more[1..], addr, w, t, value);
    }
  }

  lemma ExitBegins(s: System, addr: Layout, w: nat, t: Tid, value: int)
    requires Inv(s, addr) && Enabled(s, w, Exit(value), addr) && s.pc[w] == Running(t)
    ensures HasExited(Next(s, w, Exit(value)), w, t, value)
  {
    hide Inv, Partition, Free, Wants;
    Mine(s, addr, w);
  }

  lemma ExitLookedAt(s: System, w: nat, t: Tid, value: int)
    requires HasExited(s, w, t, value)
    ensures var s' := NextGo(s, w);
            && s' == s.(pc := s'.pc) && w in s'.pc
            && if s.d.tcb[t].joinid == Some(t) then s'.pc[w] == Dropping(t) else OnItsWay(s', w, t, TerminatedQ, 1)
  {
  }

  lemma {:induction false} DropGoesOn(s: System, more: seq<Step>, addr: Layout, w: nat, t: Tid)
    requires Inv(s, addr) && Run(s, more, addr) && w in s.pc && s.pc[w] == Dropping(t) && EndsWithStep(more, w, 1)
    ensures var e := After(s, more, addr);
            w in e.pc && e.pc[w] == Head && t !in e.d.tcb && t in e.freed && e.d.List(Q(w, RunningQ)) == []
    decreases |more|
  {
    hide Inv, Next, Free, Wants;
    RestEnds(more, w, 1);
    var b, a := more[0].w, more[0].a;
    StepKeepsInv(s, addr, b, a);
    if b == w {
      OnlyGo(s, addr, w, a);
      DropStep(s, w, t);
      assert After(s, more, addr) == Next(s, b, a);
      Mine(Next(s, b, a), addr, w);
    } else {
      OthersStay(s, addr, b, a, w);
      DropGoesOn(Next(s, b, a), more[1..], addr, w, t);
    }
  }

  lemma DropStep(s: System, w: nat, t: Tid)
    requires w in s.pc && s.pc[w] == Dropping(t)
    ensures var s' := Next(s, w, Go); w in s'.pc && s'.pc[w] == Head && t !in s'.d.tcb && t in s'.freed
  {
  }

  /** Whatever others do, an exited thread waits for its worker's next step. */
  lemma ExitReached(n: nat, main: Tid, steps: seq<Step>, addr: Layout, w: nat, t: Tid, value: int, before: seq<Step>)
    requires Acts(n, main, steps, addr, w, t, Exit(value), before) && OwnSteps(before, w) == 0
    ensures var s := Then(n, main, steps, addr, w, t, Exit(value), before); Inv(s, addr) && HasExited(s, w, t, value)
  {
    hide Inv, Init, Next, Free, Wants;
    var s0 := After(Init(n, main), steps, addr);
    ReachableHolds(n, main, steps, addr);
    ExitBegins(s0, addr, w, t, value);
    StepKeepsInv(s0, addr, w, Exit(value));
    ExitWaits(Next(s0, w, Exit(value)), before, addr, w, t, value);
  }

  /** If the thread is detached when its worker looks, one step more frees it; otherwise three steps more put it at the
      back of the terminated queue, with the value it exited with. */
  lemma ExitGoesTo(s: System, addr: Layout, w: nat, t: Tid, value: int, more: seq<Step>)
    requires Inv(s, addr) && HasExited(s, w, t, value) && Enabled(s, w, Go, addr) && Run(NextGo(s, w), more, addr)
    ensures var e := After(NextGo(s, w), more, addr);
            if s.d.tcb[t].joinid == Some(t) then
              EndsWithStep(more, w, 1) ==> w in e.pc && e.pc[w] == Head && t !in e.d.tcb && t in e.freed
            else
              EndsWithStep(more, w, 3) ==> AtBack(e, w, t, TerminatedQ) && t in e.d.tcb && e.d.tcb[t].joinArg == value
  {
    hide Inv, AtBack, NextGo, Next, Free, Wants;
    GoKeepsInv(s, addr, w);
    ExitLookedAt(s, w, t, value);
    var s1 := NextGo(s, w);
    if s.d.tcb[t].joinid == Some(t) {
      if EndsWithStep(more, w, 1) {
        DropGoesOn(s1, more, addr, w, t);
      }
    } else if EndsWithStep(more, w, 3) {
      GoesTo(s1, more, addr, w, t, TerminatedQ, 1);
      ExitsStay(s1, more, addr, t);
      RunKeepsInv(s1, more, addr);
      BackIsLive(After(s1, more, addr), addr, w, t);
    }
  }

  lemma BackIsLive(s: System, addr: Layout, w: nat, t: Tid)
    requires Inv(s, addr) && AtBack(s, w, t, TerminatedQ)
    ensures t in s.d.tcb && (t in s.exits ==> s.d.tcb[t].joinArg == s.exits[t])
  {
    QueuedOnce(s, addr, Q(w, TerminatedQ), Q(w, TerminatedQ), t);
    assert Recorded(s, t);
  }

  // ----- creating

  lemma CarriedAlone(s: System, addr: Layout, b: nat, w: nat, u: Tid)
    requires Inv(s, addr) && b in s.pc && w in s.pc && b != w && s.pc[w].Carried() == Some(u)
    ensures u in s.d.tcb && Unconcerned(s.d, s.pc[b], u) && u !in s.d.List(Q(b, WaitingQ))
  {
    hide Inv, Involves;
    InvolvedIn(s.pc[w]);
    InvolvedIn(s.pc[b]);
    InvolvedFacts(s, addr, w, u);
    Apart(s, addr, w, b, u);
    CarriedNotQueued(s, addr, w, b, u);
    assert s.pc[b].Transferring? && s.d.List(s.pc[b].m.from) != [] ==>
             s.d.List(s.pc[b].m.from)[0] in s.d.List(s.pc[b].m.from);
  }

  ghost predicate BeingCreated(s: System, w: nat, t: Tid, child: Tid, sched: nat) {
    w in s.pc && s.pc[w] == Creating(t, child) && child in s.d.tcb && s.d.tcb[child].sched == sched
  }

  lemma {:induction false} CreateGoesOn(s: System, more: seq<Step>, addr: Layout, w: nat, t: Tid, child: Tid,
                                        sched: nat)
    requires Inv(s, addr) && Run(s, more, addr) && BeingCreated(s, w, t, child, sched) && EndsWithStep(more, w, 1)
    ensures Spawned(After(s, more, addr), w, t, child, sched)
    decreases |more|
  {
    hide Inv, Next, Free, Wants, Spawned;
    RestEnds(more, w, 1);
    var b, a := more[0].w, more[0].a;
    StepKeepsInv(s, addr, b, a);
    if b == w {
      OnlyGo(s, addr, w, a);
      CreateStep(s, w, t, child, sched);
      assert After(s, more, addr) == Next(s, b, a);
    } else {
      CreateUndisturbed(s, addr, b, a, w, t, child, sched);
      CreateGoesOn(Next(s, b, a), more[1..], addr, w, t, child, sched);
    }
  }

  lemma CreateUndisturbed(s: System, addr: Layout, b: nat, a: Action, w: nat, t: Tid, child: Tid, sched: nat)
    requires Inv(s, addr) && Enabled(s, b, a, addr) && BeingCreated(s, w, t, child, sched) && b != w
    ensures BeingCreated(Next(s, b, a), w, t, child, sched)
  {
    hide Inv, Unconcerned, NextGo;
    CarriedAlone(s, addr, b, w, child);
    OthersStay(s, addr, b, a, w);
    if a.Go? {
      GoSpares(s, b, child);
    } else {
      ActSparesMost(s, addr, b, a, child);
    }
  }

  /** The child is at the back of the new queue of the scheduler it was created for, and its creator runs on. */
  ghost predicate Spawned(s: System, w: nat, t: Tid, child: Tid, sched: nat) {
    && w in s.pc && s.pc[w] == Running(t)
    && var l := s.d.List(Q(sched, NewQ));
    && l != [] && l[|l| - 1] == child && s.d.At(child).state == NEW && s.d.At(child).sched == sched
  }

  lemma CreateStep(s: System, w: nat, t: Tid, child: Tid, sched: nat)
    requires BeingCreated(s, w, t, child, sched)
    ensures Spawned(Next(s, w, Go), w, t, child, sched)
  {
  }

  /** One step of its worker after a thread has created another, the child is at the back of its scheduler's new
      queue; it was created joinable or detached, as asked. */
  lemma CreateGoesTo(n: nat, main: Tid, steps: seq<Step>, addr: Layout, w: nat, t: Tid, child: Tid, sched: nat,
                     detached: bool, more: seq<Step>)
    requires Acts(n, main, steps, addr, w, t, Create(child, sched, detached), more) && EndsWithStep(more, w, 1)
    ensures Next(After(Init(n, main), steps, addr), w, Create(child, sched, detached)).d.At(child).joinid ==
            if detached then Some(child) else None
    ensures Spawned(Then(n, main, steps, addr, w, t, Create(child, sched, detached), more), w, t, child, sched)
  {
    hide Inv, Init, Spawned;
    var s := After(Init(n, main), steps, addr);
    ReachableHolds(n, main, steps, addr);
    StepKeepsInv(s, addr, w, Create(child, sched, detached));
    CreateGoesOn(Next(s, w, Create(child, sched, detached)), more, addr, w, t, child, sched);
  }

  // ----- joining and detaching

  /** A claim succeeds exactly on another thread that nobody has claimed and that is not detached, unless that one
      joins the caller or the compare-and-swap fails spuriously; its target's state does not matter. Otherwise
      nothing changes. */
  lemma ClaimExact(s: System, addr: Layout, w: nat, t: Tid, tid: Tid, spurious: bool)
    requires Enabled(s, w, Claim(tid, spurious), addr) && s.pc[w] == Running(t)
    ensures var s' := Next(s, w, Claim(tid, spurious));
            if s.d.tcb[tid].joinid.None? && tid != t && s.d.At(t).joinid != Some(tid) && !spurious then
              && tid in s'.d.tcb && s'.d.tcb[tid].joinid == Some(t) && s'.d.At(t).joining == Some(tid)
              && s'.claims == s.claims + {tid} && s'.written == s.written + [tid] && s'.d.queues == s.d.queues
              && s'.pc == s.pc && (s'.d.tcb[tid].state == s.d.tcb[tid].state)
            else s' == s
  {
  }

  /** A detach succeeds exactly on a thread that nobody has claimed or detached. */
  lemma DetachExact(s: System, addr: Layout, w: nat, tid: Tid)
    requires Enabled(s, w, Detach(tid), addr)
    ensures var s' := Next(s, w, Detach(tid));
            if s.d.tcb[tid].joinid.None? then
              && s'.d == s.d.(tcb := s.d.tcb[tid := s.d.tcb[tid].(joinid := Some(tid))])
              && s'.detaches == s.detaches + {tid} && s'.written == s.written + [tid] && s'.pc == s.pc
            else s' == s
  {
  }

  /** The joiner t on worker w has gone j of the three steps that bring it its target. */
  ghost predicate Joining(s: System, w: nat, t: Tid, tid: Tid, j: nat) {
    && w in s.pc
    && match j
       case 0 => s.pc[w] == JoinWants(t, tid)
       case 1 => s.pc[w].JoinOwns? && s.pc[w].t == t && s.pc[w].tid == tid
       case _ => s.pc[w] == Reaping(t, tid)
  }

  /** t has its target's exit value, the target is freed, and t runs on. */
  ghost predicate Delivered(s: System, w: nat, t: Tid, tid: Tid) {
    && w in s.pc && s.pc[w] == Running(t) && s.d.At(t).joining.None?
    && tid in s.freed && tid !in s.d.tcb && tid in s.exits && tid in s.joins && s.joins[tid] == s.exits[tid]
  }

  lemma JoinStep(s: System, addr: Layout, w: nat, t: Tid, tid: Tid, j: nat)
    requires Inv(s, addr) && Enabled(s, w, Go, addr) && Joining(s, w, t, tid, j) && j <= 2
    ensures j < 2 ==> Joining(Next(s, w, Go), w, t, tid, j + 1)
    ensures j == 2 ==> Delivered(Next(s, w, Go), w, t, tid)
  {
    hide Inv, Partition, Free, Wants;
    Mine(s, addr, w);
    if j == 1 {
      JoinerFindsTarget(s, addr, w);
    }
    TargetsBooks(s, addr, w, tid);
  }

  lemma TargetsBooks(s: System, addr: Layout, w: nat, tid: Tid)
    requires Inv(s, addr) && w in s.pc && s.pc[w].Target() == Some(tid)
    ensures tid in s.d.tcb && tid in s.exits && s.exits[tid] == s.d.tcb[tid].joinArg
  {
    assert PcInv(s.d, s.n, w, s.pc[w]) && Recorded(s, tid);
  }

  lemma {:induction false} JoinGoesOn(s: System, more: seq<Step>, addr: Layout, w: nat, t: Tid, tid: Tid, j: nat)
    requires Inv(s, addr) && Run(s, more, addr) && Joining(s, w, t, tid, j) && j <= 2 && EndsWithStep(more, w, 3 - j)
    ensures Delivered(After(s, more, addr), w, t, tid)
    decreases |more|
  {
    hide Inv, Next, Free, Wants, Delivered;
    RestEnds(more, w, 3 - j);
    var b, a := more[0].w, more[0].a;
    StepKeepsInv(s, addr, b, a);
    if b == w {
      OnlyGo(s, addr, w, a);
      JoinStep(s, addr, w, t, tid, j);
      if j < 2 {
        JoinGoesOn(Next(s, b, a), more[1..], addr, w, t, tid, j + 1);
      } else {
        assert After(s, more, addr) == Next(s, b, a);
      }
    } else {
      OthersStay(s, addr, b, a, w);
      JoinGoesOn(Next(s, b, a), more[1..], addr, w, t, tid, j);
    }
  }

  /** A joiner that has claimed a thread may go on as soon as that thread has terminated, and three steps later,
      whatever others do in between, it has the value that the thread exited with. */
  lemma JoinDelivers(n: nat, main: Tid, steps: seq<Step>, addr: Layout, w: nat, t: Tid, tid: Tid, more: seq<Step>)
    requires n > 0 && Run(Init(n, main), steps, addr)
    requires var s := After(Init(n, main), steps, addr);
             w in s.pc && s.pc[w] == Running(t) && s.d.At(t).joining == Some(tid) && s.d.At(tid).state == TERMINATED
    ensures var s := After(Init(n, main), steps, addr); Enabled(s, w, Proceed, addr)
    ensures var s := After(Init(n, main), steps, addr);
            Run(Next(s, w, Proceed), more, addr) && EndsWithStep(more, w, 3) ==>
              Delivered(After(Next(s, w, Proceed), more, addr), w, t, tid)
  {
    hide Inv, Init, Delivered;
    var s := After(Init(n, main), steps, addr);
    ReachableHolds(n, main, steps, addr);
    assert Enabled(s, w, Proceed, addr);
    StepKeepsInv(s, addr, w, Proceed);
    assert Joining(Next(s, w, Proceed), w, t, tid, 0);
    if Run(Next(s, w, Proceed), more, addr) && EndsWithStep(more, w, 3) {
      JoinGoesOn(Next(s, w, Proceed), more, addr, w, t, tid, 0);
    }
  }

  // ----- stealing

  /** The first step of a steal: the back thread leaves a queue that keeps at least one, or nothing happens. */
  lemma StealTakes(s: System, addr: Layout, w: nat, v: QId)
    requires Inv(s, addr) && w in s.pc && s.pc[w] == StealWants(v)
    ensures var s', l := NextGo(s, w), s.d.List(v);
            if |l| <= 1 then s' == s.(pc := s.pc[w := Head])
            else
              && s' == s.(d := s'.d, pc := s.pc[w := StealPopped(v, l[|l| - 1])]) && s'.d.tcb == s.d.tcb
              && s'.d.List(v) == l[..|l| - 1] && forall q :: q != v ==> s'.d.List(q) == s.d.List(q)
  {
    hide Inv, Minus;
    ReadyList(s, addr, w);
  }

  /** The second and third: the thread becomes the thief's, and goes to the front of the thief's ready queue. */
  lemma StealGives(s: System, w: nat, t: Tid)
    requires w in s.pc && t in s.d.tcb
    ensures s.pc[w].StealPopped? && s.pc[w].t == t ==>
              var s' := NextGo(s, w);
              && s' == s.(d := s'.d, pc := s.pc[w := StealOwns(t)]) && s'.d.queues == s.d.queues
              && s'.d.tcb == s.d.tcb[t := s.d.tcb[t].(sched := w, state := READY)]
    ensures s.pc[w] == StealOwns(t) ==>
              var s', q := NextGo(s, w), Q(w, ReadyQ);
              && s' == s.(d := s'.d, pc := s.pc[w := StealPushed(t)])
              && s'.d.tcb == s.d.tcb[t := s.d.tcb[t].(queue := Some(q), state := READY)]
              && s'.d.List(q) == [t] + s.d.List(q) && forall r :: r != q ==> s'.d.List(r) == s.d.List(r)
    ensures s.pc[w] == StealPushed(t) ==> NextGo(s, w) == s.(pc := s.pc[w := Head])
  {
  }

  lemma ReadyList(s: System, addr: Layout, w: nat)
    requires Inv(s, addr) && w in s.pc && s.pc[w].StealWants?
    ensures var v := s.pc[w].victim;
            && s.d.Size(v) == |s.d.List(v)|
            && (s.d.List(v) != [] ==>
                  Minus(s.d.List(v), s.d.List(v)[|s.d.List(v)| - 1]) == s.d.List(v)[..|s.d.List(v)| - 1])
  {
    var v := s.pc[w].victim;
    assert PcInv(s.d, s.n, w, s.pc[w]);
    assert ListOk(s.d, v, CarriedSet(s.pc));
    if s.d.List(v) != [] {
      MinusAt(s.d.List(v), |s.d.List(v)| - 1);
    }
  }

  // ----- who waits

  /** The last way in which each thread gave up its worker. */
  ghost function Noted(s: System, step: Step, y: map<Tid, Action>): map<Tid, Action> {
    if step.w in s.pc && s.pc[step.w].Running? && (step.a.YieldReady? || step.a.YieldWait? || step.a.Exit?)
    then y[s.pc[step.w].t := step.a] else y
  }

  ghost function LastYields(s: System, steps: seq<Step>, addr: Layout, y: map<Tid, Action>): map<Tid, Action>
    requires Run(s, steps, addr)
    decreases |steps|
  {
    if steps == [] then y
    else LastYields(Next(s, steps[0].w, steps[0].a), steps[1..], addr, Noted(s, steps[0], y))
  }

  predicate Waited(y: map<Tid, Action>, t: Tid) {
    t in y && y[t] == YieldWait
  }

  /** The worker at p is taking t, or has found t, on its way to the waiting queue. */
  predicate TakesToWait(d: Data, p: Pc, t: Tid) {
    || (p == Back(t) && t in d.tcb && !d.tcb[t].exited && d.tcb[t].state == WAITING)
    || (p.Transferring? && p.m.th == Some(t) && p.m.to.kind == WaitingQ)
  }

  ghost predicate WaitersWaited(s: System, y: map<Tid, Action>) {
    && (forall q: QId, t :: q.kind == WaitingQ && t in s.d.List(q) ==> Waited(y, t))
    && forall w, t :: w in s.pc && TakesToWait(s.d, s.pc[w], t) ==> Waited(y, t)
  }

  /** Only a transfer to a waiting queue puts a thread there. */
  lemma AdvanceToWaiting(d: Data, n: nat, w: nat, p: Pc, q: QId, t: Tid)
    requires PcInv(d, n, w, p) && q.kind == WaitingQ && t in Advance(d, w, p).0.List(q)
    ensures t in d.List(q) || TakesToWait(d, p, t)
  {
    forall r: QId, u: Tid
      ensures forall x :: x in Minus(d.List(r), u) ==> x in d.List(r)
    {
      MinusWithin(d.List(r), u);
    }
  }

  lemma GoToWaiting(s: System, w: nat, q: QId, t: Tid)
    requires w in s.pc && PcInv(s.d, s.n, w, s.pc[w]) && q.kind == WaitingQ && t in NextGo(s, w).d.List(q)
    ensures t in s.d.List(q) || TakesToWait(s.d, s.pc[w], t)
  {
    hide Advance, PcInv, TakesToWait;
    if s.pc[w].Dropping? {
      assert q != Q(w, RunningQ);
    } else if !s.pc[w].Reaping? {
      AdvanceToWaiting(s.d, s.n, w, s.pc[w], q, t);
    }
  }

  lemma ActToWaiting(s: System, addr: Layout, w: nat, a: Action, q: QId)
    requires Enabled(s, w, a, addr) && !a.Go?
    ensures Next(s, w, a).d.List(q) == s.d.List(q)
  {
    hide NextGo, Free, Wants;
  }

  /** The worker's own step: it takes a thread to wait only if it did before, or the thread has just asked to. */
  lemma OwnTakes(s: System, addr: Layout, w: nat, a: Action, t: Tid)
    requires Enabled(s, w, a, addr) && PcInv(s.d, s.n, w, s.pc[w])
    requires var s' := Next(s, w, a); w in s'.pc && TakesToWait(s'.d, s'.pc[w], t)
    ensures TakesToWait(s.d, s.pc[w], t) || (a == YieldWait && s.pc[w] == Running(t))
  {
    hide Free, Wants, Data.Transfer, Data.Push, Data.Remove;
  }

  lemma RunningNotQueued(s: System, addr: Layout, w: nat, t: Tid)
    requires Inv(s, addr) && w in s.pc && s.pc[w] == Running(t)
    ensures forall q: QId :: q.kind == WaitingQ ==> t !in s.d.List(q)
    ensures forall b :: b in s.pc ==> !TakesToWait(s.d, s.pc[b], t)
  {
    Mine(s, addr, w);
    forall q: QId | q.kind == WaitingQ
      ensures t !in s.d.List(q)
    {
      QueuedOnce(s, addr, Q(w, RunningQ), q, t);
    }
    forall b | b in s.pc
      ensures !TakesToWait(s.d, s.pc[b], t)
    {
      if b != w {
        MineAlone(s, addr, b, w, t);
      }
    }
  }

  lemma NotedStill(s: System, addr: Layout, step: Step, y: map<Tid, Action>, t: Tid)
    requires Inv(s, addr) && Waited(y, t)
    requires || (exists q: QId :: q.kind == WaitingQ && t in s.d.List(q))
             || (exists b :: b in s.pc && TakesToWait(s.d, s.pc[b], t))
    ensures Waited(Noted(s, step, y), t)
  {
    if step.w in s.pc && s.pc[step.w] == Running(t) {
      RunningNotQueued(s, addr, step.w, t);
    }
  }

  lemma StepWaited(s: System, addr: Layout, w: nat, a: Action, y: map<Tid, Action>)
    requires Inv(s, addr) && Enabled(s, w, a, addr) && WaitersWaited(s, y)
    ensures WaitersWaited(Next(s, w, a), Noted(s, Step(w, a), y))
  {
    var s', y' := Next(s, w, a), Noted(s, Step(w, a), y);
    Mine(s, addr, w);
    hide Inv, Next, Noted, TakesToWait, Waited, PcInv, Partition;
    forall q: QId, t | q.kind == WaitingQ && t in s'.d.List(q)
      ensures Waited(y', t)
    {
      FromWaiting(s, addr, w, a, q, t);
      NotedStill(s, addr, Step(w, a), y, t);
    }
    forall b, t | b in s'.pc && TakesToWait(s'.d, s'.pc[b], t)
      ensures Waited(y', t)
    {
      TakenFrom(s, addr, w, a, b, t);
      if a == YieldWait && b == w && s.pc[w] == Running(t) {
        JustNoted(s, w, y, t);
      } else {
        NotedStill(s, addr, Step(w, a), y, t);
      }
    }
  }

  lemma JustNoted(s: System, w: nat, y: map<Tid, Action>, t: Tid)
    requires w in s.pc && s.pc[w] == Running(t)
    ensures Waited(Noted(s, Step(w, YieldWait), y), t)
  {
  }

  lemma FromWaiting(s: System, addr: Layout, w: nat, a: Action, q: QId, t: Tid)
    requires Enabled(s, w, a, addr) && PcInv(s.d, s.n, w, s.pc[w]) && q.kind == WaitingQ && t in Next(s, w, a).d.List(q)
    ensures t in s.d.List(q) || TakesToWait(s.d, s.pc[w], t)
  {
    hide NextGo, PcInv, TakesToWait;
    if a.Go? {
      GoToWaiting(s, w, q, t);
    } else {
      ActToWaiting(s, addr, w, a, q);
    }
  }

  lemma TakenFrom(s: System, addr: Layout, w: nat, a: Action, b: nat, t: Tid)
    requires Inv(s, addr) && Enabled(s, w, a, addr)
    requires var s' := Next(s, w, a); b in s'.pc && TakesToWait(s'.d, s'.pc[b], t)
    ensures b in s.pc
    ensures TakesToWait(s.d, s.pc[b], t) || (a == YieldWait && b == w && s.pc[w] == Running(t))
  {
    hide Inv, Next, Free, Wants;
    Mine(s, addr, w);
    SamePcs(s, addr, w, a);
    if b == w {
      OwnTakes(s, addr, w, a, t);
    } else {
      OthersStay(s, addr, w, a, b);
      if s.pc[b] == Back(t) {
        OthersSpare(s, addr, w, a, b, t);
      }
    }
  }

  lemma {:induction false} RunWaited(s: System, steps: seq<Step>, addr: Layout, y: map<Tid, Action>)
    requires Inv(s, addr) && Run(s, steps, addr) && WaitersWaited(s, y)
    ensures WaitersWaited(After(s, steps, addr), LastYields(s, steps, addr, y))
    decreases |steps|
  {
    hide Inv, Next, WaitersWaited;
    if steps != [] {
      StepWaited(s, addr, steps[0].w, steps[0].a, y);
      StepKeepsInv(s, addr, steps[0].w, steps[0].a);
      RunWaited(Next(s, steps[0].w, steps[0].a), steps[1..], addr, Noted(s, steps[0], y));
    }
  }

  /** In every reachable state, a thread in a waiting queue gave up its worker last by asking to wait. */
  lemma OnlyWaitersWait(n: nat, main: Tid, steps: seq<Step>, addr: Layout, w: nat, t: Tid)
    requires n > 0 && Run(Init(n, main), steps, addr)
    ensures t in After(Init(n, main), steps, addr).d.List(Q(w, WaitingQ)) ==>
              Waited(LastYields(Init(n, main), steps, addr, map[]), t)
  {
    hide Inv;
    InitHolds(n, main, addr);
    NobodyWaitsYet(n, main);
    hide Init;
    RunWaited(Init(n, main), steps, addr, map[]);
  }

  lemma NobodyWaitsYet(n: nat, main: Tid)
    requires n > 0
    ensures WaitersWaited(Init(n, main), map[])
  {
    InitLists(n, main);
  }
}
