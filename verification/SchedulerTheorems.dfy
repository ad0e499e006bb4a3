/** The results about every run of the scheduler machine. */
module SchedulerTheorems {
  import opened Basics
  import opened ThreadQueues
  import opened Scheduler
  import opened SchedulerSafety
  import opened SchedulerSteps
  import opened SchedulerLives

  lemma GoKeepsInv(s: System, addr: Layout, w: nat)
    requires Inv(s, addr) && Enabled(s, w, Go, addr)
    ensures Inv(NextGo(s, w), addr)
  {
    hide Inv, Free, Retire, FinishMove, StealPop;
    match s.pc[w]
    case Transferring(m, locks) =>
      if locks < 2 {
        LockTaken(s, addr, w, m, locks);
      } else {
        Mine(s, addr, w);
        MoveDone(s, addr, w, m);
      }
    case StealWants(v) => StealTried(s, addr, w, v);
    case StealPopped(v, t) => StealTaken(s, addr, w, v, t);
    case StealOwns(t) => StealDelivered(s, addr, w, t);
    case StealPushed(t) => StealEnded(s, addr, w, t);
    case Back(t) => Retired(s, addr, w, t);
    case Dropping(t) => Dropped(s, addr, w, t);
    case Creating(t, child) => ChildPushed(s, addr, w, t, child);
    case JoinWants(t, tid) => OwnershipRead(s, addr, w, t, tid);
    case JoinOwns(t, tid, q) =>
      JoinerFindsTarget(s, addr, w);
      TargetRemoved(s, addr, w, t, tid, q);
    case Reaping(t, tid) => TargetFreed(s, addr, w, t, tid);
    case _ =>
  }

  lemma StepKeepsInv(s: System, addr: Layout, w: nat, a: Action)
    requires Inv(s, addr) && Enabled(s, w, a, addr)
    ensures Inv(Next(s, w, a), addr)
  {
    hide Inv, NextGo, NextClaim, NextDetach;
    match a
    case Go => GoKeepsInv(s, addr, w);
    case BeginMove(m) => MoveBegun(s, addr, w, m);
    case BeginSteal(v) => StealBegun(s, addr, w, v);
    case YieldReady => Yielded(s, addr, w, s.pc[w].t);
    case YieldWait => Yielded(s, addr, w, s.pc[w].t);
    case Exit(value) => Exited(s, addr, w, s.pc[w].t, value);
    case Create(child, sched, detached) => Created(s, addr, w, s.pc[w].t, child, sched, detached);
    case Detach(tid) => Detached(s, addr, w, s.pc[w].t, tid);
    case Claim(tid, spurious) => ClaimMade(s, addr, w, s.pc[w].t, tid, spurious);
    case Proceed => Proceeded(s, addr, w, s.pc[w].t);
  }

  const KINDS := {NewQ, ReadyQ, WaitingQ, TerminatedQ, WakedQ, RunningQ}

  function AllQueues(n: nat): set<QId> {
    set w, k | 0 <= w < n && k in KINDS :: Q(w, k)
  }

  /** The main thread waits in the new queue of worker 0, and every worker is at its loop head. */
  function Init(n: nat, main: Tid): System {
    var start := Q(0, NewQ);
    System(n,
           Data(map q | q in AllQueues(n) :: if q == start then [main] else [],
                map q | q in AllQueues(n) :: if q == start then 1 else 0,
                map[main := Tcb(Some(start), 0, NEW, None, None, false, 0)]),
           Heads(n), map[], map[], [], [], {}, {})
  }

  function Heads(n: nat): (pc: map<nat, Pc>)
    ensures forall w :: w in pc <==> 0 <= w < n
    ensures forall w :: w in pc ==> pc[w] == Head
  {
    if n == 0 then map[] else Heads(n - 1)[n - 1 := Head]
  }

  lemma EveryKind(k: Kind)
    ensures k in KINDS
  {
    match k
    case NewQ =>
    case ReadyQ =>
    case WaitingQ =>
    case TerminatedQ =>
    case WakedQ =>
    case RunningQ =>
  }

  lemma InitPartition(n: nat, main: Tid)
    requires n > 0
    ensures Partition(Init(n, main).d, n, {})
  {
    var d := Init(n, main).d;
    forall q
      ensures q in d.queues <==> q.sched < n
    {
      EveryKind(q.kind);
      assert q.sched < n ==> Q(q.sched, q.kind) in AllQueues(n);
    }
  }

  lemma InitHolds(n: nat, main: Tid, addr: Layout)
    requires n > 0
    ensures Inv(Init(n, main), addr)
  {
    hide Partition;
    var s := Init(n, main);
    InitPartition(n, main);
    assert CarriedSet(s.pc) == {};
  }

  datatype Step = Step(w: nat, a: Action)

  ghost predicate Run(s: System, steps: seq<Step>, addr: Layout)
    decreases |steps|
  {
    steps == [] ||
    (Enabled(s, steps[0].w, steps[0].a, addr) && Run(Next(s, steps[0].w, steps[0].a), steps[1..], addr))
  }

  ghost function After(s: System, steps: seq<Step>, addr: Layout): System
    requires Run(s, steps, addr)
    decreases |steps|
  {
    if steps == [] then s else After(Next(s, steps[0].w, steps[0].a), steps[1..], addr)
  }

  lemma {:induction false} RunKeepsInv(s: System, steps: seq<Step>, addr: Layout)
    requires Inv(s, addr) && Run(s, steps, addr)
    ensures Inv(After(s, steps, addr), addr)
    decreases |steps|
  {
    hide Inv, Next;
    if steps != [] {
      StepKeepsInv(s, addr, steps[0].w, steps[0].a);
      RunKeepsInv(Next(s, steps[0].w, steps[0].a), steps[1..], addr);
    }
  }

  lemma ReachableHolds(n: nat, main: Tid, steps: seq<Step>, addr: Layout)
    requires n > 0 && Run(Init(n, main), steps, addr)
    ensures Inv(After(Init(n, main), steps, addr), addr)
  {
    hide Inv, Init;
    InitHolds(n, main, addr);
    RunKeepsInv(Init(n, main), steps, addr);
  }

  // ----- no deadlock

  ghost predicate Injective(addr: Layout) {
    forall q, r :: q != r ==> addr(q) != addr(r)
  }

  /** Worker a waits for a lock that worker b holds. */
  ghost predicate WaitsFor(s: System, addr: Layout, a: nat, b: nat) {
    && a in s.pc && b in s.pc
    && Wants(a, s.pc[a], s.d, addr).Some?
    && Wants(a, s.pc[a], s.d, addr).value in Holds(b, s.pc[b], addr)
  }

  /** Waiting for a queue ranks by the queue's address, below waiting for an ownership lock, below not waiting. */
  ghost function Level(s: System, addr: Layout, a: nat): nat
    requires a in s.pc
  {
    match Wants(a, s.pc[a], s.d, addr)
    case None => 2
    case Some(OwnershipLock(_)) => 1
    case Some(QueueLock(_)) => 0
  }

  ghost function Address(s: System, addr: Layout, a: nat): int
    requires a in s.pc
  {
    match Wants(a, s.pc[a], s.d, addr)
    case Some(QueueLock(q)) => addr(q)
    case _ => 0
  }

  ghost predicate Below(s: System, addr: Layout, a: nat, b: nat)
    requires a in s.pc && b in s.pc
  {
    || Level(s, addr, a) < Level(s, addr, b)
    || (Level(s, addr, a) == Level(s, addr, b) == 0 && Address(s, addr, a) < Address(s, addr, b))
  }

  lemma WaitingClimbs(s: System, addr: Layout, a: nat, b: nat)
    requires Inv(s, addr) && Injective(addr) && WaitsFor(s, addr, a, b)
    ensures Below(s, addr, a, b)
  {
    hide Inv, Involves;
    Mine(s, addr, b);
    match Wants(a, s.pc[a], s.d, addr).value
    case QueueLock(q) =>
    case OwnershipLock(t) =>
      if !s.pc[b].StealPushed? {
        InvolvedIn(s.pc[a]);
        InvolvedIn(s.pc[b]);
        Apart(s, addr, a, b, t);
      }
  }

  ghost predicate Link(s: System, addr: Layout, walk: seq<nat>, i: nat)
    requires i + 1 < |walk|
  {
    WaitsFor(s, addr, walk[i], walk[i + 1])
  }

  lemma {:induction false} WalkClimbs(s: System, addr: Layout, walk: seq<nat>, k: nat)
    requires Inv(s, addr) && Injective(addr) && 1 <= k < |walk|
    requires forall i :: 0 <= i < |walk| - 1 ==> Link(s, addr, walk, i)
    ensures walk[0] in s.pc && walk[k] in s.pc && Below(s, addr, walk[0], walk[k])
  {
    hide Inv;
    assert Link(s, addr, walk, k - 1);
    WaitingClimbs(s, addr, walk[k - 1], walk[k]);
    if k > 1 {
      WalkClimbs(s, addr, walk, k - 1);
    }
  }

  /** In no reachable state do workers wait for each other in a circle. */
  lemma NoDeadlock(n: nat, main: Tid, steps: seq<Step>, addr: Layout, circle: seq<nat>)
    requires n > 0 && Injective(addr) && Run(Init(n, main), steps, addr)
    requires 2 <= |circle| && circle[0] == circle[|circle| - 1]
    ensures exists i :: 0 <= i < |circle| - 1 && !Link(After(Init(n, main), steps, addr), addr, circle, i)
  {
    hide Inv;
    var s := After(Init(n, main), steps, addr);
    ReachableHolds(n, main, steps, addr);
    if forall i :: 0 <= i < |circle| - 1 ==> Link(s, addr, circle, i) {
      WalkClimbs(s, addr, circle, |circle| - 1);
    }
  }

  lemma {:induction false} HighestRanked(s: System, addr: Layout, k: nat) returns (top: nat)
    requires 0 < k && forall w :: 0 <= w < k ==> w in s.pc
    ensures top < k && forall w :: 0 <= w < k ==> !Below(s, addr, top, w)
  {
    top := k - 1;
    if k > 1 {
      var rest := HighestRanked(s, addr, k - 1);
      if !Below(s, addr, rest, k - 1) {
        top := rest;
      } else {
        forall w | 0 <= w < k
          ensures !Below(s, addr, top, w)
        {
          BelowOrders(s, addr, rest, top, w);
        }
      }
    }
  }

  lemma BelowOrders(s: System, addr: Layout, a: nat, b: nat, c: nat)
    requires a in s.pc && b in s.pc && c in s.pc
    ensures !Below(s, addr, b, b)
    ensures Below(s, addr, a, b) && Below(s, addr, b, c) ==> Below(s, addr, a, c)
  {
    hide Level, Address;
  }

  /** Nobody holds the lock that a wants. */
  ghost predicate Unblocked(s: System, addr: Layout, a: nat) {
    a in s.pc && forall b :: b in s.pc ==> !WaitsFor(s, addr, a, b)
  }

  /** In every reachable state some worker is not waiting for a lock that anybody holds. */
  lemma SomebodyCanMove(n: nat, main: Tid, steps: seq<Step>, addr: Layout)
    requires n > 0 && Injective(addr) && Run(Init(n, main), steps, addr)
    ensures exists a :: Unblocked(After(Init(n, main), steps, addr), addr, a)
  {
    hide Inv;
    var s := After(Init(n, main), steps, addr);
    ReachableHolds(n, main, steps, addr);
    WorkersAre(s, addr);
    SameWorkers(Init(n, main), steps, addr);
    var top := HighestRanked(s, addr, s.n);
    forall b | b in s.pc
      ensures !WaitsFor(s, addr, top, b)
    {
      if WaitsFor(s, addr, top, b) {
        WaitingClimbs(s, addr, top, b);
      }
    }
    assert Unblocked(s, addr, top);
  }

  lemma WorkersAre(s: System, addr: Layout)
    requires Inv(s, addr)
    ensures forall w :: w in s.pc <==> 0 <= w < s.n
  {
  }

  lemma {:induction false} SameWorkers(s: System, steps: seq<Step>, addr: Layout)
    requires Run(s, steps, addr)
    ensures After(s, steps, addr).n == s.n
    decreases |steps|
  {
    if steps != [] {
      SameWorkers(Next(s, steps[0].w, steps[0].a), steps[1..], addr);
    }
  }

  // ----- threads, dispatch, join

  /** In every reachable state a live thread is in exactly one queue of exactly one scheduler, which its TCB names, or
      is carried by exactly one worker; and every queue's size is the length of its list. */
  lemma ThreadPartition(n: nat, main: Tid, steps: seq<Step>, addr: Layout, t: Tid, q: QId, r: QId, a: nat, b: nat)
    requires n > 0 && Run(Init(n, main), steps, addr)
    ensures var s := After(Init(n, main), steps, addr);
            var carriers := set w | w in s.pc && s.pc[w].Carried() == Some(t);
            && (t in s.d.tcb ==> (carriers == {} <==> exists p :: t in s.d.List(p)))
            && (t in s.d.List(q) ==>
                  t in s.d.tcb && s.d.tcb[t].queue == Some(q) && s.d.tcb[t].sched == q.sched && NoRepeats(s.d.List(q)))
            && (t in s.d.List(q) && t in s.d.List(r) ==> q == r)
            && (a in carriers && b in carriers ==> a == b)
            && s.d.Size(q) == |s.d.List(q)|
  {
    var s := After(Init(n, main), steps, addr);
    ReachableHolds(n, main, steps, addr);
    PartitionFacts(s, addr, t, q, r, a, b);
  }

  lemma PartitionFacts(s: System, addr: Layout, t: Tid, q: QId, r: QId, a: nat, b: nat)
    requires Inv(s, addr)
    ensures var carriers := set w | w in s.pc && s.pc[w].Carried() == Some(t);
            && (t in s.d.tcb ==> (carriers == {} <==> exists p :: t in s.d.List(p)))
            && (t in s.d.List(q) ==>
                  t in s.d.tcb && s.d.tcb[t].queue == Some(q) && s.d.tcb[t].sched == q.sched && NoRepeats(s.d.List(q)))
            && (t in s.d.List(q) && t in s.d.List(r) ==> q == r)
            && (a in carriers && b in carriers ==> a == b)
            && s.d.Size(q) == |s.d.List(q)|
  {
    var carriers := set w | w in s.pc && s.pc[w].Carried() == Some(t);
    if q in s.d.queues {
      assert ListOk(s.d, q, CarriedSet(s.pc));
    }
    if t in s.d.List(q) {
      QueuedOnce(s, addr, q, r, t);
    }
    if t in CarriedSet(s.pc) {
      var w :| w in s.pc && s.pc[w].Carried() == Some(t);
      assert w in carriers;
      forall p
        ensures t !in s.d.List(p)
      {
        if t in s.d.List(p) {
          QueuedOnce(s, addr, p, p, t);
        }
      }
    } else if t in s.d.tcb {
      assert Placed(s.d, t);
      assert t in s.d.List(s.d.tcb[t].queue.value);
    }
  }

  /** At its loop head a worker's running queue is empty and during a dispatch it holds exactly the current thread; the
      PANIC arms are unreachable; a thread that has exited is never on a CPU again. */
  lemma Dispatch(n: nat, main: Tid, steps: seq<Step>, addr: Layout, w: nat, t: Tid)
    requires n > 0 && Run(Init(n, main), steps, addr) && w < n
    ensures var s := After(Init(n, main), steps, addr);
            && w in s.pc && s.pc[w] != Panic
            && s.d.List(Q(w, RunningQ)) == (if s.pc[w].Cur().Some? then [s.pc[w].Cur().value] else [])
            && (s.pc[w] == Running(t) ==> t !in s.exits)
  {
    var s := After(Init(n, main), steps, addr);
    ReachableHolds(n, main, steps, addr);
    SameWorkers(Init(n, main), steps, addr);
    assert PcInv(s.d, s.n, w, s.pc[w]);
    assert Recorded(s, t);
  }

  lemma ExitOnce(s: System, addr: Layout, w: nat, a: Action, t: Tid)
    requires Inv(s, addr) && Enabled(s, w, a, addr) && t in s.exits
    ensures t in Next(s, w, a).exits && Next(s, w, a).exits[t] == s.exits[t]
  {
    if a.Exit? {
      assert PcInv(s.d, s.n, w, s.pc[w]) && Recorded(s, t);
    }
  }

  /** What a thread exited with is never overwritten. */
  lemma {:induction false} ExitsStay(s: System, steps: seq<Step>, addr: Layout, t: Tid)
    requires Inv(s, addr) && Run(s, steps, addr) && t in s.exits
    ensures t in After(s, steps, addr).exits && After(s, steps, addr).exits[t] == s.exits[t]
    decreases |steps|
  {
    hide Inv, Next;
    if steps != [] {
      var w, a := steps[0].w, steps[0].a;
      ExitOnce(s, addr, w, a, t);
      StepKeepsInv(s, addr, w, a);
      ExitsStay(Next(s, w, a), steps[1..], addr, t);
    }
  }

  /** However join, detach and exit interleave: joinid is written at most once per thread and each TCB freed at most
      once; join and detach never both succeed; a join delivers what its thread exited with. */
  lemma JoinDetachExit(n: nat, main: Tid, steps: seq<Step>, addr: Layout, t: Tid)
    requires n > 0 && Run(Init(n, main), steps, addr)
    ensures var s := After(Init(n, main), steps, addr);
            && NoRepeats(s.written) && NoRepeats(s.freed)
            && (t in s.freed ==> t !in s.d.tcb)
            && !(t in s.claims && t in s.detaches)
            && (t in s.joins ==> t in s.claims && t in s.freed && t in s.exits && s.joins[t] == s.exits[t])
  {
    ReachableHolds(n, main, steps, addr);
    assert Recorded(After(Init(n, main), steps, addr), t);
  }
}
