/** core/apth_cond.c: condition variables, coupled with the mutex their waiters release and re-acquire. */
module CondProtocol {
  import opened Basics
  import opened WaitQueue
  import M = MutexProtocol

  /** Where a thread stands inside apth_cond_wait or apth_cond_timedwait; `depth` is the lock_count it called with,
      `ret` what it will return and `k` the waiter it had. */
  datatype Pc =
    | Enqueued(depth: nat)
    | Sleeping(depth: nat)
    | Relock(depth: nat, ret: M.Ret, k: nat)
    | Relocking(depth: nat, ret: M.Ret, k: nat)

  /** A condition variable, the mutex used with it, and the threads inside a wait. */
  datatype System = System(mutex: M.Mutex, wait: Queue, pc: map<Tid, Pc>)

  function Init(kind: M.Kind): System {
    System(M.Init(kind), EMPTY, map[])
  }

  datatype Step =
    | OnMutex(s: M.Step)
    | WaitEnqueue(t: Tid, timed: bool)
    | WaitRelease(t: Tid)
    | WaitWake(t: Tid)
    | WaitRelock(t: Tid)
    | WaitReturn(t: Tid)
    | Signal(t: Tid)
    | Broadcast(t: Tid)

  /** t is not inside a wait and not blocked on the mutex. */
  predicate Running(c: System, t: Tid) {
    t !in c.pc && t !in c.mutex.wait.at
  }

  predicate Enabled(c: System, s: Step) {
    match s
    case OnMutex(ms) => ms.t !in c.pc && M.Enabled(c.mutex, ms)
    case WaitEnqueue(t, _) => Running(c, t)
    case WaitRelease(t) => t in c.pc && c.pc[t].Enqueued? && M.Enabled(c.mutex, M.DoUnlock(t))
    case WaitWake(t) => t in c.pc && c.pc[t].Sleeping? && c.wait.CanWake(t)
    case WaitRelock(t) => t in c.pc && c.pc[t].Relock?
    case WaitReturn(t) => t in c.pc && c.pc[t].Relocking? && c.mutex.wait.CanWake(t)
    case Signal(t) => Running(c, t) && (c.wait.queue != [] ==> c.wait.queue[0] in c.wait.nodes)
    case Broadcast(t) => Running(c, t) && forall k :: k in c.wait.queue ==> k in c.wait.nodes
  }

  /** POSIX asks of a waiter that it owns the mutex; the rest is the mutex's own rule. */
  predicate Legal(c: System, s: Step) {
    match s
    case OnMutex(ms) => M.Legal(c.mutex, ms)
    case WaitEnqueue(t, _) => c.mutex.owner == Some(t)
    case _ => true
  }

  function Next(c: System, s: Step): System
    requires Enabled(c, s)
  {
    match s
    case OnMutex(ms) => c.(mutex := M.Next(c.mutex, ms))
    case WaitEnqueue(t, timed) =>
      c.(wait := c.wait.Enqueue(t, timed), pc := c.pc[t := Enqueued(c.mutex.count)])
    case WaitRelease(t) =>
      c.(mutex := c.mutex.Unlock(t).0, pc := c.pc[t := Sleeping(c.pc[t].depth)])
    case WaitWake(t) =>
      var ret := if c.wait.Ends(t) == TimedOut then M.ETIMEDOUT else M.Ok;
      c.(wait := c.wait.Resume(t), pc := c.pc[t := Relock(c.pc[t].depth, ret, c.wait.at[t])])
    case WaitRelock(t) =>
      var (m, r) := c.mutex.Lock(t, false);
      if r == M.Blocks then c.(mutex := m, pc := c.pc[t := Relocking(c.pc[t].depth, c.pc[t].ret, c.pc[t].k)])
      else c.(mutex := m, pc := c.pc - {t})
    case WaitReturn(t) =>
      c.(mutex := c.mutex.Resume(t).0, pc := c.pc - {t})
    case Signal(t) =>
      if c.wait.queue == [] then c else c.(wait := c.wait.Grant())
    case Broadcast(t) =>
      c.(wait := c.wait.GrantAll())
  }

  /** ret says whether waiter k was popped or removed itself. */
  ghost predicate Told(q: Queue, ret: M.Ret, k: nat) {
    || (ret == M.Ok && k in q.granted)
    || (ret == M.ETIMEDOUT && k in q.expired)
  }

  /** What is true of a thread inside a wait. */
  ghost predicate WaiterInv(c: System, t: Tid)
    requires t in c.pc
  {
    var depth := c.pc[t].depth;
    && (c.mutex.kind != M.Recursive ==> depth == 1)
    && 1 <= depth < UINT_RANGE
    && match c.pc[t]
       case Enqueued(_) =>
         c.mutex.owner == Some(t) && c.mutex.count == depth && t in c.wait.at && t !in c.mutex.wait.at
       case Sleeping(_) =>
         c.mutex.Held(t) == depth - 1 && t in c.wait.at && t !in c.mutex.wait.at
       case Relock(_, ret, k) =>
         c.mutex.Held(t) == depth - 1 && t !in c.wait.at && t !in c.mutex.wait.at && Told(c.wait, ret, k)
       case Relocking(_, ret, k) =>
         && depth == 1 && Told(c.wait, ret, k) && t !in c.wait.at
         && t in c.mutex.wait.at && c.mutex.wait.at[t] in c.mutex.wait.nodes
         && !c.mutex.wait.nodes[c.mutex.wait.at[t]].timed
  }

  ghost predicate Inv(c: System) {
    && c.mutex.Inv()
    && c.wait.Inv()
    && (forall t :: t in c.pc ==> WaiterInv(c, t))
    && (forall t :: t in c.wait.at ==> t in c.pc && (c.pc[t].Enqueued? || c.pc[t].Sleeping?))
  }

  /** A mutex step by one thread leaves every other thread's holdings and waits as they were, except that the
      thread it hands the mutex to gains it. */
  lemma MutexStepFrame(m: M.Mutex, s: M.Step, u: Tid)
    requires m.Inv() && M.Enabled(m, s) && M.Legal(m, s) && u != s.t
    ensures var m' := M.Next(m, s);
            && (u in m'.wait.at <==> u in m.wait.at)
            && (u in m.wait.at ==> m'.wait.at[u] == m.wait.at[u] && m'.wait.at[u] in m'.wait.nodes
                                   && m'.wait.nodes[m'.wait.at[u]].timed == m.wait.nodes[m.wait.at[u]].timed)
            && (u !in m.wait.at ==> m'.Held(u) == m.Held(u))
            && m'.kind == m.kind
  {
    if u in m.wait.at {
      var k := m.wait.at[u];
      assert k in m.wait.granted || k in m.wait.queue;
      assert m.wait.nodes[k].th == u;
    }
  }

  lemma OthersUnaffected(c: System, s: M.Step, c': System, u: Tid)
    requires Inv(c) && M.Enabled(c.mutex, s) && M.Legal(c.mutex, s) && u != s.t
    requires u in c.pc && u in c'.pc && c'.pc[u] == c.pc[u]
    requires c'.mutex == M.Next(c.mutex, s) && c'.wait == c.wait
    ensures WaiterInv(c', u)
  {
    hide Told;
    assert WaiterInv(c, u);
    MutexStepFrame(c.mutex, s, u);
    M.KeepsInvIffLegal(c.mutex, s);
    assert c.mutex.owner == Some(u) ==> c.mutex.Held(u) == c.mutex.count;
  }

  /** The mutex step that a step of the system performs, if any. */
  function MutexPart(s: Step): Option<M.Step> {
    match s
    case OnMutex(ms) => Some(ms)
    case WaitRelease(t) => Some(M.DoUnlock(t))
    case WaitRelock(t) => Some(M.DoLock(t, false))
    case WaitReturn(t) => Some(M.DoResume(t))
    case _ => None
  }

  lemma MutexPartLegal(c: System, s: Step)
    requires Inv(c) && Enabled(c, s) && Legal(c, s) && MutexPart(s).Some?
    ensures var ms := MutexPart(s).value;
            M.Enabled(c.mutex, ms) && M.Legal(c.mutex, ms) && Next(c, s).mutex == M.Next(c.mutex, ms)
  {
    if !s.OnMutex? {
      assert WaiterInv(c, s.t);
    }
  }

  /** The thread that takes the step ends up where its next program point expects it. */
  lemma OwnPart(c: System, s: Step)
    requires Inv(c) && Enabled(c, s) && Legal(c, s) && MutexPart(s).Some? && !s.OnMutex?
    ensures s.t in Next(c, s).pc ==> WaiterInv(Next(c, s), s.t)
    ensures s.t !in Next(c, s).pc ==> s.t !in Next(c, s).wait.at
  {
    var t := s.t;
    assert WaiterInv(c, t);
    assert c.mutex.Held(t) == if c.mutex.owner == Some(t) then c.mutex.count else 0;
    MutexPartLegal(c, s);
    M.KeepsInvIffLegal(c.mutex, MutexPart(s).value);
  }

  lemma MutexPartKeepsInv(c: System, s: Step)
    requires Inv(c) && Enabled(c, s) && Legal(c, s) && MutexPart(s).Some?
    ensures Inv(Next(c, s))
  {
    hide M.Mutex.Inv, Queue.Inv, WaiterInv, M.Next, M.Legal;
    var c', ms := Next(c, s), MutexPart(s).value;
    MutexPartLegal(c, s);
    M.KeepsInvIffLegal(c.mutex, ms);
    if !s.OnMutex? {
      OwnPart(c, s);
    }
    forall u | u in c'.pc && u != ms.t
      ensures WaiterInv(c', u)
    {
      OthersUnaffected(c, ms, c', u);
    }
  }

  lemma CondStepKeepsQueue(c: System, s: Step)
    requires Inv(c) && Enabled(c, s) && Legal(c, s) && MutexPart(s).None?
    ensures var c' := Next(c, s);
            && c'.wait.Inv() && c'.mutex == c.mutex
            && (forall u :: u in c.pc && u != s.t ==> u in c'.pc && c'.pc[u] == c.pc[u])
            && (forall u :: u in c'.pc && u != s.t ==> u in c.pc)
            && (forall u :: u != s.t ==> (u in c'.wait.at <==> u in c.wait.at))
            && (s.t in c'.wait.at <==> s.WaitEnqueue?)
            && (forall k :: k in c.wait.granted ==> k in c'.wait.granted) && c.wait.expired <= c'.wait.expired
  {
    match s
    case WaitEnqueue(t, timed) => EnqueueKeepsInv(c.wait, t, timed);
    case WaitWake(t) => ResumeKeepsInv(c.wait, t);
    case Signal(_) =>
      if c.wait.queue != [] {
        GrantKeepsInv(c.wait);
      }
    case Broadcast(_) =>
      GrantAllKeepsInv(c.wait);
      GrantAllWakesQueue(c.wait);
  }

  lemma CondStepKeepsInv(c: System, s: Step)
    requires Inv(c) && Enabled(c, s) && Legal(c, s) && MutexPart(s).None?
    ensures Inv(Next(c, s))
  {
    hide Queue.Inv, Queue.GrantAll, M.Mutex.Inv, Told;
    var c' := Next(c, s);
    CondStepKeepsQueue(c, s);
    ToldStill(c.wait, c'.wait);
    forall u | u in c'.pc
      ensures WaiterInv(c', u)
    {
      if u in c.pc && u != s.t {
        WaiterStays(c, c', u);
      } else if u in c.pc {
        assert WaiterInv(c, u);
        ResumeTells(c.wait, u);
      } else {
        OwnerCount(c.mutex);
      }
    }
  }

  lemma WaiterStays(c: System, c': System, u: Tid)
    requires u in c.pc && u in c'.pc && c'.pc[u] == c.pc[u] && WaiterInv(c, u) && c'.mutex == c.mutex
    requires (u in c'.wait.at <==> u in c.wait.at) && forall ret, k :: Told(c.wait, ret, k) ==> Told(c'.wait, ret, k)
    ensures WaiterInv(c', u)
  {
  }

  lemma ToldStill(q: Queue, q': Queue)
    requires (forall k :: k in q.granted ==> k in q'.granted) && q.expired <= q'.expired
    ensures forall ret, k :: Told(q, ret, k) ==> Told(q', ret, k)
  {
  }

  lemma ResumeTells(q: Queue, t: Tid)
    requires q.Inv() && q.CanWake(t)
    ensures Told(q.Resume(t), if q.Ends(t) == TimedOut then M.ETIMEDOUT else M.Ok, q.at[t])
  {
  }

  lemma OwnerCount(m: M.Mutex)
    requires m.Inv() && m.owner.Some?
    ensures 1 <= m.count < UINT_RANGE && (m.kind != M.Recursive ==> m.count == 1)
  {
  }

  lemma StepKeepsInv(c: System, s: Step)
    requires Inv(c) && Enabled(c, s) && Legal(c, s)
    ensures Inv(Next(c, s))
  {
    if MutexPart(s).Some? {
      MutexPartKeepsInv(c, s);
    } else {
      CondStepKeepsInv(c, s);
    }
  }

  ghost predicate Run(c: System, steps: seq<Step>)
    decreases |steps|
  {
    steps == [] || (Enabled(c, steps[0]) && Legal(c, steps[0]) && Run(Next(c, steps[0]), steps[1..]))
  }

  ghost function After(c: System, steps: seq<Step>): System
    requires Run(c, steps)
    decreases |steps|
  {
    if steps == [] then c else After(Next(c, steps[0]), steps[1..])
  }

  lemma {:induction false} RunKeepsInv(c: System, steps: seq<Step>)
    requires Inv(c) && Run(c, steps)
    ensures Inv(After(c, steps))
    decreases |steps|
  {
    if steps != [] {
      StepKeepsInv(c, steps[0]);
      RunKeepsInv(Next(c, steps[0]), steps[1..]);
    }
  }

  /** After any run, a step by which a wait returns leaves the caller owning the mutex as deep as it called, and
      what it returns says whether it was popped by a signal or removed itself, which exclude each other. */
  lemma WaitReturnsOwning(kind: M.Kind, steps: seq<Step>, s: Step)
    requires Run(Init(kind), steps)
    requires var c := After(Init(kind), steps);
             (s.WaitRelock? || s.WaitReturn?) && Enabled(c, s) && s.t !in Next(c, s).pc
    ensures var c := After(Init(kind), steps);
            var m, pc := Next(c, s).mutex, c.pc[s.t];
            && m.owner == Some(s.t) && m.count == pc.depth == m.Held(s.t)
            && (pc.ret == M.Ok <==> pc.k in c.wait.granted) && (pc.ret == M.ETIMEDOUT <==> pc.k in c.wait.expired)
            && (pc.ret == M.Ok || pc.ret == M.ETIMEDOUT)
  {
    var c := After(Init(kind), steps);
    RunKeepsInv(Init(kind), steps);
    assert WaiterInv(c, s.t);
    assert c.mutex.Held(s.t) == if c.mutex.owner == Some(s.t) then c.mutex.count else 0;
    MutexPartLegal(c, s);
    M.KeepsInvIffLegal(c.mutex, MutexPart(s).value);
  }

  /** A waiter lets go of the mutex exactly if it held it once: a recursive owner that holds it more often goes to sleep
      owning it. */
  lemma WaitReleasesIff(kind: M.Kind, steps: seq<Step>, t: Tid)
    requires Run(Init(kind), steps) && Enabled(After(Init(kind), steps), WaitRelease(t))
    ensures var c := After(Init(kind), steps);
            && c.mutex.owner == Some(t)
            && (Next(c, WaitRelease(t)).mutex.owner != Some(t) <==> c.pc[t].depth == 1)
  {
    var c := After(Init(kind), steps);
    RunKeepsInv(Init(kind), steps);
    assert WaiterInv(c, t);
    if c.mutex.wait.queue != [] {
      assert c.mutex.wait.Front() in c.mutex.wait.at;
    }
  }

  lemma LeavesQueueWhen(c: System, s: Step, t: Tid)
    requires Inv(c) && Enabled(c, s) && t in c.wait.at && c.wait.at[t] in c.wait.queue
    ensures c.wait.at[t] !in Next(c, s).wait.queue <==>
              || (s.Signal? && c.wait.at[t] == c.wait.queue[0])
              || s.Broadcast?
              || (s == WaitWake(t) && c.wait.nodes[c.wait.at[t]].timed)
  {
    hide M.Mutex.Inv, WaiterInv;
    match s
    case Signal(_) => FrontIsLongestWaiting(c.wait);
    case Broadcast(_) => GrantAllWakesQueue(c.wait);
    case WaitWake(u) =>
      if c.wait.at[u] in c.wait.queue {
        IncreasingPart(c.wait.granted, c.wait.queue);
        MinusOne(c.wait.queue, c.wait.at[u]);
      }
    case _ =>
  }

  /** No wake-up is lost: once queued, a waiter leaves the queue only when it is the longest-queued at a signal,
      or at a broadcast, or when its own timer has fired; until then it keeps its place. */
  lemma StaysQueued(kind: M.Kind, steps: seq<Step>, s: Step, t: Tid)
    requires Run(Init(kind), steps)
    requires var c := After(Init(kind), steps);
             Enabled(c, s) && t in c.wait.at && c.wait.at[t] in c.wait.queue
    ensures var c := After(Init(kind), steps);
            var k := c.wait.at[t];
            k !in Next(c, s).wait.queue <==>
              || (s.Signal? && k == c.wait.queue[0])
              || s.Broadcast?
              || (s == WaitWake(t) && c.wait.nodes[k].timed)
  {
    hide Inv;
    RunKeepsInv(Init(kind), steps);
    LeavesQueueWhen(After(Init(kind), steps), s, t);
  }

  /** A signal wakes exactly the longest-queued waiter, a broadcast all of them. */
  lemma WakesExactly(kind: M.Kind, steps: seq<Step>, t: Tid)
    requires Run(Init(kind), steps)
    requires Enabled(After(Init(kind), steps), Signal(t)) && Enabled(After(Init(kind), steps), Broadcast(t))
    ensures var c := After(Init(kind), steps);
            && WokenAre(c.wait, Next(c, Signal(t)).wait, c.wait.queue[..if c.wait.queue == [] then 0 else 1])
            && WokenAre(c.wait, Next(c, Broadcast(t)).wait, c.wait.queue)
            && (forall k :: k in c.wait.queue ==> c.wait.queue[0] <= k)
  {
    StartsRight(kind);
    hide Inv, Next, Enabled, WokenAre;
    RunKeepsInv(Init(kind), steps);
    WakesOf(After(Init(kind), steps), t);
  }

  lemma StartsRight(kind: M.Kind)
    ensures Inv(Init(kind))
  {
  }

  lemma WakesOf(c: System, t: Tid)
    requires Inv(c) && Enabled(c, Signal(t)) && Enabled(c, Broadcast(t))
    ensures WokenAre(c.wait, Next(c, Signal(t)).wait, c.wait.queue[..if c.wait.queue == [] then 0 else 1])
    ensures WokenAre(c.wait, Next(c, Broadcast(t)).wait, c.wait.queue)
    ensures forall k :: k in c.wait.queue ==> c.wait.queue[0] <= k
  {
    hide M.Mutex.Inv, Queue.Inv, Queue.GrantAll, WokenAre;
    QueueWakes(c.wait);
  }

  lemma QueueWakes(q: Queue)
    requires q.Inv()
    ensures q.queue == [] ==> WokenAre(q, q, q.queue[..0])
    ensures q.queue != [] ==> q.queue[0] in q.nodes && WokenAre(q, q.Grant(), q.queue[..1])
    ensures (forall k :: k in q.queue ==> k in q.nodes) && WokenAre(q, q.GrantAll(), q.queue)
    ensures forall k :: k in q.queue ==> q.queue[0] <= k
  {
    hide Queue.Inv, Queue.GrantAll, WokenAre;
    QueuedAreAlive(q);
    if q.queue != [] {
      FrontIsLongestWaiting(q);
      GrantWakesFront(q);
    } else {
      NobodyWoken(q);
    }
    GrantAllWakesQueue(q);
  }

  /** A recursive owner that locked twice goes to sleep owning the mutex. */
  lemma SleepsOwning(t: Tid)
    ensures var steps := [OnMutex(M.DoLock(t, false)), OnMutex(M.DoLock(t, false)), WaitEnqueue(t, false)];
            && Run(Init(M.Recursive), steps)
            && var c := After(Init(M.Recursive), steps);
            && Enabled(c, WaitRelease(t)) && Next(c, WaitRelease(t)).mutex.owner == Some(t)
            && Next(c, WaitRelease(t)).pc[t].Sleeping?
  {
    var lock := OnMutex(M.DoLock(t, false));
    var c0 := Init(M.Recursive);
    var c1 := Next(c0, lock);
    var c2 := Next(c1, lock);
    var c3 := Next(c2, WaitEnqueue(t, false));
    assert [lock, lock, WaitEnqueue(t, false)][1..] == [lock, WaitEnqueue(t, false)];
    assert [lock, WaitEnqueue(t, false)][1..] == [WaitEnqueue(t, false)];
    assert [WaitEnqueue(t, false)][1..] == [];
    assert Run(c2, [WaitEnqueue(t, false)]) && After(c2, [WaitEnqueue(t, false)]) == c3;
    assert Run(c1, [lock, WaitEnqueue(t, false)]) && After(c1, [lock, WaitEnqueue(t, false)]) == c3;
  }

  /** A wait joins the queue with a timer if asked, knowing how deep it holds the mutex; and it leaves the queue told
      that it was popped or that its timer fired, with its waiter gone. */
  lemma WaitStepsExact(c: System, s: Step)
    requires Inv(c) && Enabled(c, s)
    ensures var c' := Next(c, s);
            match s
            case WaitEnqueue(t, timed) =>
              && c' == c.(wait := c'.wait, pc := c.pc[t := Enqueued(c.mutex.count)])
              && Joined(c.wait, c'.wait, t, timed)
            case WaitWake(t) =>
              && var granted := c.wait.at[t] in c.wait.granted;
              && var ret := if granted then M.Ok else M.ETIMEDOUT;
              && c' == c.(wait := c'.wait, pc := c.pc[t := Relock(c.pc[t].depth, ret, c.wait.at[t])])
              && Left(c.wait, c'.wait, t, granted)
            case _ => true
  {
    hide M.Mutex.Inv, WaiterInv;
    match s
    case WaitEnqueue(t, timed) =>
      assert t !in c.wait.at;
      EnqueueJoins(c.wait, t, timed);
    case WaitWake(t) => ResumeLeaves(c.wait, t);
    case _ =>
  }
}
