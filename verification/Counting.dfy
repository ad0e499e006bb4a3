/** core/apth_sem.c as a step protocol, with the books a counting semaphore must balance. */
module SemProtocol {
  import opened Basics
  import opened WaitQueue

  datatype Ret = Ok | EAGAIN | ETIMEDOUT | Blocks

  /** A `struct apth_sem_st`; `posts` and `taken` count the posts and the decrements so far, and `wraps` the posts
      that found the counter at its maximum. */
  datatype Sem = Sem(value: nat, wait: Queue, initial: nat, posts: nat, taken: nat, wraps: nat) {
    function Wait(t: Tid, timed: bool): (Sem, Ret) {
      if value > 0 then (this.(value := value - 1, taken := taken + 1), Ok)
      else (this.(wait := wait.Enqueue(t, timed)), Blocks)
    }

    function TryWait(contended: bool): (Sem, Ret) {
      if contended || value == 0 then (this, EAGAIN)
      else (this.(value := value - 1, taken := taken + 1), Ok)
    }

    function Post(): Sem
      requires wait.queue != [] ==> wait.queue[0] in wait.nodes
    {
      if wait.queue != [] then this.(wait := wait.Grant(), posts := posts + 1)
      else this.(value := (value + 1) % UINT_RANGE, posts := posts + 1,
                 wraps := if value == UINT_RANGE - 1 then wraps + 1 else wraps)
    }

    function Resume(t: Tid): (Sem, Ret)
      requires wait.CanWake(t)
    {
      (this.(wait := wait.Resume(t)), if wait.Ends(t) == TimedOut then ETIMEDOUT else Ok)
    }

    /** Acquisitions so far: decrements, and posts handed straight to a waiter. */
    function Grants(): nat {
      taken + |wait.granted|
    }

    ghost predicate Inv() {
      && wait.Inv()
      && value < UINT_RANGE
      && (value > 0 ==> wait.queue == [])
      && initial + posts == value + Grants() + UINT_RANGE * wraps
    }
  }

  function Init(value: nat): Sem {
    Sem(value, EMPTY, value, 0, 0, 0)
  }

  datatype Step = DoWait(t: Tid, timed: bool) | DoTryWait(t: Tid, contended: bool) | DoPost(t: Tid) | DoResume(t: Tid)

  predicate Enabled(s: Sem, a: Step) {
    match a
    case DoResume(t) => s.wait.CanWake(t)
    case DoPost(t) => t !in s.wait.at && (s.wait.queue != [] ==> s.wait.queue[0] in s.wait.nodes)
    case _ => a.t !in s.wait.at
  }

  function Next(s: Sem, a: Step): Sem
    requires Enabled(s, a)
  {
    match a
    case DoWait(t, timed) => s.Wait(t, timed).0
    case DoTryWait(_, contended) => s.TryWait(contended).0
    case DoPost(_) => s.Post()
    case DoResume(t) => s.Resume(t).0
  }

  lemma StepKeepsInv(s: Sem, a: Step)
    requires s.Inv() && Enabled(s, a)
    ensures Next(s, a).Inv()
  {
    match a
    case DoWait(t, timed) => EnqueueKeepsInv(s.wait, t, timed);
    case DoPost(_) =>
      if s.wait.queue != [] {
        GrantKeepsInv(s.wait);
      }
    case DoResume(t) => ResumeKeepsInv(s.wait, t);
    case _ =>
  }

  ghost predicate Run(s: Sem, steps: seq<Step>)
    decreases |steps|
  {
    steps == [] || (Enabled(s, steps[0]) && Run(Next(s, steps[0]), steps[1..]))
  }

  ghost function After(s: Sem, steps: seq<Step>): Sem
    requires Run(s, steps)
    decreases |steps|
  {
    if steps == [] then s else After(Next(s, steps[0]), steps[1..])
  }

  /** Whether some post of the run finds the counter at its maximum and nobody waiting. */
  ghost predicate Overflows(s: Sem, steps: seq<Step>)
    requires Run(s, steps)
    decreases |steps|
  {
    steps != [] && (
      || (steps[0].DoPost? && s.value == UINT_RANGE - 1 && s.wait.queue == [])
      || Overflows(Next(s, steps[0]), steps[1..]))
  }

  lemma {:induction false} RunKeepsInv(s: Sem, steps: seq<Step>)
    requires s.Inv() && Run(s, steps)
    ensures After(s, steps).Inv() && After(s, steps).initial == s.initial && s.wraps <= After(s, steps).wraps
    ensures After(s, steps).wraps == s.wraps <==> !Overflows(s, steps)
    decreases |steps|
  {
    if steps != [] {
      StepKeepsInv(s, steps[0]);
      RunKeepsInv(Next(s, steps[0]), steps[1..]);
    }
  }

  /** The posts of a run. */
  ghost function Posts(steps: seq<Step>): nat {
    if steps == [] then 0 else Posts(steps[1..]) + if steps[0].DoPost? then 1 else 0
  }

  /** The step is a wait that finds a unit, with the guard free. */
  ghost predicate Takes(s: Sem, a: Step) {
    s.value > 0 && (a.DoWait? || (a.DoTryWait? && !a.contended))
  }

  ghost function TakesIn(s: Sem, steps: seq<Step>): nat
    requires Run(s, steps)
    decreases |steps|
  {
    if steps == [] then 0 else TakesIn(Next(s, steps[0]), steps[1..]) + if Takes(s, steps[0]) then 1 else 0
  }

  lemma {:induction false} RunCounts(s: Sem, steps: seq<Step>)
    requires Run(s, steps)
    ensures After(s, steps).posts == s.posts + Posts(steps)
    ensures After(s, steps).taken == s.taken + TakesIn(s, steps)
    decreases |steps|
  {
    if steps != [] {
      RunCounts(Next(s, steps[0]), steps[1..]);
    }
  }

  /** Over every run, the initial value and the posts are the value, the waits that found a unit and the waiters that
      were granted one, exactly when no post overflows the counter; and a positive value means that nobody is
      waiting. */
  lemma Conservation(value: nat, steps: seq<Step>)
    requires value < UINT_RANGE && Run(Init(value), steps)
    ensures var s := After(Init(value), steps);
            && (value + Posts(steps) == s.value + TakesIn(Init(value), steps) + |s.wait.granted|
                <==> !Overflows(Init(value), steps))
            && (s.value > 0 ==> s.wait.queue == [])
            && Increasing(s.wait.granted + s.wait.queue)
            && (forall k :: k in s.wait.queue <==> k in s.wait.nodes && s.wait.nodes[k].status == Pending)
  {
    RunKeepsInv(Init(value), steps);
    RunCounts(Init(value), steps);
  }

  // What each call answers, in terms of what it finds

  /** A wait takes a unit exactly if there is one and otherwise joins the queue, with a timer if asked; a trywait
      takes one exactly if the guard was free too. */
  lemma WaitAnswers(s: Sem, t: Tid, timed: bool, contended: bool)
    requires s.Inv() && t !in s.wait.at
    ensures var (s', ret) := s.Wait(t, timed);
            && ret == (if s.value > 0 then Ok else Blocks)
            && (ret == Ok ==> s' == s.(value := s.value - 1, taken := s.taken + 1))
            && (ret == Blocks ==> s' == s.(wait := s'.wait) && Joined(s.wait, s'.wait, t, timed))
    ensures var (s', ret) := s.TryWait(contended);
            && ret == (if s.value > 0 && !contended then Ok else EAGAIN)
            && s' == if ret == Ok then s.(value := s.value - 1, taken := s.taken + 1) else s
  {
    EnqueueJoins(s.wait, t, timed);
  }

  /** A post goes to the longest-waiting thread, or if there is none adds a unit. */
  lemma PostExact(s: Sem)
    requires s.Inv()
    ensures s.wait.queue != [] ==> s.wait.queue[0] in s.wait.nodes
    ensures var s' := s.Post();
            && (s.wait.queue != [] ==> s'.value == s.value && Released(s.wait, s'.wait))
            && (s.wait.queue == [] ==>
                  s'.wait == s.wait && s'.value == if s.value < UINT_RANGE - 1 then s.value + 1 else 0)
  {
    if s.wait.queue != [] {
      GrantReleases(s.wait);
    }
  }

  /** A wait that had to queue succeeds exactly if its waiter was granted. */
  lemma ResumeAnswers(s: Sem, t: Tid)
    requires s.Inv() && s.wait.CanWake(t)
    ensures var (s', ret) := s.Resume(t);
            && ret == (if s.wait.at[t] in s.wait.granted then Ok else ETIMEDOUT)
            && s' == s.(wait := s'.wait) && Left(s.wait, s'.wait, t, ret == Ok)
  {
    ResumeLeaves(s.wait, t);
  }

  /** A post that overflows: one unit too many for the counter, and all units are gone. */
  lemma UnitsLost(t: Tid)
    ensures var s, steps := Init(UINT_RANGE - 1), [DoPost(t)];
            && Run(s, steps) && Overflows(s, steps) && After(s, steps).value == 0
            && UINT_RANGE - 1 + After(s, steps).posts != After(s, steps).value + After(s, steps).Grants()
  {
    var s := Init(UINT_RANGE - 1);
    assert [DoPost(t)][1..] == [];
    assert After(s.Post(), []) == s.Post();
  }
}

/** core/apth_barrier.c as a step protocol, with the books of its generations. */
module BarrierProtocol {
  import opened Basics
  import opened WaitQueue

  datatype Ret = Serial | Released | Blocks

  /** A `struct apth_barrier_st`. `openings` counts the openings, `arrivals` the calls, `serials` lists the opening
      that each serial return belongs to, and `gen` the openings each waiter found when it arrived. */
  datatype Barrier = Barrier(threshold: nat, count: nat, generation: nat, wait: Queue,
                             openings: nat, arrivals: nat, serials: seq<nat>, gen: map<nat, nat>)
  {
    function Arrive(t: Tid): (Barrier, Ret)
      requires forall k :: k in wait.queue ==> k in wait.nodes
    {
      if count + 1 == threshold then
        (this.(count := 0, generation := Wrapped(generation + 1), wait := wait.GrantAll(),
               openings := openings + 1, arrivals := arrivals + 1, serials := serials + [openings]), Serial)
      else
        (this.(count := count + 1, wait := wait.Enqueue(t, false),
               arrivals := arrivals + 1, gen := gen[wait.next := openings]), Blocks)
    }

    function Leave(t: Tid): Barrier
      requires wait.CanWake(t)
    {
      this.(wait := wait.Resume(t))
    }

    ghost predicate Inv() {
      && wait.Inv() && wait.expired == {}
      && 0 <= count < threshold && count == |wait.queue|
      && (forall k :: k in wait.nodes ==> !wait.nodes[k].timed)
      && generation == Wrapped(openings)
      && arrivals == Times(openings, threshold) + count
      && |wait.granted| == Times(openings, threshold - 1)
      && |serials| == openings && (forall i :: 0 <= i < openings ==> serials[i] == i)
      && (forall k :: k in gen <==> 0 <= k < wait.next)
      && (forall k :: k in wait.queue ==> gen[k] == openings)
      && (forall k :: k in wait.granted ==> gen[k] < openings)
    }
  }

  /** apth_barrier_init, which rejects a count of 0. */
  function Init(count: nat): Option<Barrier> {
    if count == 0 then None else Some(Barrier(count, 0, 0, EMPTY, 0, 0, [], map[]))
  }

  datatype Step = DoArrive(t: Tid) | DoLeave(t: Tid)

  predicate Enabled(b: Barrier, a: Step) {
    match a
    case DoArrive(t) => t !in b.wait.at && forall k :: k in b.wait.queue ==> k in b.wait.nodes
    case DoLeave(t) => b.wait.CanWake(t)
  }

  function Next(b: Barrier, a: Step): Barrier
    requires Enabled(b, a)
  {
    match a
    case DoArrive(t) => b.Arrive(t).0
    case DoLeave(t) => b.Leave(t)
  }

  function Wrapped(n: nat): nat {
    n % UINT_RANGE
  }

  function Times(n: nat, m: nat): nat {
    n * m
  }

  lemma OneMore(n: nat, m: nat)
    ensures Times(n + 1, m) == Times(n, m) + m
    ensures Wrapped(Wrapped(n) + 1) == Wrapped(n + 1)
  {
  }

  lemma OpeningKeepsInv(b: Barrier, t: Tid)
    requires b.Inv() && b.count + 1 == b.threshold
    ensures b.Arrive(t).0.Inv()
  {
    hide Queue.Inv, Queue.GrantAll, Times, Wrapped;
    QueuedAreAlive(b.wait);
    GrantAllKeepsInv(b.wait);
    GrantAllWakesQueue(b.wait);
    OneMore(b.openings, b.threshold);
    OneMore(b.openings, b.threshold - 1);
    var b' := b.Arrive(t).0;
    assert b'.wait.granted == b.wait.granted + b.wait.queue;
  }

  lemma BlockingKeepsInv(b: Barrier, t: Tid)
    requires b.Inv() && t !in b.wait.at && b.count + 1 != b.threshold
    ensures b.Arrive(t).0.Inv()
  {
    hide Queue.Inv, Times, Wrapped;
    QueuedAreAlive(b.wait);
    EnqueueKeepsInv(b.wait, t, false);
  }

  lemma StepKeepsInv(b: Barrier, a: Step)
    requires b.Inv() && Enabled(b, a)
    ensures Next(b, a).Inv() && Next(b, a).threshold == b.threshold
  {
    hide Barrier.Inv;
    match a
    case DoArrive(t) =>
      if b.count + 1 == b.threshold {
        OpeningKeepsInv(b, t);
      } else {
        BlockingKeepsInv(b, t);
      }
    case DoLeave(t) => LeavingKeepsInv(b, t);
  }

  lemma LeavingKeepsInv(b: Barrier, t: Tid)
    requires b.Inv() && b.wait.CanWake(t)
    ensures b.Leave(t).Inv()
  {
    hide Times, Wrapped;
    ResumeKeepsInv(b.wait, t);
  }

  ghost predicate Run(b: Barrier, steps: seq<Step>)
    decreases |steps|
  {
    steps == [] || (Enabled(b, steps[0]) && Run(Next(b, steps[0]), steps[1..]))
  }

  ghost function After(b: Barrier, steps: seq<Step>): Barrier
    requires Run(b, steps)
    decreases |steps|
  {
    if steps == [] then b else After(Next(b, steps[0]), steps[1..])
  }

  lemma {:induction false} RunKeepsInv(b: Barrier, steps: seq<Step>)
    requires b.Inv() && Run(b, steps)
    ensures After(b, steps).Inv() && After(b, steps).threshold == b.threshold
    decreases |steps|
  {
    if steps != [] {
      StepKeepsInv(b, steps[0]);
      RunKeepsInv(Next(b, steps[0]), steps[1..]);
    }
  }

  /** The calls of apth_barrier_wait in a run. */
  ghost function Arrivals(steps: seq<Step>): nat {
    if steps == [] then 0 else Arrivals(steps[1..]) + if steps[0].DoArrive? then 1 else 0
  }

  lemma {:induction false} ArrivalsCounted(b: Barrier, steps: seq<Step>)
    requires Run(b, steps)
    ensures After(b, steps).arrivals == b.arrivals + Arrivals(steps)
    decreases |steps|
  {
    if steps != [] {
      ArrivalsCounted(Next(b, steps[0]), steps[1..]);
    }
  }

  /** Over every run: arrivals are openings times the threshold plus those still waiting, every opening has exactly
      one serial return and releases threshold - 1 waiters, and a thread can leave exactly once its generation is
      full. */
  lemma Generations(count: nat, steps: seq<Step>, t: Tid)
    requires count > 0 && Run(Init(count).value, steps)
    ensures var b := After(Init(count).value, steps);
            && Arrivals(steps) == b.openings * count + b.count && b.count == |b.wait.queue| < count
            && |b.wait.granted| == b.openings * (count - 1)
            && |b.serials| == b.openings && (forall i :: 0 <= i < b.openings ==> b.serials[i] == i)
            && (t in b.wait.at ==> b.wait.at[t] in b.gen)
            && (t in b.wait.at ==> (b.wait.CanWake(t) <==> (b.gen[b.wait.at[t]] + 1) * count <= Arrivals(steps)))
  {
    hide Barrier.Inv, Queue.CanWake;
    ArrivalsCounted(Init(count).value, steps);
    StartsRight(count);
    RunKeepsInv(Init(count).value, steps);
    Balanced(After(Init(count).value, steps), t);
  }

  lemma StartsRight(count: nat)
    requires count > 0
    ensures Init(count).value.Inv()
  {
  }

  lemma Balanced(b: Barrier, t: Tid)
    requires b.Inv()
    ensures b.arrivals == b.openings * b.threshold + b.count && b.count == |b.wait.queue| < b.threshold
    ensures |b.wait.granted| == b.openings * (b.threshold - 1)
    ensures |b.serials| == b.openings && forall i :: 0 <= i < b.openings ==> b.serials[i] == i
    ensures t in b.wait.at ==>
              b.wait.at[t] in b.gen && (b.wait.CanWake(t) <==> (b.gen[b.wait.at[t]] + 1) * b.threshold <= b.arrivals)
  {
    hide Queue.Inv;
    if t in b.wait.at {
      LeavesOnceFull(b, t);
    }
  }

  lemma LeavesOnceFull(b: Barrier, t: Tid)
    requires b.Inv() && t in b.wait.at
    ensures b.wait.at[t] in b.gen
    ensures b.wait.CanWake(t) <==> Times(b.gen[b.wait.at[t]] + 1, b.threshold) <= b.arrivals
  {
    var k := b.wait.at[t];
    assert k in b.wait.granted || k in b.wait.queue;
    var g := b.gen[k];
    assert b.wait.CanWake(t) <==> k !in b.wait.queue;
    hide Queue.Inv, Times, Wrapped;
    if k in b.wait.queue {
      OneMore(g, b.threshold);
    } else {
      Ordered(g + 1, b.openings, b.threshold);
    }
  }

  lemma Ordered(n: nat, m: nat, f: nat)
    requires n <= m
    ensures Times(n, f) <= Times(m, f)
  {
  }

  /** Whether the next arrival opens the barrier, by the number of arrivals so far. */
  lemma OpensWhen(b: Barrier)
    requires b.Inv()
    ensures (b.arrivals + 1) % b.threshold == 0 <==> b.count + 1 == b.threshold
    ensures b.openings == b.arrivals / b.threshold
  {
    hide Queue.Inv;
    var n := b.arrivals;
    if b.count + 1 == b.threshold {
      assert (b.openings + 1) * b.threshold == b.openings * b.threshold + b.threshold;
      ModIs(n + 1, b.threshold, b.openings + 1, 0);
    } else {
      ModIs(n + 1, b.threshold, b.openings, b.count + 1);
    }
    DivIs(n, b.threshold, b.openings, b.count);
  }

  /** Over every run: the n-th call returns as the serial thread exactly if n is a multiple of the count, and then it
      has marked every waiter, count - 1 of them, all of its own generation. Every other call joins the queue and
      cannot leave it yet. */
  lemma ArriveAnswers(count: nat, steps: seq<Step>, t: Tid)
    requires count > 0 && Run(Init(count).value, steps) && Enabled(After(Init(count).value, steps), DoArrive(t))
    ensures var b := After(Init(count).value, steps);
            var (b', ret) := b.Arrive(t);
            && ret == (if (Arrivals(steps) + 1) % count == 0 then Serial else Blocks)
            && (ret == Serial ==>
                  && t !in b'.wait.at && b'.wait.queue == [] && WokenAre(b.wait, b'.wait, b.wait.queue)
                  && |b.wait.queue| == count - 1
                  && forall k :: k in b.wait.queue ==> k in b.gen && b.gen[k] == Arrivals(steps) / count)
            && (ret == Blocks ==>
                  && Joined(b.wait, b'.wait, t, false) && !b'.wait.CanWake(t) && b'.wait.at[t] in b'.gen
                  && b'.gen[b'.wait.at[t]] == Arrivals(steps) / count)
  {
    hide Barrier.Inv;
    StartsRight(count);
    RunKeepsInv(Init(count).value, steps);
    ArrivalsCounted(Init(count).value, steps);
    OpensWhen(After(Init(count).value, steps));
    ArriveExact(After(Init(count).value, steps), t);
  }

  lemma ArriveExact(b: Barrier, t: Tid)
    requires b.Inv() && Enabled(b, DoArrive(t))
    ensures var (b', ret) := b.Arrive(t);
            && ret == (if b.count + 1 == b.threshold then Serial else Blocks)
            && (ret == Serial ==>
                  && t !in b'.wait.at && b'.wait.queue == [] && WokenAre(b.wait, b'.wait, b.wait.queue)
                  && |b.wait.queue| == b.threshold - 1
                  && forall k :: k in b.wait.queue ==> k in b.gen && b.gen[k] == b.openings)
            && (ret == Blocks ==>
                  && Joined(b.wait, b'.wait, t, false) && !b'.wait.CanWake(t) && b'.wait.at[t] in b'.gen
                  && b'.gen[b'.wait.at[t]] == b.openings)
  {
    QueuedAreAlive(b.wait);
    EnqueueJoins(b.wait, t, false);
    GrantAllWakesQueue(b.wait);
    hide Queue.Inv, Queue.GrantAll, Times, Wrapped, WokenAre;
  }
}
