/** core/apth_mutex.c as a step protocol: each guard-protected section is one atomic step, and apth_yield
    lets any other thread step. */
module MutexProtocol {
  import opened Basics
  import opened WaitQueue

  datatype Kind = Normal | ErrorCheck | Recursive

  datatype Ret = Ok | EDEADLK | EPERM | EBUSY | ETIMEDOUT | Blocks

  /** A `struct apth_mutex_st`; `held` records each thread's acquisitions minus its releases. */
  datatype Mutex = Mutex(kind: Kind, owner: Option<Tid>, count: nat, wait: Queue, held: map<Tid, int>) {

    function Held(t: Tid): int {
      if t in held then held[t] else 0
    }

    /** The mutex once t has taken a lock that nobody owned, or been handed one. */
    function OwnedBy(t: Tid): Mutex {
      this.(owner := Some(t), count := 1, held := held[t := Held(t) + 1])
    }

    /** apth_mutex_lock and apth_mutex_timedlock up to the point where they return or yield. */
    function Lock(t: Tid, timed: bool): (Mutex, Ret) {
      if owner == None then (OwnedBy(t), Ok)
      else if owner == Some(t) && kind == Recursive then
        (this.(count := (count + 1) % UINT_RANGE, held := held[t := Held(t) + 1]), Ok)
      else if owner == Some(t) && kind == ErrorCheck then (this, EDEADLK)
      else (this.(wait := wait.Enqueue(t, timed)), Blocks)
    }

    /** apth_mutex_trylock; `contended` says that the guard was taken. */
    function TryLock(t: Tid, contended: bool): (Mutex, Ret) {
      if contended then (this, EBUSY)
      else if owner == None then (OwnedBy(t), Ok)
      else if owner == Some(t) && kind == Recursive then
        (this.(count := (count + 1) % UINT_RANGE, held := held[t := Held(t) + 1]), Ok)
      else (this, EBUSY)
    }

    /** apth_mutex_unlock. */
    function Unlock(t: Tid): (Mutex, Ret)
      requires wait.queue != [] ==> wait.queue[0] in wait.nodes
    {
      var released := this.(held := held[t := Held(t) - 1]);
      if kind == ErrorCheck && owner != Some(t) then (this, EPERM)
      else if kind == Recursive && count > 1 then (released.(count := count - 1), Ok)
      else if wait.queue == [] then (released.(owner := None, count := 0), Ok)
      else (released.(wait := wait.Grant()).OwnedBy(wait.Front()), Ok)
    }

    /** A blocked thread comes back from apth_yield and settles its wait. */
    function Resume(t: Tid): (Mutex, Ret)
      requires wait.CanWake(t)
    {
      (this.(wait := wait.Resume(t)), if wait.Ends(t) == TimedOut then ETIMEDOUT else Ok)
    }

    ghost predicate Inv() {
      && wait.Inv()
      && (owner == None ==> count == 0 && wait.queue == [])
      && (owner.Some? ==> 1 <= count < UINT_RANGE && Held(owner.value) == count)
      && (kind != Recursive ==> count <= 1)
      && (forall t: Tid {:trigger Held(t)} :: Some(t) != owner ==> Held(t) == 0)
      // a thread that has been handed the mutex and has not run yet owns it
      && (forall k :: k in wait.nodes && wait.nodes[k].status == Occurred ==>
            owner == Some(wait.nodes[k].th) && count == 1)
    }
  }

  function Init(kind: Kind): Mutex {
    Mutex(kind, None, 0, EMPTY, map[])
  }

  datatype Step =
    | DoLock(t: Tid, timed: bool)
    | DoTryLock(t: Tid, contended: bool)
    | DoUnlock(t: Tid)
    | DoResume(t: Tid)

  /** Blocked threads can only come back from their yield; running threads can call anything. */
  predicate Enabled(m: Mutex, s: Step) {
    match s
    case DoResume(t) => m.wait.CanWake(t)
    case DoLock(t, _) => t !in m.wait.at
    case DoTryLock(t, _) => t !in m.wait.at
    case DoUnlock(t) => t !in m.wait.at && (m.wait.queue != [] ==> m.wait.queue[0] in m.wait.nodes)
  }

  function Next(m: Mutex, s: Step): Mutex
    requires Enabled(m, s)
  {
    match s
    case DoLock(t, timed) => m.Lock(t, timed).0
    case DoTryLock(t, contended) => m.TryLock(t, contended).0
    case DoUnlock(t) => m.Unlock(t).0
    case DoResume(t) => m.Resume(t).0
  }

  /** What the callers owe: only the owner unlocks (an ERRORCHECK mutex polices that itself), and a recursive
      owner stays below the range of lock_count. */
  predicate Legal(m: Mutex, s: Step) {
    match s
    case DoUnlock(t) => m.kind == ErrorCheck || m.owner == Some(t)
    case DoLock(t, _) => m.kind == Recursive && m.owner == Some(t) ==> m.count < UINT_RANGE - 1
    case DoTryLock(t, contended) =>
      !contended && m.kind == Recursive && m.owner == Some(t) ==> m.count < UINT_RANGE - 1
    case DoResume(t) => true
  }

  lemma UnlockKeepsInv(m: Mutex, t: Tid)
    requires m.Inv() && t !in m.wait.at && (m.kind == ErrorCheck || m.owner == Some(t))
    ensures m.Unlock(t).0.Inv()
  {
    var m' := m.Unlock(t).0;
    if m.wait.queue != [] {
      GrantKeepsInv(m.wait);
      var w := m.wait.Front();
      assert w in m.wait.at && m.Held(w) == if Some(w) == m.owner then m.count else 0;
    }
    forall u: Tid | Some(u) != m'.owner
      ensures m'.Held(u) == 0
    {
      assert m.Held(u) == if Some(u) == m.owner then m.count else 0;
    }
  }

  lemma AcquireKeepsInvIffLegal(m: Mutex, t: Tid)
    requires m.Inv() && t !in m.wait.at
    ensures m.owner == None ==> m.OwnedBy(t).Inv()
    ensures m.kind == Recursive && m.owner == Some(t) ==>
              (m.TryLock(t, false).0.Inv() <==> m.count < UINT_RANGE - 1)
  {
    assert m.owner == None ==> m.Held(t) == 0;
    forall u: Tid | u != t
      ensures m.OwnedBy(t).Held(u) == m.Held(u) == m.TryLock(t, false).0.Held(u)
    {
    }
    if m.kind == Recursive && m.owner == Some(t) && m.count < UINT_RANGE - 1 {
      assert forall k :: k in m.wait.nodes ==> m.wait.nodes[k].th != t;
    }
  }

  lemma StrangerUnlockBreaksInv(m: Mutex, t: Tid)
    requires m.Inv() && t !in m.wait.at && m.kind != ErrorCheck && m.owner != Some(t)
    ensures !m.Unlock(t).0.Inv()
  {
    assert m.Held(t) == 0;
    assert m.Unlock(t).0.Held(t) == -1;
  }

  /** Exactly the legal steps keep the invariant. */
  lemma KeepsInvIffLegal(m: Mutex, s: Step)
    requires m.Inv() && Enabled(m, s)
    ensures Next(m, s).Inv() <==> Legal(m, s)
  {
    match s
    case DoLock(t, timed) =>
      AcquireKeepsInvIffLegal(m, t);
      EnqueueKeepsInv(m.wait, t, timed);
      if m.Lock(t, timed).1 == Blocks {
        assert forall u: Tid :: m.Lock(t, timed).0.Held(u) == m.Held(u);
      }
    case DoTryLock(t, contended) =>
      AcquireKeepsInvIffLegal(m, t);
    case DoUnlock(t) =>
      if Legal(m, s) {
        UnlockKeepsInv(m, t);
      } else {
        StrangerUnlockBreaksInv(m, t);
      }
    case DoResume(t) =>
      ResumeKeepsInv(m.wait, t);
      assert forall u: Tid :: m.Resume(t).0.Held(u) == m.Held(u);
  }

  /** A run from m: each step is one that some thread can take and that its caller may take. */
  ghost predicate Run(m: Mutex, steps: seq<Step>)
    decreases |steps|
  {
    steps == [] || (Enabled(m, steps[0]) && Legal(m, steps[0]) && Run(Next(m, steps[0]), steps[1..]))
  }

  ghost function After(m: Mutex, steps: seq<Step>): Mutex
    requires Run(m, steps)
    decreases |steps|
  {
    if steps == [] then m else After(Next(m, steps[0]), steps[1..])
  }

  lemma {:induction false} RunKeepsInv(m: Mutex, steps: seq<Step>)
    requires m.Inv() && Run(m, steps)
    ensures After(m, steps).Inv()
    decreases |steps|
  {
    if steps != [] {
      KeepsInvIffLegal(m, steps[0]);
      RunKeepsInv(Next(m, steps[0]), steps[1..]);
    }
  }

  /** Mutual exclusion over every run: whoever holds the mutex is the recorded owner, holds it lock_count times,
      and is alone; a free mutex has no waiters; a waiter is queued exactly while its event is PENDING. */
  lemma MutualExclusion(kind: Kind, steps: seq<Step>, t: Tid, u: Tid)
    requires Run(Init(kind), steps)
    ensures var m := After(Init(kind), steps);
            && (m.Held(t) > 0 <==> m.owner == Some(t))
            && (m.Held(t) > 0 ==> m.Held(t) == m.count)
            && (m.Held(t) > 0 && m.Held(u) > 0 ==> t == u)
            && (m.owner == None ==> m.wait.queue == [])
            && forall k :: k in m.wait.queue <==> k in m.wait.nodes && m.wait.nodes[k].status == Pending
  {
    RunKeepsInv(Init(kind), steps);
  }

  /** Every wait that began is still pending, or was granted, or timed out, and never two of these; grants
      follow the order of arrival. */
  lemma HandOffInArrivalOrder(kind: Kind, steps: seq<Step>)
    requires Run(Init(kind), steps)
    ensures var w := After(Init(kind), steps).wait;
            && Increasing(w.granted + w.queue)
            && (forall k: nat :: k < w.next <==> k in w.granted || k in w.queue || k in w.expired)
            && (forall k :: k in w.expired ==> k !in w.granted && k !in w.queue)
  {
    RunKeepsInv(Init(kind), steps);
  }

  /** A lock call succeeds, at once or after its wait, exactly when its caller has just become an owner. */
  lemma OkMeansOwner(m: Mutex, s: Step)
    requires m.Inv() && Enabled(m, s) && Legal(m, s) && !s.DoUnlock?
    ensures var ret := match s
                       case DoLock(t, timed) => m.Lock(t, timed).1
                       case DoTryLock(t, contended) => m.TryLock(t, contended).1
                       case DoUnlock(t) => Ok
                       case DoResume(t) => m.Resume(t).1;
            && (ret == Ok ==> Next(m, s).owner == Some(s.t))
            && (ret == ETIMEDOUT ==> s.DoResume? && m.wait.at[s.t] in Next(m, s).wait.expired)
            && (ret == EDEADLK || ret == EBUSY ==> Next(m, s) == m)
  {
    KeepsInvIffLegal(m, s);
  }

  // The count at the end of its range

  function Locks(t: Tid, n: nat): seq<Step> {
    if n == 0 then [] else [DoLock(t, false)] + Locks(t, n - 1)
  }

  /** A recursive mutex that t has locked n times, with nobody waiting. */
  function LockedBy(t: Tid, n: nat): Mutex {
    Mutex(Recursive, Some(t), n, EMPTY, map[t := n])
  }

  lemma {:induction false} LocksOn(t: Tid, n: nat, more: nat)
    requires 1 <= n && n + more < UINT_RANGE
    ensures Run(LockedBy(t, n), Locks(t, more)) && After(LockedBy(t, n), Locks(t, more)) == LockedBy(t, n + more)
    decreases more
  {
    if more > 0 {
      var m := LockedBy(t, n);
      assert Locks(t, more)[1..] == Locks(t, more - 1);
      assert Next(m, DoLock(t, false)) == LockedBy(t, n + 1);
      LocksOn(t, n + 1, more - 1);
    }
  }

  /** A legal run takes the count to its maximum; one lock more makes it 0, and then one unlock frees a mutex that its
      owner still holds. */
  lemma CountWraps(t: Tid)
    ensures var steps := Locks(t, UINT_RANGE - 1);
            && Run(Init(Recursive), steps)
            && var m := After(Init(Recursive), steps);
            && m.count == UINT_RANGE - 1 && Enabled(m, DoLock(t, false)) && !Legal(m, DoLock(t, false))
            && var wrapped := m.Lock(t, false).0;
            && m.Lock(t, false).1 == Ok && wrapped.count == 0 && wrapped.owner == Some(t) && wrapped.wait.queue == []
            && var freed := wrapped.Unlock(t).0;
            && freed.owner == None && freed.Held(t) == UINT_RANGE - 1
  {
    hide Locks;
    FirstLock(t, UINT_RANGE - 1);
    LocksOn(t, 1, UINT_RANGE - 2);
  }

  lemma FirstLock(t: Tid, n: nat)
    requires n > 0
    ensures Run(LockedBy(t, 1), Locks(t, n - 1)) ==>
              && Run(Init(Recursive), Locks(t, n))
              && After(Init(Recursive), Locks(t, n)) == After(LockedBy(t, 1), Locks(t, n - 1))
  {
    assert Locks(t, n)[1..] == Locks(t, n - 1);
    assert Next(Init(Recursive), DoLock(t, false)) == LockedBy(t, 1);
  }

  // What each call answers, in terms of what it finds

  /** The mutex is t's to take: it is free, or t owns it and it is recursive. */
  predicate Takeable(m: Mutex, t: Tid) {
    m.owner == None || (m.owner == Some(t) && m.kind == Recursive)
  }

  /** t has taken the mutex once more. */
  ghost predicate Took(m: Mutex, m': Mutex, t: Tid) {
    && m'.owner == Some(t) && m'.kind == m.kind && m'.wait == m.wait
    && m'.count == (if m.owner == None then 1 else (m.count + 1) % UINT_RANGE)
    && m'.Held(t) == m.Held(t) + 1 && forall u: Tid {:trigger m'.Held(u)} :: u != t ==> m'.Held(u) == m.Held(u)
  }

  /** A lock succeeds at once exactly if the mutex is the caller's to take; an ERRORCHECK mutex refuses its owner; and
      everybody else joins the queue, with a timer if asked. */
  lemma LockAnswers(m: Mutex, t: Tid, timed: bool)
    requires m.Inv() && t !in m.wait.at
    ensures var (m', ret) := m.Lock(t, timed);
            && (ret == Ok <==> Takeable(m, t)) && (ret == Ok ==> Took(m, m', t))
            && (ret == EDEADLK <==> m.owner == Some(t) && m.kind == ErrorCheck) && (ret == EDEADLK ==> m' == m)
            && (ret == Ok || ret == EDEADLK || ret == Blocks)
            && (ret == Blocks ==> m' == m.(wait := m'.wait) && Joined(m.wait, m'.wait, t, timed))
  {
    EnqueueJoins(m.wait, t, timed);
  }

  /** A trylock succeeds exactly if the guard was free and the mutex is the caller's to take. */
  lemma TryLockAnswers(m: Mutex, t: Tid, contended: bool)
    ensures var (m', ret) := m.TryLock(t, contended);
            && ret == (if !contended && Takeable(m, t) then Ok else EBUSY)
            && (ret == Ok ==> Took(m, m', t)) && (ret == EBUSY ==> m' == m)
  {
  }

  /** An unlock is refused exactly by an ERRORCHECK mutex to a stranger. Otherwise the caller has released it once: it
      still owns it if it held it more often, and if not, the mutex is the longest-waiting thread's, or free. */
  lemma UnlockAnswers(m: Mutex, t: Tid)
    requires m.Inv() && t !in m.wait.at && (m.kind == ErrorCheck || m.owner == Some(t))
    ensures m.wait.queue != [] ==> m.wait.queue[0] in m.wait.nodes
    ensures var (m', ret) := m.Unlock(t);
            && ret == (if m.kind == ErrorCheck && m.owner != Some(t) then EPERM else Ok)
            && (ret == EPERM ==> m' == m)
            && (ret == Ok ==> m.owner == Some(t) && m'.Held(t) == m.count - 1)
            && (ret == Ok && m.count > 1 ==> m'.owner == Some(t) && m'.count == m.count - 1 && m'.wait == m.wait)
            && (ret == Ok && m.count == 1 && m.wait.queue == [] ==> m'.owner == None && m'.wait == m.wait)
            && (ret == Ok && m.count == 1 && m.wait.queue != [] ==>
                  && var next := m.wait.nodes[m.wait.queue[0]].th;
                  && m'.owner == Some(next) && m'.count == m'.Held(next) == 1 && Released(m.wait, m'.wait))
  {
    UnlockKeepsInv(m, t);
    if m.wait.queue != [] {
      GrantReleases(m.wait);
      assert m.wait.nodes[m.wait.queue[0]].th in m.wait.at;
    }
  }

  /** A lock that had to wait succeeds exactly if its waiter was granted, and then its caller owns the mutex;
      otherwise its waiter has expired. */
  lemma ResumeAnswers(m: Mutex, t: Tid)
    requires m.Inv() && m.wait.CanWake(t)
    ensures var (m', ret) := m.Resume(t);
            && ret == (if m.wait.at[t] in m.wait.granted then Ok else ETIMEDOUT)
            && m' == m.(wait := m'.wait) && Left(m.wait, m'.wait, t, ret == Ok)
            && (ret == Ok ==> m'.owner == Some(t)) && (ret == ETIMEDOUT ==> m.wait.nodes[m.wait.at[t]].timed)
  {
    ResumeLeaves(m.wait, t);
    ResumeKeepsInv(m.wait, t);
  }
}
