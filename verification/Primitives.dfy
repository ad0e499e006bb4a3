/** core/apth_mutex.c, apth_cond.c, apth_rwlock.c, apth_sem.c and apth_barrier.c in place: each guard-protected
    section is a method, proved to take exactly the step that the protocol prescribes. */
module Primitives {
  import opened Basics
  import opened WaitQueue
  import opened WaiterList
  import M = MutexProtocol
  import R = RwlockProtocol
  import S = SemProtocol
  import B = BarrierProtocol

  /** A `struct apth_mutex_st`. */
  class Mutex {
    const kind: M.Kind
    var owner: Option<Tid>
    var count: nat
    const waiters: Waiters
    ghost var held: map<Tid, int>

    ghost predicate Valid()
      reads this, waiters, waiters.Repr()
    {
      waiters.Valid() && this !in waiters.Repr()
    }

    ghost function State(): M.Mutex
      reads this, waiters
    {
      M.Mutex(kind, owner, count, waiters.q, held)
    }

    constructor (k: M.Kind)
      ensures Valid() && State() == M.Init(k) && fresh(waiters.Repr())
    {
      kind, owner, count, held := k, None, 0, map[];
      waiters := new Waiters();
    }

    ghost function Held(t: Tid): int
      reads this
    {
      if t in held then held[t] else 0
    }

    /** apth_mutex_lock and apth_mutex_timedlock up to their yield. */
    method Lock(t: Tid, timed: bool) returns (ret: M.Ret, w: Waiter?)
      requires Valid() && t !in waiters.q.at
      modifies this, waiters.Repr()
      ensures fresh(waiters.Repr() - old(waiters.Repr()))
      ensures Valid() && (State(), ret) == old(State()).Lock(t, timed)
      ensures ret == M.Blocks ==> w != null && fresh(w) && waiters.Mine(t, w)
    {
      hide Waiters.Valid, Waiters.Repr;
      waiters.Alive();
      if owner == None {
        owner, count := Some(t), 1;
        held := held[t := Held(t) + 1];
        return M.Ok, null;
      }
      if owner == Some(t) {
        if kind == M.Recursive {
          count := (count + 1) % UINT_RANGE;
          held := held[t := Held(t) + 1];
          return M.Ok, null;
        }
        if kind == M.ErrorCheck {
          return M.EDEADLK, null;
        }
      }
      w := waiters.PushBack(t, timed);
      ret := M.Blocks;
    }

    /** apth_mutex_trylock. */
    method TryLock(t: Tid, contended: bool) returns (ret: M.Ret)
      requires Valid()
      modifies this
      ensures Valid() && (State(), ret) == old(State()).TryLock(t, contended)
    {
      hide Waiters.Valid, Waiters.Repr;
      if contended {
        return M.EBUSY;
      }
      if owner == None {
        owner, count := Some(t), 1;
        held := held[t := Held(t) + 1];
        return M.Ok;
      }
      if owner == Some(t) && kind == M.Recursive {
        count := (count + 1) % UINT_RANGE;
        held := held[t := Held(t) + 1];
        return M.Ok;
      }
      ret := M.EBUSY;
    }

    /** apth_mutex_unlock. */
    method Unlock(t: Tid) returns (ret: M.Ret)
      requires Valid()
      modifies this, waiters.Repr()
      ensures fresh(waiters.Repr() - old(waiters.Repr()))
      ensures Valid() && waiters.node == old(waiters.node)
      ensures old(waiters.q.queue) != [] ==> old(waiters.q.queue)[0] in old(waiters.q.nodes)
      ensures (State(), ret) == old(State()).Unlock(t)
    {
      hide Waiters.Valid, Waiters.Repr;
      waiters.Alive();
      if kind == M.ErrorCheck && owner != Some(t) {
        return M.EPERM;
      }
      held := held[t := Held(t) - 1];
      if kind == M.Recursive && count > 1 {
        count := count - 1;
        return M.Ok;
      }
      if waiters.IsEmpty() {
        owner, count := None, 0;
        return M.Ok;
      }
      var w := waiters.PopFront();
      owner, count := Some(w.th), 1;
      held := held[w.th := Held(w.th) + 1];
      ret := M.Ok;
    }

    /** What follows the yield of a lock that had to wait. */
    method Resume(t: Tid, w: Waiter) returns (ret: M.Ret)
      requires Valid() && waiters.q.CanWake(t) && waiters.Mine(t, w)
      modifies waiters.Repr()
      ensures fresh(waiters.Repr() - old(waiters.Repr()))
      ensures Valid() && (State(), ret) == old(State()).Resume(t)
    {
      hide Waiters.Valid, Waiters.Repr;
      waiters.Alive();
      var e := waiters.Settle(t, w);
      ret := if e == TimedOut then M.ETIMEDOUT else M.Ok;
    }
  }

  /** A `struct apth_cond_st`. */
  class Cond {
    const waiters: Waiters

    ghost predicate Valid()
      reads waiters, waiters.Repr()
    {
      waiters.Valid() && this !in waiters.Repr()
    }

    constructor ()
      ensures Valid() && waiters.q == EMPTY && fresh(waiters.Repr())
    {
      waiters := new Waiters();
    }

    /** apth_cond_wait and apth_cond_timedwait join the queue before they release the mutex. */
    method WaitEnqueue(t: Tid, timed: bool) returns (w: Waiter)
      requires Valid() && t !in waiters.q.at
      modifies waiters.Repr()
      ensures fresh(waiters.Repr() - old(waiters.Repr()))
      ensures Valid() && waiters.q == old(waiters.q).Enqueue(t, timed) && fresh(w) && waiters.Mine(t, w)
    {
      hide Waiters.Valid, Waiters.Repr;
      waiters.Alive();
      w := waiters.PushBack(t, timed);
    }

    /** What follows their yield, before the mutex is taken again. */
    method WaitWake(t: Tid, w: Waiter) returns (ret: M.Ret)
      requires Valid() && waiters.q.CanWake(t) && waiters.Mine(t, w)
      modifies waiters.Repr()
      ensures fresh(waiters.Repr() - old(waiters.Repr()))
      ensures Valid() && waiters.q == old(waiters.q).Resume(t)
      ensures ret == if old(waiters.q).Ends(t) == TimedOut then M.ETIMEDOUT else M.Ok
    {
      hide Waiters.Valid, Waiters.Repr;
      waiters.Alive();
      var e := waiters.Settle(t, w);
      ret := if e == TimedOut then M.ETIMEDOUT else M.Ok;
    }

    /** apth_cond_signal. */
    method Signal()
      requires Valid()
      modifies waiters.Repr()
      ensures fresh(waiters.Repr() - old(waiters.Repr()))
      ensures Valid() && waiters.node == old(waiters.node)
      ensures old(waiters.q.queue) == [] ==> waiters.q == old(waiters.q)
      ensures old(waiters.q.queue) != [] ==>
                old(waiters.q.queue)[0] in old(waiters.q.nodes) && waiters.q == old(waiters.q).Grant()
    {
      hide Waiters.Valid, Waiters.Repr;
      waiters.Alive();
      if !waiters.IsEmpty() {
        var w := waiters.PopFront();
      }
    }

    /** apth_cond_broadcast. */
    method Broadcast()
      requires Valid()
      modifies waiters.Repr()
      ensures fresh(waiters.Repr() - old(waiters.Repr()))
      ensures Valid() && waiters.node == old(waiters.node)
      ensures forall k :: k in old(waiters.q.queue) ==> k in old(waiters.q.nodes)
      ensures waiters.q == old(waiters.q).GrantAll()
    {
      hide Waiters.Valid, Waiters.Repr;
      waiters.PopAll();
    }
  }

  /** A `struct apth_sem_st`. */
  class Semaphore {
    var value: nat
    const waiters: Waiters
    ghost var initial: nat
    ghost var posts: nat
    ghost var taken: nat
    ghost var wraps: nat

    ghost predicate Valid()
      reads this, waiters, waiters.Repr()
    {
      waiters.Valid() && this !in waiters.Repr()
    }

    ghost function State(): S.Sem
      reads this, waiters
    {
      S.Sem(value, waiters.q, initial, posts, taken, wraps)
    }

    constructor (v: nat)
      ensures Valid() && State() == S.Init(v) && fresh(waiters.Repr())
    {
      value, initial, posts, taken, wraps := v, v, 0, 0, 0;
      waiters := new Waiters();
    }

    /** apth_sem_wait and apth_sem_timedwait up to their yield. */
    method Wait(t: Tid, timed: bool) returns (ret: S.Ret, w: Waiter?)
      requires Valid() && t !in waiters.q.at
      modifies this, waiters.Repr()
      ensures fresh(waiters.Repr() - old(waiters.Repr()))
      ensures Valid() && (State(), ret) == old(State()).Wait(t, timed)
      ensures ret == S.Blocks ==> w != null && fresh(w) && waiters.Mine(t, w)
    {
      hide Waiters.Valid, Waiters.Repr;
      waiters.Alive();
      if value > 0 {
        value, taken := value - 1, taken + 1;
        return S.Ok, null;
      }
      w := waiters.PushBack(t, timed);
      ret := S.Blocks;
    }

    /** apth_sem_trywait. */
    method TryWait(contended: bool) returns (ret: S.Ret)
      requires Valid()
      modifies this
      ensures Valid() && (State(), ret) == old(State()).TryWait(contended)
    {
      hide Waiters.Valid, Waiters.Repr;
      if contended || value == 0 {
        return S.EAGAIN;
      }
      value, taken := value - 1, taken + 1;
      ret := S.Ok;
    }

    /** apth_sem_post. */
    method Post()
      requires Valid()
      modifies this, waiters.Repr()
      ensures fresh(waiters.Repr() - old(waiters.Repr()))
      ensures Valid() && waiters.node == old(waiters.node)
      ensures old(waiters.q.queue) != [] ==> old(waiters.q.queue)[0] in old(waiters.q.nodes)
      ensures State() == old(State()).Post()
    {
      hide Waiters.Valid, Waiters.Repr;
      waiters.Alive();
      posts := posts + 1;
      if !waiters.IsEmpty() {
        var w := waiters.PopFront();
      } else {
        wraps := if value == UINT_RANGE - 1 then wraps + 1 else wraps;
        value := (value + 1) % UINT_RANGE;
      }
    }

    method Resume(t: Tid, w: Waiter) returns (ret: S.Ret)
      requires Valid() && waiters.q.CanWake(t) && waiters.Mine(t, w)
      modifies waiters.Repr()
      ensures fresh(waiters.Repr() - old(waiters.Repr()))
      ensures Valid() && (State(), ret) == old(State()).Resume(t)
    {
      hide Waiters.Valid, Waiters.Repr;
      waiters.Alive();
      var e := waiters.Settle(t, w);
      ret := if e == TimedOut then S.ETIMEDOUT else S.Ok;
    }
  }

  /** A `struct apth_barrier_st`. */
  class Barrier {
    const threshold: nat
    var count: nat
    var generation: nat
    const waiters: Waiters
    ghost var openings: nat
    ghost var arrivals: nat
    ghost var serials: seq<nat>
    ghost var gen: map<nat, nat>

    ghost predicate Valid()
      reads this, waiters, waiters.Repr()
    {
      waiters.Valid() && this !in waiters.Repr()
    }

    ghost function State(): B.Barrier
      reads this, waiters
    {
      B.Barrier(threshold, count, generation, waiters.q, openings, arrivals, serials, gen)
    }

    constructor (n: nat)
      requires n > 0
      ensures Valid() && B.Init(n) == Some(State()) && fresh(waiters.Repr())
    {
      threshold, count, generation, openings, arrivals, serials, gen := n, 0, 0, 0, 0, [], map[];
      waiters := new Waiters();
    }

    /** apth_barrier_wait up to its yield. */
    method Arrive(t: Tid) returns (ret: B.Ret, w: Waiter?)
      requires Valid() && t !in waiters.q.at
      modifies this, waiters.Repr()
      ensures fresh(waiters.Repr() - old(waiters.Repr()))
      ensures Valid()
      ensures forall k :: k in old(waiters.q.queue) ==> k in old(waiters.q.nodes)
      ensures (State(), ret) == old(State()).Arrive(t)
      ensures ret == B.Blocks ==> w != null && fresh(w) && waiters.Mine(t, w)
    {
      hide Waiters.Valid, Waiters.Repr;
      waiters.Alive();
      var arrived := count + 1;
      if arrived == threshold {
        waiters.PopAll();
        count, generation := 0, B.Wrapped(generation + 1);
        serials, openings, arrivals := serials + [openings], openings + 1, arrivals + 1;
        return B.Serial, null;
      }
      ghost var k := waiters.q.next;
      w := waiters.PushBack(t, false);
      count, arrivals, gen := arrived, arrivals + 1, gen[k := openings];
      ret := B.Blocks;
    }

    method Leave(t: Tid, w: Waiter)
      requires Valid() && waiters.q.CanWake(t) && waiters.Mine(t, w)
      modifies waiters.Repr()
      ensures fresh(waiters.Repr() - old(waiters.Repr()))
      ensures Valid() && State() == old(State()).Leave(t)
    {
      hide Waiters.Valid, Waiters.Repr;
      waiters.Alive();
      var e := waiters.Settle(t, w);
    }
  }

  lemma HandsOn(l: R.Rwlock)
    requires R.Queued(l.rd) && l.rd.queue != []
    ensures l.HandToReaders() == l.(readers := l.readers + 1, rd := l.rd.Grant(),
                                    rdHolders := l.rdHolders + multiset{l.rd.Front()}).HandToReaders()
  {
  }

  lemma HandsNoMore(l: R.Rwlock)
    requires R.Queued(l.rd) && l.rd.queue == []
    ensures l.HandToReaders() == l
  {
  }

  lemma UnlockUnfolded(l: R.Rwlock, t: Tid)
    requires R.Queued(l.rd) && R.Queued(l.wr)
    ensures l.writers > 0 ==>
              var released := l.(writers := 0, wrHolders := l.wrHolders - multiset{t});
              l.Unlock(t) == if l.wr.queue != [] then released.HandToWriter() else released.HandToReaders()
    ensures l.writers <= 0 && l.readers > 0 ==>
              var released := l.(readers := l.readers - 1, rdHolders := l.rdHolders - multiset{t});
              l.Unlock(t) == if released.readers == 0 && l.wr.queue != [] then released.HandToWriter() else released
  {
  }

  /** A `struct apth_rwlock_st`. */
  class Rwlock {
    var readers: int
    var writers: int
    var waitingWriters: int
    const rd: Waiters
    const wr: Waiters
    ghost var rdHolders: multiset<Tid>
    ghost var wrHolders: multiset<Tid>

    ghost predicate Valid()
      reads this, rd, wr, rd.Repr(), wr.Repr()
    {
      rd.Valid() && wr.Valid() && rd.Repr() !! wr.Repr() && this !in rd.Repr() && this !in wr.Repr()
    }

    ghost function State(): R.Rwlock
      reads this, rd, wr
    {
      R.Rwlock(readers, writers, waitingWriters, rd.q, wr.q, rdHolders, wrHolders)
    }

    constructor ()
      ensures Valid() && State() == R.Init() && fresh(rd.Repr()) && fresh(wr.Repr())
    {
      hide Waiters.Valid;
      readers, writers, waitingWriters, rdHolders, wrHolders := 0, 0, 0, multiset{}, multiset{};
      var r := new Waiters();
      r.Alive();
      rd := r;
      wr := new Waiters();
    }

    /** apth_rwlock_rdlock and apth_rwlock_timedrdlock up to their yield. */
    method RdLock(t: Tid, timed: bool) returns (ret: R.Ret, w: Waiter?)
      requires Valid() && t !in rd.q.at
      modifies this, rd.Repr()
      ensures Valid() && (State(), ret) == old(State()).RdLock(t, timed) && fresh(rd.Repr() - old(rd.Repr()))
      ensures ret == R.Blocks ==> w != null && fresh(w) && rd.Mine(t, w)
    {
      hide Waiters.Valid, Waiters.Repr;
      rd.Alive();
      wr.Alive();
      if writers == 0 && waitingWriters == 0 {
        readers, rdHolders := readers + 1, rdHolders + multiset{t};
        return R.Ok, null;
      }
      w := rd.PushBack(t, timed);
      ret := R.Blocks;
    }

    /** apth_rwlock_tryrdlock. */
    method TryRdLock(t: Tid, contended: bool) returns (ret: R.Ret)
      requires Valid()
      modifies this
      ensures Valid() && (State(), ret) == old(State()).TryRdLock(t, contended)
    {
      hide Waiters.Valid, Waiters.Repr;
      rd.Alive();
      wr.Alive();
      if contended || writers > 0 || waitingWriters > 0 {
        return R.EBUSY;
      }
      readers, rdHolders := readers + 1, rdHolders + multiset{t};
      ret := R.Ok;
    }

    /** apth_rwlock_wrlock and apth_rwlock_timedwrlock up to their yield. */
    method WrLock(t: Tid, timed: bool) returns (ret: R.Ret, w: Waiter?)
      requires Valid() && t !in wr.q.at
      modifies this, wr.Repr()
      ensures Valid() && (State(), ret) == old(State()).WrLock(t, timed) && fresh(wr.Repr() - old(wr.Repr()))
      ensures ret == R.Blocks ==> w != null && fresh(w) && wr.Mine(t, w)
    {
      hide Waiters.Valid, Waiters.Repr;
      rd.Alive();
      wr.Alive();
      if readers == 0 && writers == 0 {
        writers, wrHolders := 1, wrHolders + multiset{t};
        return R.Ok, null;
      }
      w := wr.PushBack(t, timed);
      waitingWriters := waitingWriters + 1;
      ret := R.Blocks;
    }

    /** apth_rwlock_trywrlock. */
    method TryWrLock(t: Tid, contended: bool) returns (ret: R.Ret)
      requires Valid()
      modifies this
      ensures Valid() && (State(), ret) == old(State()).TryWrLock(t, contended)
    {
      hide Waiters.Valid, Waiters.Repr;
      rd.Alive();
      wr.Alive();
      if contended || readers > 0 || writers > 0 {
        return R.EBUSY;
      }
      writers, wrHolders := 1, wrHolders + multiset{t};
      ret := R.Ok;
    }

    method HandToWriter()
      requires Valid() && wr.q.queue != []
      modifies this, wr.Repr()
      ensures Valid() && rd.Repr() <= old(rd.Repr()) && wr.Repr() <= old(wr.Repr())
      ensures old(wr.q.queue)[0] in old(wr.q.nodes) && State() == old(State()).HandToWriter()
    {
      hide Waiters.Valid, Waiters.Repr;
      rd.Alive();
      wr.Alive();
      var w := wr.PopFront();
      waitingWriters := waitingWriters - 1;
      writers, wrHolders := 1, wrHolders + multiset{w.th};
    }

    method HandToReaders()
      requires Valid()
      modifies this, rd.Repr()
      ensures Valid() && rd.Repr() <= old(rd.Repr()) && wr.Repr() <= old(wr.Repr())
      ensures R.Queued(old(rd.q)) && State() == old(State()).HandToReaders()
    {
      hide Waiters.Valid, Waiters.Repr, R.Rwlock.HandToReaders;
      rd.Alive();
      wr.Alive();
      while !rd.IsEmpty()
        invariant Valid() && rd.Repr() <= old(rd.Repr()) && wr.Repr() <= old(wr.Repr())
        invariant R.Queued(rd.q)
        invariant State().HandToReaders() == old(State()).HandToReaders()
        decreases |rd.q.queue|
      {
        HandsOn(State());
        var w := rd.PopFront();
        readers, rdHolders := readers + 1, rdHolders + multiset{w.th};
        rd.Alive();
      }
      HandsNoMore(State());
    }

    method UnlockWriter(t: Tid)
      requires Valid() && writers > 0
      modifies this, rd.Repr(), wr.Repr()
      ensures Valid() && rd.Repr() <= old(rd.Repr()) && wr.Repr() <= old(wr.Repr())
      ensures R.Queued(old(rd.q)) && R.Queued(old(wr.q)) && State() == old(State()).Unlock(t)
    {
      hide Waiters.Valid, Waiters.Repr, R.Rwlock.Unlock, R.Rwlock.HandToReaders, R.Rwlock.HandToWriter;
      rd.Alive();
      wr.Alive();
      UnlockUnfolded(State(), t);
      writers, wrHolders := 0, wrHolders - multiset{t};
      if !wr.IsEmpty() {
        HandToWriter();
      } else {
        HandToReaders();
      }
    }

    method UnlockReader(t: Tid)
      requires Valid() && writers <= 0 && readers > 0
      modifies this, wr.Repr()
      ensures Valid() && rd.Repr() <= old(rd.Repr()) && wr.Repr() <= old(wr.Repr())
      ensures R.Queued(old(rd.q)) && R.Queued(old(wr.q)) && State() == old(State()).Unlock(t)
    {
      hide Waiters.Valid, Waiters.Repr, R.Rwlock.Unlock, R.Rwlock.HandToReaders, R.Rwlock.HandToWriter;
      rd.Alive();
      wr.Alive();
      UnlockUnfolded(State(), t);
      readers, rdHolders := readers - 1, rdHolders - multiset{t};
      if readers == 0 && !wr.IsEmpty() {
        HandToWriter();
      }
    }

    /** apth_rwlock_unlock. */
    method Unlock(t: Tid)
      requires Valid()
      modifies this, rd.Repr(), wr.Repr()
      ensures Valid() && rd.Repr() <= old(rd.Repr()) && wr.Repr() <= old(wr.Repr())
      ensures R.Queued(old(rd.q)) && R.Queued(old(wr.q)) && State() == old(State()).Unlock(t)
    {
      hide Waiters.Valid, Waiters.Repr;
      rd.Alive();
      wr.Alive();
      if writers > 0 {
        UnlockWriter(t);
      } else if readers > 0 {
        UnlockReader(t);
      }
    }

    /** What follows the yield of a read lock that had to wait. */
    method ResumeReader(t: Tid, w: Waiter) returns (ret: R.Ret)
      requires Valid() && rd.q.CanWake(t) && rd.Mine(t, w)
      modifies rd.Repr()
      ensures Valid() && (State(), ret) == old(State()).Resume(t)
      ensures rd.Repr() <= old(rd.Repr()) && wr.Repr() <= old(wr.Repr())
    {
      hide Waiters.Valid, Waiters.Repr;
      rd.Alive();
      wr.Alive();
      var e := rd.Settle(t, w);
      ret := if e == TimedOut then R.ETIMEDOUT else R.Ok;
    }

    /** What follows the yield of a write lock that had to wait; a writer that times out wakes nobody. */
    method ResumeWriter(t: Tid, w: Waiter) returns (ret: R.Ret)
      requires Valid() && wr.q.CanWake(t) && !rd.q.CanWake(t) && wr.Mine(t, w)
      modifies this, wr.Repr()
      ensures Valid() && (State(), ret) == old(State()).Resume(t)
      ensures rd.Repr() <= old(rd.Repr()) && wr.Repr() <= old(wr.Repr())
    {
      hide Waiters.Valid, Waiters.Repr;
      rd.Alive();
      wr.Alive();
      var e := wr.Settle(t, w);
      if e == TimedOut {
        waitingWriters := waitingWriters - 1;
      }
      ret := if e == TimedOut then R.ETIMEDOUT else R.Ok;
    }
  }
}
