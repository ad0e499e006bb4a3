/** core/apth_rwlock.c as a step protocol: the write-preferring lock with direct hand-off and timed waits. */
module RwlockProtocol {
  import opened Basics
  import opened WaitQueue

  datatype Ret = Ok | EBUSY | ETIMEDOUT | Blocks

  /** A `struct apth_rwlock_st`; rdHolders and wrHolders record who has acquired and not yet released. */
  datatype Rwlock = Rwlock(readers: int, writers: int, waitingWriters: int, rd: Queue, wr: Queue,
                           rdHolders: multiset<Tid>, wrHolders: multiset<Tid>)
  {
    function RdLock(t: Tid, timed: bool): (Rwlock, Ret) {
      if writers == 0 && waitingWriters == 0 then
        (this.(readers := readers + 1, rdHolders := rdHolders + multiset{t}), Ok)
      else (this.(rd := rd.Enqueue(t, timed)), Blocks)
    }

    function TryRdLock(t: Tid, contended: bool): (Rwlock, Ret) {
      if contended || writers > 0 || waitingWriters > 0 then (this, EBUSY)
      else (this.(readers := readers + 1, rdHolders := rdHolders + multiset{t}), Ok)
    }

    function WrLock(t: Tid, timed: bool): (Rwlock, Ret) {
      if readers == 0 && writers == 0 then (this.(writers := 1, wrHolders := wrHolders + multiset{t}), Ok)
      else (this.(waitingWriters := waitingWriters + 1, wr := wr.Enqueue(t, timed)), Blocks)
    }

    function TryWrLock(t: Tid, contended: bool): (Rwlock, Ret) {
      if contended || readers > 0 || writers > 0 then (this, EBUSY)
      else (this.(writers := 1, wrHolders := wrHolders + multiset{t}), Ok)
    }

    /** Pop the first waiting writer and hand it the lock. */
    function HandToWriter(): Rwlock
      requires wr.queue != [] && wr.queue[0] in wr.nodes
    {
      this.(waitingWriters := waitingWriters - 1, writers := 1, wr := wr.Grant(),
            wrHolders := wrHolders + multiset{wr.Front()})
    }

    /** Pop every waiting reader, counting each in. */
    function HandToReaders(): Rwlock
      requires Queued(rd)
      decreases |rd.queue|
    {
      if rd.queue == [] then this
      else this.(readers := readers + 1, rd := rd.Grant(),
                 rdHolders := rdHolders + multiset{rd.Front()}).HandToReaders()
    }

    /** apth_rwlock_unlock, which tells readers from writers by the counters alone. */
    function Unlock(t: Tid): Rwlock
      requires Queued(rd) && Queued(wr)
    {
      if writers > 0 then
        var released := this.(writers := 0, wrHolders := wrHolders - multiset{t});
        if wr.queue != [] then released.HandToWriter() else released.HandToReaders()
      else if readers > 0 then
        var released := this.(readers := readers - 1, rdHolders := rdHolders - multiset{t});
        if released.readers == 0 && wr.queue != [] then released.HandToWriter() else released
      else this
    }

    /** A blocked thread comes back from apth_yield and settles its wait. */
    function Resume(t: Tid): (Rwlock, Ret)
      requires rd.CanWake(t) || wr.CanWake(t)
    {
      if rd.CanWake(t) then
        (this.(rd := rd.Resume(t)), if rd.Ends(t) == TimedOut then ETIMEDOUT else Ok)
      else if wr.Ends(t) == TimedOut then
        (this.(wr := wr.Resume(t), waitingWriters := waitingWriters - 1), ETIMEDOUT)
      else (this.(wr := wr.Resume(t)), Ok)
    }

    ghost predicate Inv() {
      && rd.Inv() && wr.Inv()
      && (forall t :: t in rd.at ==> t !in wr.at)
      && readers == |rdHolders| && writers == |wrHolders|
      && 0 <= writers <= 1
      && (writers > 0 ==> readers == 0)
      && waitingWriters == |wr.queue|
      && (wr.queue != [] ==> readers > 0 || writers > 0)
      && (forall k :: k in rd.nodes && rd.nodes[k].status == Occurred ==> rd.nodes[k].th in rdHolders)
      && (forall k :: k in wr.nodes && wr.nodes[k].status == Occurred ==> wr.nodes[k].th in wrHolders)
    }

    /** Queued readers have a writer to wait for. */
    ghost predicate ReadersAwaitWriter() {
      rd.queue != [] ==> writers > 0 || waitingWriters > 0
    }
  }

  /** Every queued waiter is alive. */
  predicate Queued(q: Queue) {
    forall k :: k in q.queue ==> k in q.nodes
  }

  function Init(): Rwlock {
    Rwlock(0, 0, 0, EMPTY, EMPTY, multiset{}, multiset{})
  }

  datatype Step =
    | DoRdLock(t: Tid, timed: bool)
    | DoTryRdLock(t: Tid, contended: bool)
    | DoWrLock(t: Tid, timed: bool)
    | DoTryWrLock(t: Tid, contended: bool)
    | DoUnlock(t: Tid)
    | DoResume(t: Tid)

  predicate Enabled(l: Rwlock, s: Step) {
    if s.DoResume? then l.rd.CanWake(s.t) || l.wr.CanWake(s.t)
    else s.t !in l.rd.at && s.t !in l.wr.at && (s.DoUnlock? ==> Queued(l.rd) && Queued(l.wr))
  }

  function Next(l: Rwlock, s: Step): Rwlock
    requires Enabled(l, s)
  {
    match s
    case DoRdLock(t, timed) => l.RdLock(t, timed).0
    case DoTryRdLock(t, contended) => l.TryRdLock(t, contended).0
    case DoWrLock(t, timed) => l.WrLock(t, timed).0
    case DoTryWrLock(t, contended) => l.TryWrLock(t, contended).0
    case DoUnlock(t) => l.Unlock(t)
    case DoResume(t) => l.Resume(t).0
  }

  /** Only holders unlock; unlocking a free lock does nothing. */
  predicate Legal(l: Rwlock, s: Step) {
    s.DoUnlock? ==> s.t in l.rdHolders || s.t in l.wrHolders || (l.readers == 0 && l.writers == 0)
  }

  lemma {:induction false} HandToReadersKeepsInv(l: Rwlock)
    requires l.Inv() && l.writers == 0 && l.wr.queue == []
    ensures var l' := l.HandToReaders(); l'.Inv() && l'.rd.queue == [] && l'.writers == 0 && l'.waitingWriters == 0
    decreases |l.rd.queue|
  {
    if l.rd.queue != [] {
      GrantKeepsInv(l.rd);
      var l1 := l.(readers := l.readers + 1, rd := l.rd.Grant(), rdHolders := l.rdHolders + multiset{l.rd.Front()});
      HandToReadersKeepsInv(l1);
    }
  }

  lemma HandToWriterKeepsInv(l: Rwlock)
    requires l.(waitingWriters := 0, wr := EMPTY).Inv() && l.wr.Inv()
    requires forall t :: t in l.rd.at ==> t !in l.wr.at
    requires l.readers == 0 && l.writers == 0 && l.waitingWriters == |l.wr.queue| > 0
    requires forall k :: k in l.wr.nodes ==> l.wr.nodes[k].status == Pending
    ensures l.HandToWriter().Inv()
  {
    GrantKeepsInv(l.wr);
  }

  lemma BlockedIsNot(q: Queue, t: Tid)
    requires q.Inv() && t !in q.at
    ensures forall k :: k in q.nodes ==> q.nodes[k].th != t
    ensures Queued(q)
  {
  }

  lemma NobodyHandedOver(l: Rwlock)
    requires l.Inv() && l.writers == 0
    ensures forall k :: k in l.wr.nodes ==> l.wr.nodes[k].status == Pending
  {
  }

  lemma SoleElement(m: multiset<Tid>, t: Tid)
    requires |m| == 1 && t in m
    ensures m == multiset{t} && m - multiset{t} == multiset{}
  {
    assert |m - multiset{t}| == 0;
  }

  lemma WriterUnlockKeepsInv(l: Rwlock, t: Tid)
    requires l.Inv() && t !in l.rd.at && t !in l.wr.at && l.writers > 0 && t in l.wrHolders
    ensures l.Unlock(t).Inv() && l.Unlock(t).ReadersAwaitWriter()
  {
    SoleElement(l.wrHolders, t);
    var released := l.(writers := 0, wrHolders := l.wrHolders - multiset{t});
    if l.wr.queue != [] {
      HandToWriterKeepsInv(released);
    } else {
      HandToReadersKeepsInv(released);
    }
  }

  lemma LastReaderUnlockKeepsInv(l: Rwlock, t: Tid)
    requires l.Inv() && t !in l.rd.at && l.writers == 0 && t in l.rdHolders && l.readers == 1 && l.wr.queue != []
    ensures l.Unlock(t).Inv() && l.Unlock(t).ReadersAwaitWriter()
  {
    BlockedIsNot(l.rd, t);
    NobodyHandedOver(l);
    HandToWriterKeepsInv(l.(readers := 0, rdHolders := l.rdHolders - multiset{t}));
  }

  lemma ReaderUnlockKeepsInv(l: Rwlock, t: Tid)
    requires l.Inv() && t !in l.rd.at && t !in l.wr.at && l.writers == 0 && t in l.rdHolders
    ensures l.Unlock(t).Inv()
    ensures l.ReadersAwaitWriter() ==> l.Unlock(t).ReadersAwaitWriter()
  {
    hide Queue.Inv;
    QueuedAreAlive(l.rd);
    QueuedAreAlive(l.wr);
    if l.readers == 1 && l.wr.queue != [] {
      LastReaderUnlockKeepsInv(l, t);
    } else {
      BlockedIsNot(l.rd, t);
      assert l.Unlock(t) == l.(readers := l.readers - 1, rdHolders := l.rdHolders - multiset{t});
    }
  }

  lemma StrangerUnlockBreaksInv(l: Rwlock, t: Tid)
    requires l.Inv() && t !in l.rdHolders && t !in l.wrHolders && (l.readers > 0 || l.writers > 0)
    ensures !l.Unlock(t).Inv()
  {
    assert Queued(l.rd) && Queued(l.wr);
    hide Queue.Inv;
    if l.writers > 0 {
      var released := l.(writers := 0, wrHolders := l.wrHolders - multiset{t});
      if l.wr.queue == [] {
        HandToReadersKeepsWriters(released);
      }
    }
  }

  lemma {:induction false} HandToReadersKeepsWriters(l: Rwlock)
    requires Queued(l.rd)
    ensures l.HandToReaders().writers == l.writers && l.HandToReaders().wrHolders == l.wrHolders
    decreases |l.rd.queue|
  {
    if l.rd.queue != [] {
      HandToReadersKeepsWriters(
        l.(readers := l.readers + 1, rd := l.rd.Grant(), rdHolders := l.rdHolders + multiset{l.rd.Front()}));
    }
  }

  lemma OneMoreReader(l: Rwlock, t: Tid)
    requires l.Inv() && l.writers == 0 && l.wr.queue == []
    ensures l.(readers := l.readers + 1, rdHolders := l.rdHolders + multiset{t}).Inv()
  {
    hide Queue.Inv;
  }

  lemma ReaderQueues(l: Rwlock, t: Tid, timed: bool)
    requires l.Inv() && t !in l.rd.at && t !in l.wr.at
    ensures l.(rd := l.rd.Enqueue(t, timed)).Inv()
  {
    hide Queue.Inv;
    EnqueueKeepsInv(l.rd, t, timed);
  }

  lemma RdLockKeepsInv(l: Rwlock, t: Tid, timed: bool)
    requires l.Inv() && t !in l.rd.at && t !in l.wr.at
    ensures l.RdLock(t, timed).0.Inv() && l.TryRdLock(t, false).0.Inv()
  {
    hide Queue.Inv, Queue.Enqueue;
    ReaderQueues(l, t, timed);
    if l.writers == 0 && l.wr.queue == [] {
      OneMoreReader(l, t);
    }
  }

  lemma WrLockKeepsInv(l: Rwlock, t: Tid, timed: bool)
    requires l.Inv() && t !in l.rd.at && t !in l.wr.at
    ensures l.WrLock(t, timed).0.Inv() && l.TryWrLock(t, false).0.Inv()
  {
    hide Queue.Inv;
    EnqueueKeepsInv(l.wr, t, timed);
  }

  lemma UnlockKeepsInvIffLegal(l: Rwlock, t: Tid)
    requires l.Inv() && t !in l.rd.at && t !in l.wr.at
    ensures l.Unlock(t).Inv() <==> Legal(l, DoUnlock(t))
  {
    if t in l.wrHolders {
      WriterUnlockKeepsInv(l, t);
    } else if t in l.rdHolders {
      ReaderUnlockKeepsInv(l, t);
    } else if l.readers > 0 || l.writers > 0 {
      StrangerUnlockBreaksInv(l, t);
    }
  }

  /** Exactly the legal steps keep the invariant. */
  lemma KeepsInvIffLegal(l: Rwlock, s: Step)
    requires l.Inv() && Enabled(l, s)
    ensures Next(l, s).Inv() <==> Legal(l, s)
  {
    hide Rwlock.Inv;
    match s
    case DoUnlock(t) => UnlockKeepsInvIffLegal(l, t);
    case DoResume(t) => ResumeKeepsLockInv(l, t);
    case DoRdLock(t, timed) => RdLockKeepsInv(l, t, timed);
    case DoWrLock(t, timed) => WrLockKeepsInv(l, t, timed);
    case DoTryRdLock(t, _) => RdLockKeepsInv(l, t, false);
    case DoTryWrLock(t, _) => WrLockKeepsInv(l, t, false);
  }

  lemma ResumeKeepsLockInv(l: Rwlock, t: Tid)
    requires l.Inv() && (l.rd.CanWake(t) || l.wr.CanWake(t))
    ensures l.Resume(t).0.Inv()
  {
    if l.rd.CanWake(t) {
      ResumeKeepsInv(l.rd, t);
    } else {
      ResumeKeepsInv(l.wr, t);
      if l.wr.Ends(t) == TimedOut {
        var i := MinusIs(l.wr.queue, l.wr.at[t]);
      }
    }
  }

  /** The one step after which readers can be left waiting for nobody: the last queued writer times out while
      readers hold the lock and others queue behind it. */
  predicate StrandsReaders(l: Rwlock, s: Step)
    requires Enabled(l, s)
  {
    && s.DoResume? && !l.rd.CanWake(s.t) && l.wr.Ends(s.t) == TimedOut
    && l.writers == 0 && |l.wr.queue| == 1 && l.rd.queue != []
  }

  lemma UnlockStrandsNobody(l: Rwlock, t: Tid)
    requires l.Inv() && l.ReadersAwaitWriter() && Enabled(l, DoUnlock(t)) && Legal(l, DoUnlock(t))
    ensures l.Unlock(t).ReadersAwaitWriter()
  {
    hide Queue.Inv;
    if t in l.wrHolders {
      WriterUnlockKeepsInv(l, t);
    } else if t in l.rdHolders {
      ReaderUnlockKeepsInv(l, t);
    }
  }

  lemma ResumeStrandsWhen(l: Rwlock, t: Tid)
    requires l.Inv() && l.ReadersAwaitWriter() && Enabled(l, DoResume(t))
    ensures l.Resume(t).0.ReadersAwaitWriter() <==> !StrandsReaders(l, DoResume(t))
  {
    hide Queue.Inv;
    if !l.rd.CanWake(t) && l.wr.Ends(t) == TimedOut {
      ResumeKeepsLockInv(l, t);
      LeavesOneFewer(l.wr, t);
    }
    if l.rd.CanWake(t) && l.rd.Ends(t) == TimedOut {
      LeavesOneFewer(l.rd, t);
    }
  }

  lemma LeavesOneFewer(q: Queue, t: Tid)
    requires q.Inv() && q.CanWake(t) && q.Ends(t) == TimedOut
    ensures |q.Resume(t).queue| == |q.queue| - 1
  {
    var i := MinusIs(q.queue, q.at[t]);
  }

  /** Queued readers keep a writer to wait for at every step but that one. */
  lemma StrandedExactlyWhen(l: Rwlock, s: Step)
    requires l.Inv() && l.ReadersAwaitWriter() && Enabled(l, s) && Legal(l, s)
    ensures Next(l, s).ReadersAwaitWriter() <==> !StrandsReaders(l, s)
  {
    hide Queue.Inv;
    match s
    case DoUnlock(t) => UnlockStrandsNobody(l, t);
    case DoResume(t) => ResumeStrandsWhen(l, t);
    case _ =>
  }

  ghost predicate Run(l: Rwlock, steps: seq<Step>)
    decreases |steps|
  {
    steps == [] || (Enabled(l, steps[0]) && Legal(l, steps[0]) && Run(Next(l, steps[0]), steps[1..]))
  }

  ghost function After(l: Rwlock, steps: seq<Step>): Rwlock
    requires Run(l, steps)
    decreases |steps|
  {
    if steps == [] then l else After(Next(l, steps[0]), steps[1..])
  }

  lemma {:induction false} RunKeepsInv(l: Rwlock, steps: seq<Step>)
    requires l.Inv() && Run(l, steps)
    ensures After(l, steps).Inv()
    ensures l.wr.expired <= After(l, steps).wr.expired
    ensures l.ReadersAwaitWriter() && After(l, steps).wr.expired == {} ==> After(l, steps).ReadersAwaitWriter()
    decreases |steps|
  {
    if steps != [] {
      var l1 := Next(l, steps[0]);
      KeepsInvIffLegal(l, steps[0]);
      ExpiredGrows(l, steps[0]);
      RunKeepsInv(l1, steps[1..]);
      if l.ReadersAwaitWriter() {
        StrandedExactlyWhen(l, steps[0]);
      }
    }
  }

  lemma ExpiredGrows(l: Rwlock, s: Step)
    requires l.Inv() && Enabled(l, s)
    ensures l.wr.expired <= Next(l, s).wr.expired
    ensures StrandsReaders(l, s) ==> l.wr.at[s.t] in Next(l, s).wr.expired
  {
    if s.DoUnlock? && l.writers > 0 && l.wr.queue == [] {
      HandToReadersKeepsWr(l.(writers := 0, wrHolders := l.wrHolders - multiset{s.t}));
    }
  }

  lemma {:induction false} HandToReadersKeepsWr(l: Rwlock)
    requires Queued(l.rd)
    ensures l.HandToReaders().wr == l.wr
    decreases |l.rd.queue|
  {
    if l.rd.queue != [] {
      HandToReadersKeepsWr(
        l.(readers := l.readers + 1, rd := l.rd.Grant(), rdHolders := l.rdHolders + multiset{l.rd.Front()}));
    }
  }

  /** Over every run: a writer excludes everybody else, the counters count, and no fast path overtakes a queued
      writer; and unless a timed writer has timed out, no reader waits without a writer in its way. */
  lemma Exclusion(steps: seq<Step>, t: Tid, u: Tid)
    requires Run(Init(), steps)
    ensures var l := After(Init(), steps);
            && (t in l.wrHolders ==> u !in l.rdHolders && (u in l.wrHolders ==> u == t) && l.wrHolders[t] == 1)
            && l.readers == |l.rdHolders| && l.writers == |l.wrHolders|
            && l.waitingWriters == |l.wr.queue|
            && (l.wr.queue != [] ==> l.RdLock(t, false).1 == Blocks && l.WrLock(t, false).1 == Blocks)
            && (l.wr.expired == {} && l.rd.queue != [] ==> l.writers > 0 || l.waitingWriters > 0)
  {
    RunKeepsInv(Init(), steps);
    var l := After(Init(), steps);
    if t in l.wrHolders {
      SoleElement(l.wrHolders, t);
    }
  }

  /** The stranded state is reachable: a reader holds, a timed writer queues, a reader queues behind it, the writer
      times out, the first reader leaves, and the second waits on a lock that nobody holds. */
  lemma ReaderLeftBehind()
    ensures var steps := [DoRdLock(1, false), DoWrLock(2, true), DoRdLock(3, false), DoResume(2), DoUnlock(1)];
            && Run(Init(), steps)
            && var l := After(Init(), steps);
               && l.readers == 0 && l.writers == 0 && l.waitingWriters == 0
               && 3 in l.rd.at && l.rd.at[3] in l.rd.queue && !l.rd.CanWake(3)
  {
    hide Run, After;
    var l1 := Rwlock(1, 0, 0, EMPTY, EMPTY, multiset{1}, multiset{});
    var q2 := Queue([0], map[0 := Node(2, true, Pending)], map[2 := 0], 1, [], {});
    var q3 := Queue([0], map[0 := Node(3, false, Pending)], map[3 := 0], 1, [], {});
    var l2 := l1.(waitingWriters := 1, wr := q2);
    var l3 := l2.(rd := q3);
    var steps := StrandingEnd(l3);
    Cons(l2, DoRdLock(3, false), steps, l3);
    steps := [DoRdLock(3, false)] + steps;
    Cons(l1, DoWrLock(2, true), steps, l2);
    steps := [DoWrLock(2, true)] + steps;
    Cons(Init(), DoRdLock(1, false), steps, l1);
    steps := [DoRdLock(1, false)] + steps;
    assert steps == [DoRdLock(1, false), DoWrLock(2, true), DoRdLock(3, false), DoResume(2), DoUnlock(1)];
  }

  /** The timed writer times out, then the reader that holds the lock leaves. */
  lemma StrandingEnd(l: Rwlock) returns (steps: seq<Step>)
    requires l.readers == 1 && l.writers == 0 && l.waitingWriters == 1 && l.rdHolders == multiset{1}
    requires l.wr == Queue([0], map[0 := Node(2, true, Pending)], map[2 := 0], 1, [], {})
    requires l.rd == Queue([0], map[0 := Node(3, false, Pending)], map[3 := 0], 1, [], {})
    ensures steps == [DoResume(2), DoUnlock(1)] && Run(l, steps)
    ensures After(l, steps) ==
            l.(readers := 0, waitingWriters := 0, rdHolders := multiset{}, wr := Queue([], map[], map[], 1, [], {0}))
  {
    hide Run, After;
    var l4 := l.(waitingWriters := 0, wr := Queue([], map[], map[], 1, [], {0}));
    var l5 := l4.(readers := 0, rdHolders := multiset{});
    Ended(l5);
    Cons(l4, DoUnlock(1), [], l5);
    Cons(l, DoResume(2), [DoUnlock(1)] + [], l4);
    steps := [DoResume(2)] + ([DoUnlock(1)] + []);
  }

  lemma Ended(l: Rwlock)
    ensures Run(l, []) && After(l, []) == l
  {
  }

  lemma Cons(l: Rwlock, s: Step, rest: seq<Step>, l1: Rwlock)
    requires Enabled(l, s) && Legal(l, s) && Next(l, s) == l1 && Run(l1, rest)
    ensures Run(l, [s] + rest) && After(l, [s] + rest) == After(l1, rest)
  {
    assert ([s] + rest)[1..] == rest;
  }

  // What each call answers, in terms of what it finds

  predicate NobodyHolds(l: Rwlock) {
    l.rdHolders == multiset{} && l.wrHolders == multiset{}
  }

  /** No writer holds the lock or waits for it. */
  predicate NoWriters(l: Rwlock) {
    l.wrHolders == multiset{} && l.wr.queue == []
  }

  ghost predicate ReadsToo(l: Rwlock, l': Rwlock, t: Tid) {
    l' == l.(readers := l.readers + 1, rdHolders := l.rdHolders + multiset{t})
  }

  ghost predicate Writes(l: Rwlock, l': Rwlock, t: Tid) {
    l' == l.(writers := 1, wrHolders := multiset{t})
  }

  lemma Counters(l: Rwlock)
    requires l.Inv()
    ensures l.writers == 0 <==> l.wrHolders == multiset{}
    ensures l.readers == 0 <==> l.rdHolders == multiset{}
    ensures l.waitingWriters == 0 <==> l.wr.queue == []
    ensures l.readers >= 0 && l.writers >= 0 && l.waitingWriters >= 0
  {
  }

  /** A read lock is taken at once exactly if no writer holds the lock or waits for it, and a try exactly if the
      guard was free too. */
  lemma RdLockAnswers(l: Rwlock, t: Tid, timed: bool, contended: bool)
    requires l.Inv() && t !in l.rd.at && t !in l.wr.at
    ensures var (l', ret) := l.RdLock(t, timed);
            && ret == (if NoWriters(l) then Ok else Blocks)
            && (ret == Ok ==> ReadsToo(l, l', t))
            && (ret == Blocks ==> l' == l.(rd := l'.rd) && Joined(l.rd, l'.rd, t, timed))
    ensures var (l', ret) := l.TryRdLock(t, contended);
            && ret == (if NoWriters(l) && !contended then Ok else EBUSY)
            && (ret == Ok ==> ReadsToo(l, l', t)) && (ret == EBUSY ==> l' == l)
  {
    Counters(l);
    EnqueueJoins(l.rd, t, timed);
  }

  /** A write lock is taken at once exactly if nobody holds the lock, and a try exactly if the guard was free too. */
  lemma WrLockAnswers(l: Rwlock, t: Tid, timed: bool, contended: bool)
    requires l.Inv() && t !in l.rd.at && t !in l.wr.at
    ensures var (l', ret) := l.WrLock(t, timed);
            && ret == (if NobodyHolds(l) then Ok else Blocks)
            && (ret == Ok ==> Writes(l, l', t))
            && (ret == Blocks ==>
                  && l' == l.(wr := l'.wr, waitingWriters := |l'.wr.queue|)
                  && Joined(l.wr, l'.wr, t, timed))
    ensures var (l', ret) := l.TryWrLock(t, contended);
            && ret == (if NobodyHolds(l) && !contended then Ok else EBUSY)
            && (ret == Ok ==> Writes(l, l', t)) && (ret == EBUSY ==> l' == l)
  {
    Counters(l);
    EnqueueJoins(l.wr, t, timed);
  }

  /** A lock that had to wait succeeds exactly if its waiter was granted, and then its caller holds the lock;
      otherwise its waiter has expired, and nobody's holding changes. */
  lemma ResumeAnswers(l: Rwlock, t: Tid)
    requires l.Inv() && (l.rd.CanWake(t) || l.wr.CanWake(t))
    ensures var (l', ret) := l.Resume(t);
            && (l.rd.CanWake(t) ==>
                  && ret == (if l.rd.at[t] in l.rd.granted then Ok else ETIMEDOUT)
                  && l' == l.(rd := l'.rd) && Left(l.rd, l'.rd, t, ret == Ok) && (ret == Ok ==> t in l'.rdHolders))
            && (!l.rd.CanWake(t) ==>
                  && ret == (if l.wr.at[t] in l.wr.granted then Ok else ETIMEDOUT)
                  && l' == l.(wr := l'.wr, waitingWriters := |l'.wr.queue|) && Left(l.wr, l'.wr, t, ret == Ok)
                  && (ret == Ok ==> t in l'.wrHolders))
  {
    if l.rd.CanWake(t) {
      ResumeLeaves(l.rd, t);
      ResumeKeepsInv(l.rd, t);
    } else {
      ResumeLeaves(l.wr, t);
      ResumeKeepsInv(l.wr, t);
      if l.wr.at[t] !in l.wr.granted {
        LeavesOneFewer(l.wr, t);
      }
    }
  }

  /** The lock has gone to the longest-waiting writer. */
  ghost predicate HandedToWriter(l: Rwlock, l': Rwlock)
    requires l.wr.queue != [] && l.wr.queue[0] in l.wr.nodes
  {
    && l'.wrHolders == multiset{l.wr.nodes[l.wr.queue[0]].th} && l'.rdHolders == multiset{}
    && Released(l.wr, l'.wr) && l'.rd == l.rd
  }

  /** When a writer leaves, the longest-waiting writer has the lock, or if there is none, all waiting readers. */
  lemma WriterUnlockExact(l: Rwlock, t: Tid)
    requires l.Inv() && t !in l.rd.at && t !in l.wr.at && t in l.wrHolders
    ensures Queued(l.rd) && Queued(l.wr)
    ensures var l' := l.Unlock(t);
            && (l.wr.queue != [] ==> HandedToWriter(l, l'))
            && (l.wr.queue == [] ==>
                  && l'.wrHolders == multiset{} && l'.wr == l.wr && |l'.rdHolders| == |l.rd.queue|
                  && l'.rd.queue == [] && l'.rd.granted == l.rd.granted + l.rd.queue
                  && WokenAre(l.rd, l'.rd, l.rd.queue)
                  && forall k :: k in l.rd.queue ==> l.rd.nodes[k].th in l'.rdHolders)
  {
    hide Queue.Inv;
    QueuedAreAlive(l.rd);
    QueuedAreAlive(l.wr);
    SoleElement(l.wrHolders, t);
    Counters(l);
    WriterUnlockKeepsInv(l, t);
    if l.wr.queue != [] {
      GrantReleases(l.wr);
    } else {
      ReadersExact(l.(writers := 0, wrHolders := l.wrHolders - multiset{t}));
    }
  }

  lemma {:induction false} ReadersExact(l: Rwlock)
    requires Queued(l.rd)
    ensures var l' := l.HandToReaders();
            && l'.rd == l.rd.GrantAll() && l'.wr == l.wr && l'.wrHolders == l.wrHolders && l'.writers == l.writers
            && |l'.rdHolders| == |l.rdHolders| + |l.rd.queue|
            && l'.rd.queue == [] && l'.rd.granted == l.rd.granted + l.rd.queue && WokenAre(l.rd, l'.rd, l.rd.queue)
    decreases |l.rd.queue|
  {
    GrantAllWakesQueue(l.rd);
    if l.rd.queue != [] {
      ReadersExact(l.(readers := l.readers + 1, rd := l.rd.Grant(),
                      rdHolders := l.rdHolders + multiset{l.rd.Front()}));
    }
  }

  /** When a reader leaves it is one holder less, and when the last one leaves, the longest-waiting writer has the
      lock. */
  lemma ReaderUnlockExact(l: Rwlock, t: Tid)
    requires l.Inv() && t !in l.rd.at && t !in l.wr.at && t in l.rdHolders
    ensures Queued(l.rd) && Queued(l.wr)
    ensures var l' := l.Unlock(t);
            if l.rdHolders == multiset{t} && l.wr.queue != [] then HandedToWriter(l, l')
            else l' == l.(readers := l.readers - 1, rdHolders := l.rdHolders - multiset{t})
  {
    hide Queue.Inv;
    QueuedAreAlive(l.rd);
    QueuedAreAlive(l.wr);
    Counters(l);
    assert |l.rdHolders - multiset{t}| == |l.rdHolders| - 1;
    assert |l.rdHolders - multiset{t}| == 0 <==> l.rdHolders == multiset{t} by {
      assert l.rdHolders == (l.rdHolders - multiset{t}) + multiset{t};
    }
    if l.wr.queue != [] {
      GrantReleases(l.wr);
    }
  }

  /** Unlocking a lock that nobody holds does nothing. */
  lemma IdleUnlock(l: Rwlock, t: Tid)
    requires l.Inv() && NobodyHolds(l)
    ensures Queued(l.rd) && Queued(l.wr) && l.Unlock(t) == l
  {
  }
}
