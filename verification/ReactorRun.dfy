/** The reactor's request and completion handlers, as steps on its book, over whole runs and in place. */
module ReactorRun {
  import opened Basics
  import opened ReactorBook

  /** What the reactor thread is asked to do, with what malloc and epoll_ctl answer (EEXIST counts as success). */
  datatype Step =
    | Watch(fd: int, ev: Eid, th: Tid, malloc: Option<nat>, added: bool)
    | Unwatch(fd: int, ev: Eid)
    | FdClose(fd: int)
    | Completion(fd: int, revents: Revents)

  predicate Known(b: Book, w: Wid) {
    w in b.waiters && b.waiters[w].ev in b.events && b.InTable(b.EventOf(w).fd)
  }

  predicate Hit(b: Book, w: Wid, c: Cause) {
    Known(b, w) && Matches(c, b.EventOf(w).goal)
  }

  /** Waiter w's event is marked, its back-pointer cleared, and w unlinked and freed. */
  function Settle(b: Book, w: Wid, c: Cause): Book
    requires Known(b, w)
  {
    b.Detach(w, b.EventOf(w).fd).Mark(b.waiters[w].ev, Settled(b.EventOf(w), c))
  }

  /** The loop over a slot's waiters. */
  function Sweep(b: Book, ws: seq<Wid>, c: Cause): Book
    decreases |ws|
  {
    if ws == [] then b else Sweep(if Hit(b, ws[0], c) then Settle(b, ws[0], c) else b, ws[1..], c)
  }

  /** reactor_alloc_waiter's answer. */
  function Allocated(b: Book, malloc: Option<nat>): Option<Wid> {
    if b.free != [] then Some(b.free[0]) else if malloc.Some? then Some(POOL_SIZE + malloc.value) else None
  }

  /** The waiter is given back and the event fails. */
  function Refuse(b: Book, w: Wid, ev: Eid): Book
    requires ev in b.events
  {
    b.(free := if w < POOL_SIZE && b.free != [] then b.free[1..] + [w] else b.free)
     .Mark(ev, b.events[ev].(status := FAILED, waiter := None))
  }

  function Watched(b: Book, fd: nat, ev: Eid, th: Tid, malloc: Option<nat>, added: bool): Book
    requires b.InTable(fd) && ev in b.events
  {
    match Allocated(b, malloc)
    case None => b.(mallocs := b.mallocs + 1, lost := b.lost + 1)
    case Some(w) =>
      if b.slots[fd].registered then b.Attach(fd, w, Waiter(th, ev))
      else if added then b.Register(fd).Attach(fd, w, Waiter(th, ev))
      else Refuse(b, w, ev)
  }

  function Unregistered(b: Book, fd: nat): Book
    requires b.InTable(fd)
  {
    if b.slots[fd].registered then b.Unregister(fd) else b
  }

  function Apply(b: Book, s: Step): Book {
    if !b.InTable(s.fd) then b else
    match s
    case Watch(fd, ev, th, malloc, added) => if ev in b.events then Watched(b, fd, ev, th, malloc, added) else b
    case Unwatch(fd, ev) =>
      if ev in b.events && b.events[ev].waiter.Some? && Known(b, b.events[ev].waiter.value)
      then b.Detach(b.events[ev].waiter.value, fd) else b
    case FdClose(fd) =>
      var swept := Sweep(b, b.slots[fd].waiters, Closed);
      if swept.InTable(fd) then Unregistered(swept, fd) else b
    case Completion(fd, revents) => Sweep(b, b.slots[fd].waiters, Ready(revents))
  }

  /** A watch names a pending event that is not watched yet, requests name the fd of their event, and malloc returns
      memory that is not in use. */
  predicate WellFormed(b: Book, s: Step) {
    b.InTable(s.fd) ==>
      match s
      case Watch(fd, ev, th, malloc, added) =>
        && ev in b.events && b.events[ev].fd == fd && b.events[ev].status == PENDING && b.events[ev].waiter.None?
        && (malloc.Some? ==> POOL_SIZE + malloc.value !in b.waiters)
      case Unwatch(fd, ev) => ev in b.events && (b.events[ev].waiter.Some? ==> b.events[ev].fd == fd)
      case FdClose(_) => true
      case Completion(_, _) => true
  }

  // Sweeps

  lemma SettleFrame(b: Book, w: Wid, c: Cause)
    requires Known(b, w)
    ensures Settle(b, w, c).waiters == b.waiters - {w}
    ensures Settle(b, w, c).events == b.events[b.waiters[w].ev := Settled(b.EventOf(w), c)]
    ensures |Settle(b, w, c).slots| == |b.slots|
    ensures forall f :: 0 <= f < |b.slots| ==> Settle(b, w, c).slots[f].registered == b.slots[f].registered
    ensures b.resolved <= Settle(b, w, c).resolved
  {
  }

  lemma SettleKeepsInv(b: Book, w: Wid, c: Cause)
    requires Inv(b) && w in b.waiters
    ensures Known(b, w) && Inv(Settle(b, w, c))
  {
    hide Inv;
    WaiterKnown(b, w);
    var fd := b.EventOf(w).fd;
    DetachKeepsInvIff(b, w, fd);
    MarkKeepsInv(b.Detach(w, fd), b.waiters[w].ev, Settled(b.EventOf(w), c));
  }

  lemma WaiterKnown(b: Book, w: Wid)
    requires Inv(b) && w in b.waiters
    ensures Known(b, w) && b.EventOf(w).waiter == Some(w) && b.EventOf(w).status == PENDING
    ensures w in b.slots[b.EventOf(w).fd].waiters
  {
  }

  /** What a sweep over the waiters ws does to an event. */
  function Swept(ws: seq<Wid>, c: Cause, e: Event): Event {
    if e.waiter.Some? && e.waiter.value in ws && Matches(c, e.goal) then Settled(e, c) else e
  }

  lemma SweptInTurn(b: Book, ws: seq<Wid>, c: Cause, e: Eid)
    requires ws != [] && NoRepeats(ws) && Known(b, ws[0]) && e in b.events
    requires b.EventOf(ws[0]).waiter == Some(ws[0])
    requires b.events[e].waiter == Some(ws[0]) ==> e == b.waiters[ws[0]].ev
    ensures var b1 := if Hit(b, ws[0], c) then Settle(b, ws[0], c) else b;
            e in b1.events && Swept(ws[1..], c, b1.events[e]) == Swept(ws, c, b.events[e])
  {
    var w := ws[0];
    SettleFrame(b, w, c);
    assert w !in ws[1..] && forall v :: v in ws <==> v == w || v in ws[1..];
  }

  /** A sweep resolves exactly the events of those waiters whose goal matches, and keeps the invariant. */
  lemma {:induction false} SweepExact(b: Book, ws: seq<Wid>, c: Cause)
    requires Inv(b) && NoRepeats(ws) && forall w :: w in ws ==> w in b.waiters
    ensures Inv(Sweep(b, ws, c)) && Sweep(b, ws, c).events.Keys == b.events.Keys
    ensures forall e :: e in b.events ==> Sweep(b, ws, c).events[e] == Swept(ws, c, b.events[e])
    ensures |Sweep(b, ws, c).slots| == |b.slots|
    ensures forall f :: 0 <= f < |b.slots| ==> Sweep(b, ws, c).slots[f].registered == b.slots[f].registered
    ensures b.resolved <= Sweep(b, ws, c).resolved
    decreases |ws|
  {
    hide Inv;
    if ws != [] {
      var w := ws[0];
      WaiterKnown(b, w);
      SettleFrame(b, w, c);
      SettleKeepsInv(b, w, c);
      BackInverse(b, w);
      forall e | e in b.events
        ensures var b1 := if Hit(b, w, c) then Settle(b, w, c) else b;
                e in b1.events && Swept(ws[1..], c, b1.events[e]) == Swept(ws, c, b.events[e])
      {
        SweptInTurn(b, ws, c, e);
      }
      var b1 := if Hit(b, w, c) then Settle(b, w, c) else b;
      hide Swept, Settle, Hit;
      assert forall v :: v in ws[1..] ==> v in ws && v != w;
      SweepExact(b1, ws[1..], c);
    }
  }

  lemma BackInverse(b: Book, w: Wid)
    requires Inv(b) && w in b.waiters
    ensures forall e :: e in b.events && b.events[e].waiter == Some(w) ==> e == b.waiters[w].ev
  {
  }

  // Steps

  lemma SlotWaiters(b: Book, fd: nat)
    requires Inv(b) && b.InTable(fd)
    ensures NoRepeats(b.slots[fd].waiters) && b.slots[fd].count == |b.slots[fd].waiters|
    ensures forall w :: w in b.slots[fd].waiters ==> w in b.waiters
    ensures forall e :: e in b.events && b.events[e].waiter.Some? ==>
              (b.events[e].waiter.value in b.slots[fd].waiters <==> b.events[e].fd == fd)
  {
    assert SlotOk(b, fd);
  }

  /** A completion on fd resolves, as OCCURRED, exactly the watched events of that fd whose goal matches, and changes no
      other event. */
  lemma CompletionExact(b: Book, fd: int, revents: Revents)
    requires Inv(b) && b.InTable(fd)
    ensures var b' := Apply(b, Completion(fd, revents));
            && Inv(b') && b'.events.Keys == b.events.Keys
            && forall e :: e in b.events ==>
                 b'.events[e] == if b.events[e].waiter.Some? && b.events[e].fd == fd
                                    && Matches(Ready(revents), b.events[e].goal)
                                 then b.events[e].(status := OCCURRED, waiter := None, registered := false)
                                 else b.events[e]
  {
    SlotWaiters(b, fd);
    hide Inv;
    SweepExact(b, b.slots[fd].waiters, Ready(revents));
  }

  /** Closing fd fails exactly the events that are watched on it, and leaves it unregistered with no waiters. */
  lemma CloseExact(b: Book, fd: int)
    requires Inv(b) && b.InTable(fd)
    ensures var b' := Apply(b, FdClose(fd));
            && Inv(b') && b'.events.Keys == b.events.Keys && b.resolved <= b'.resolved
            && |b'.slots| == |b.slots| && b'.slots[fd] == Slot([], 0, false) && fd !in b'.active
            && forall e :: e in b.events ==>
                 b'.events[e] == if b.events[e].waiter.Some? && b.events[e].fd == fd
                                 then b.events[e].(status := FAILED, waiter := None, registered := false)
                                 else b.events[e]
  {
    hide Inv;
    SlotWaiters(b, fd);
    SweepExact(b, b.slots[fd].waiters, Closed);
    var swept := Sweep(b, b.slots[fd].waiters, Closed);
    SlotWaiters(swept, fd);
    if swept.slots[fd].waiters != [] {
      var e := SomebodyThere(swept, fd);
      assert false;
    }
    if swept.slots[fd].registered {
      UnregisterKeepsInv(swept, fd);
    }
    UnregisteredSlot(Unregistered(swept, fd), fd);
  }

  lemma SomebodyThere(b: Book, fd: nat) returns (e: Eid)
    requires Inv(b) && b.InTable(fd) && b.slots[fd].waiters != []
    ensures e in b.events && b.events[e].fd == fd && b.events[e].waiter.Some?
  {
    assert SlotOk(b, fd);
    assert b.slots[fd].waiters[0] in b.slots[fd].waiters;
    e := b.waiters[b.slots[fd].waiters[0]].ev;
  }

  lemma UnregisteredSlot(b: Book, fd: nat)
    requires Inv(b) && b.InTable(fd) && !b.slots[fd].registered
    ensures b.slots[fd] == Slot([], 0, false) && fd !in b.active
  {
    assert SlotOk(b, fd);
  }

  lemma WatchKeepsInv(b: Book, s: Step)
    requires Inv(b) && s.Watch? && b.InTable(s.fd) && WellFormed(b, s)
    ensures Inv(Apply(b, s)) && b.resolved <= Apply(b, s).resolved
  {
    hide Inv;
    var a := Allocated(b, s.malloc);
    FirstFree(b);
    if a.None? {
      CountLost(b);
    } else if b.slots[s.fd].registered {
      AttachKeepsInvIff(b, s.fd, a.value, Waiter(s.th, s.ev));
    } else if s.added {
      RegisterKeepsInv(b, s.fd);
      AttachKeepsInvIff(b.Register(s.fd), s.fd, a.value, Waiter(s.th, s.ev));
    } else {
      RefuseKeepsInv(b, a.value, s.ev);
    }
  }

  lemma FirstFree(b: Book)
    requires Inv(b)
    ensures b.free != [] ==> b.free[0] < POOL_SIZE
  {
    if b.free != [] {
      assert b.free[0] in b.free;
    }
  }

  /** Only the free list and the counts of malloc may differ. */
  lemma PoolAlone(b: Book, b': Book)
    requires Inv(b) && PoolOk(b') && b' == b.(free := b'.free, mallocs := b'.mallocs, lost := b'.lost)
    ensures Inv(b')
  {
    assert BackPointers(b');
    forall f | 0 <= f < |b.slots|
      ensures SlotOk(b', f)
    {
      assert SlotOk(b, f);
    }
  }

  lemma CountLost(b: Book)
    requires Inv(b)
    ensures Inv(b.(mallocs := b.mallocs + 1, lost := b.lost + 1))
  {
    PoolAlone(b, b.(mallocs := b.mallocs + 1, lost := b.lost + 1));
  }

  lemma RotateKeepsInv(b: Book, w: Wid)
    requires Inv(b) && Available(b, w)
    ensures Inv(b.(free := if w < POOL_SIZE && b.free != [] then b.free[1..] + [w] else b.free))
  {
    var b' := b.(free := if w < POOL_SIZE && b.free != [] then b.free[1..] + [w] else b.free);
    assert w < POOL_SIZE ==> b.free == [w] + b.free[1..];
    assert forall v :: v in b'.free <==> v in b.free;
    PoolAlone(b, b');
  }

  lemma RefuseKeepsInv(b: Book, w: Wid, ev: Eid)
    requires Inv(b) && Available(b, w) && ev in b.events && b.events[ev].waiter.None? && b.events[ev].status == PENDING
    ensures Inv(Refuse(b, w, ev))
  {
    hide Inv;
    RotateKeepsInv(b, w);
    var b' := b.(free := if w < POOL_SIZE && b.free != [] then b.free[1..] + [w] else b.free);
    MarkKeepsInv(b', ev, b.events[ev].(status := FAILED, waiter := None));
  }

  /** Every well-formed step keeps the book in order, and resolves no event for a second time. */
  lemma StepKeepsInv(b: Book, s: Step)
    requires Inv(b) && WellFormed(b, s)
    ensures Inv(Apply(b, s)) && b.resolved <= Apply(b, s).resolved
  {
    hide Inv;
    if b.InTable(s.fd) {
      match s
      case Watch(fd, ev, th, malloc, added) => WatchKeepsInv(b, s);
      case Unwatch(fd, ev) =>
        if b.events[ev].waiter.Some? {
          EventWaiter(b, ev);
          DetachKeepsInvIff(b, b.events[ev].waiter.value, fd);
        }
      case FdClose(fd) => CloseExact(b, fd);
      case Completion(fd, revents) =>
        SlotWaiters(b, fd);
        SweepExact(b, b.slots[fd].waiters, Ready(revents));
    }
  }

  lemma EventWaiter(b: Book, ev: Eid)
    requires Inv(b) && ev in b.events && b.events[ev].waiter.Some?
    ensures b.events[ev].waiter.value in b.waiters && b.waiters[b.events[ev].waiter.value].ev == ev
    ensures Known(b, b.events[ev].waiter.value)
  {
  }

  // Runs

  function After(b: Book, run: seq<Step>): Book
    decreases |run|
  {
    if run == [] then b else After(Apply(b, run[0]), run[1..])
  }

  predicate WellFormedRun(b: Book, run: seq<Step>)
    decreases |run|
  {
    run != [] ==> WellFormed(b, run[0]) && WellFormedRun(Apply(b, run[0]), run[1..])
  }

  /** Over any run of well-formed steps the book stays in order, and what has been resolved stays resolved, once. */
  lemma {:induction false} RunKeepsInv(b: Book, run: seq<Step>)
    requires Inv(b) && WellFormedRun(b, run)
    ensures Inv(After(b, run)) && b.resolved <= After(b, run).resolved
    decreases |run|
  {
    hide Inv;
    if run != [] {
      StepKeepsInv(b, run[0]);
      RunKeepsInv(Apply(b, run[0]), run[1..]);
    }
  }

  /** The number of entries of a run's record that resolve ev. */
  ghost function Times(s: seq<Eid>, ev: Eid): nat {
    if s == [] then 0 else Times(s[1..], ev) + if s[0] == ev then 1 else 0
  }

  lemma {:induction false} OnceAtMost(s: seq<Eid>, ev: Eid)
    requires NoRepeats(s)
    ensures Times(s, ev) == if ev in s then 1 else 0
  {
    if s != [] {
      assert NoRepeats(s[1..]) && s[0] !in s[1..] && (ev in s <==> ev == s[0] || ev in s[1..]);
      OnceAtMost(s[1..], ev);
    }
  }

  /** Each watched event is resolved at most once in any run, and exactly once if it is no longer pending. */
  lemma ResolvedAtMostOnce(b: Book, run: seq<Step>, ev: Eid)
    requires Inv(b) && WellFormedRun(b, run)
    ensures var b' := After(b, run);
            Times(b'.resolved, ev) == if ev in b'.events && b'.events[ev].status != PENDING then 1 else 0
  {
    RunKeepsInv(b, run);
    OnceAtMost(After(b, run).resolved, ev);
  }

  // Dropped requests

  /** A well-formed watch of an fd in the table leads to a watched or failed event exactly when a waiter can be had;
      otherwise the event stays pending and nobody watches it. */
  lemma WatchHeardIff(b: Book, s: Step)
    requires Inv(b) && s.Watch? && b.InTable(s.fd) && WellFormed(b, s)
    ensures s.ev in Apply(b, s).events
    ensures var e := Apply(b, s).events[s.ev];
            && (e.waiter.Some? || e.status == FAILED <==> b.free != [] || s.malloc.Some?)
            && (b.free == [] && s.malloc.None? ==> e == b.events[s.ev])
  {
  }

  /** Neither watched nor resolved. */
  predicate Forgotten(b: Book, ev: Eid) {
    ev in b.events && b.events[ev].status == PENDING && b.events[ev].waiter.None?
  }

  lemma StepForgets(b: Book, s: Step, ev: Eid)
    requires Inv(b) && WellFormed(b, s) && Forgotten(b, ev) && !(s.Watch? && s.ev == ev)
    ensures Forgotten(Apply(b, s), ev)
  {
    hide Inv;
    if b.InTable(s.fd) {
      match s
      case Watch(fd, e, th, malloc, added) =>
      case Unwatch(fd, e) =>
        if b.events[e].waiter.Some? {
          EventWaiter(b, e);
        }
      case FdClose(fd) => CloseExact(b, fd);
      case Completion(fd, revents) => CompletionExact(b, fd, revents);
    }
  }

  /** Whatever else happens, an event whose watch was dropped stays pending and unwatched until a watch names it
      again. */
  lemma {:induction false} ForgottenUntilWatched(b: Book, run: seq<Step>, ev: Eid)
    requires Inv(b) && WellFormedRun(b, run) && Forgotten(b, ev)
    requires forall s :: s in run ==> !(s.Watch? && s.ev == ev)
    ensures Forgotten(After(b, run), ev)
    decreases |run|
  {
    hide Inv, Apply, Forgotten, WellFormed;
    if run != [] {
      StepForgets(b, run[0], ev);
      StepKeepsInv(b, run[0]);
      ForgottenUntilWatched(Apply(b, run[0]), run[1..], ev);
    }
  }

  function Visitors(): seq<Eid> {
    seq(POOL_SIZE + 1, i => i)
  }

  /** The start, with one slot and an event too many for the pool. */
  function Crowd(): Book {
    Book(seq(POOL_SIZE, i => i), [Slot([], 0, false)], [], 0, map[], 0,
         map e | e in Visitors() :: Event(0, Goal(true, false, false), PENDING, None, false), [], 0)
  }

  /** The first k events are watched, the others still wait to be. */
  ghost predicate Drained(b: Book, k: nat) {
    && Inv(b) && k <= POOL_SIZE && |b.slots| == 1
    && b.free == seq(POOL_SIZE - k, i => k + i)
    && forall e :: k <= e <= POOL_SIZE ==> Forgotten(b, e) && b.events[e].fd == 0
  }

  function NextWatch(k: nat): Step {
    Watch(0, k, 0, None, true)
  }

  lemma OneFewer(b: Book, k: nat)
    requires Drained(b, k) && k < POOL_SIZE
    ensures WellFormed(b, NextWatch(k)) && Drained(Apply(b, NextWatch(k)), k + 1)
  {
    hide Inv;
    assert Forgotten(b, k);
    var b' := Apply(b, NextWatch(k));
    StepKeepsInv(b, NextWatch(k));
    assert b'.free == b.free[1..];
    assert b'.free == seq(POOL_SIZE - (k + 1), i => k + 1 + i);
    forall e | k + 1 <= e <= POOL_SIZE
      ensures Forgotten(b', e) && b'.events[e].fd == 0
    {
      assert Forgotten(b, e);
    }
  }

  lemma {:induction false} Drains(b: Book, k: nat) returns (run: seq<Step>)
    requires Drained(b, k)
    ensures WellFormedRun(b, run) && Drained(After(b, run), POOL_SIZE)
    decreases POOL_SIZE - k
  {
    hide Drained, Apply, WellFormed;
    if k == POOL_SIZE {
      run := [];
    } else {
      DrainedSmall(b, k);
      OneFewer(b, k);
      var rest := Drains(Apply(b, NextWatch(k)), k + 1);
      run := [NextWatch(k)] + rest;
      assert run[1..] == rest;
    }
  }

  lemma DrainedSmall(b: Book, k: nat)
    requires Drained(b, k)
    ensures k <= POOL_SIZE
  {
  }

  lemma StartHolds(b: Book)
    requires b.free == seq(POOL_SIZE, i => i) && b.waiters == map[] && b.mallocs == b.lost == 0
    requires b.active == [] && b.activeCount == 0 && b.resolved == []
    requires forall f :: 0 <= f < |b.slots| ==> b.slots[f] == Slot([], 0, false)
    requires forall e :: e in b.events ==> b.events[e].status == PENDING && b.events[e].waiter.None?
    ensures Inv(b)
  {
    assert Extra(b.waiters.Keys) == {};
    forall w | 0 <= w < POOL_SIZE
      ensures w in b.free
    {
      assert b.free[w] == w;
    }
    assert BackPointers(b);
    forall f | 0 <= f < |b.slots|
      ensures SlotOk(b, f)
    {
    }
  }

  lemma CrowdIsDrained()
    ensures Drained(Crowd(), 0)
  {
    StartHolds(Crowd());
    forall e: Eid | e <= POOL_SIZE
      ensures Forgotten(Crowd(), e) && Crowd().events[e].fd == 0
    {
      assert Visitors()[e] == e;
    }
  }

  lemma {:induction false} RunThen(b: Book, run: seq<Step>, s: Step)
    requires WellFormedRun(b, run) && WellFormed(After(b, run), s)
    ensures WellFormedRun(b, run + [s]) && After(b, run + [s]) == Apply(After(b, run), s)
    decreases |run|
  {
    hide Apply, WellFormed;
    if run == [] {
      assert run + [s] == [s] && [s][1..] == [];
    } else {
      RunThen(Apply(b, run[0]), run[1..], s);
      assert (run + [s])[1..] == run[1..] + [s];
    }
  }

  /** A reachable drop: with the whole pool in use and no memory, the last watch of the run is forgotten. */
  lemma DroppedWatch() returns (run: seq<Step>)
    ensures WellFormedRun(Crowd(), run) && run != [] && run[|run| - 1].Watch?
    ensures Forgotten(After(Crowd(), run), run[|run| - 1].ev)
  {
    CrowdIsDrained();
    var fill := Drains(Crowd(), 0);
    var b := After(Crowd(), fill);
    var s := NextWatch(POOL_SIZE);
    assert Forgotten(b, POOL_SIZE);
    hide Inv, Crowd;
    WatchHeardIff(b, s);
    RunThen(Crowd(), fill, s);
    run := fill + [s];
  }

  // Watching and withdrawing

  /** The waiter is in no slot, and in the free list if it is the pool's. */
  ghost predicate GivenBack(b: Book, w: Wid) {
    && (forall fd :: 0 <= fd < |b.slots| ==> w !in b.slots[fd].waiters)
    && w !in b.waiters && (w < POOL_SIZE ==> w in b.free)
  }

  lemma OutOfUse(b: Book, w: Wid)
    requires Inv(b) && w !in b.waiters
    ensures GivenBack(b, w)
  {
    forall fd | 0 <= fd < |b.slots|
      ensures w !in b.slots[fd].waiters
    {
      assert SlotOk(b, fd);
    }
  }

  /** Withdrawing a watched event leaves it pending with no waiter, gives its waiter back, and changes no other
      event; an event that is not watched is left as it is. */
  lemma UnwatchExact(b: Book, fd: int, ev: Eid)
    requires Inv(b) && b.InTable(fd) && WellFormed(b, Unwatch(fd, ev))
    ensures var b' := Apply(b, Unwatch(fd, ev));
            if b.events[ev].waiter.None? then b' == b
            else
              && Inv(b') && b'.events == b.events[ev := b.events[ev].(waiter := None)] && Forgotten(b', ev)
              && GivenBack(b', b.events[ev].waiter.value) && b'.resolved == b.resolved
              && b'.waiters == b.waiters - {b.events[ev].waiter.value}
  {
    hide Inv;
    if b.events[ev].waiter.Some? {
      EventWaiter(b, ev);
      var w := b.events[ev].waiter.value;
      WaiterKnown(b, w);
      DetachKeepsInvIff(b, w, fd);
      OutOfUse(b.Detach(w, fd), w);
    }
  }

  /** Hence nothing resolves a withdrawn event until it is watched again. */
  lemma WithdrawnForGood(b: Book, fd: int, ev: Eid, run: seq<Step>)
    requires Inv(b) && b.InTable(fd) && WellFormed(b, Unwatch(fd, ev)) && b.events[ev].waiter.Some?
    requires WellFormedRun(Apply(b, Unwatch(fd, ev)), run) && forall s :: s in run ==> !(s.Watch? && s.ev == ev)
    ensures var e := After(Apply(b, Unwatch(fd, ev)), run); Forgotten(e, ev)
  {
    hide Inv, Apply, Forgotten;
    UnwatchExact(b, fd, ev);
    ForgottenUntilWatched(Apply(b, Unwatch(fd, ev)), run, ev);
  }

  /** A watch that gets a waiter puts it at the end of its fd's list, registers the fd if need be, and touches no other
      event; if the fd cannot be registered, the event fails and nobody waits. */
  lemma WatchExact(b: Book, s: Step)
    requires Inv(b) && s.Watch? && b.InTable(s.fd) && WellFormed(b, s) && (b.free != [] || s.malloc.Some?)
    ensures var b', e := Apply(b, s), b.events[s.ev];
            if b.slots[s.fd].registered || s.added then
              && s.ev in b'.events && b'.events[s.ev].waiter.Some?
              && var w := b'.events[s.ev].waiter.value;
              && b'.events == b.events[s.ev := e.(waiter := Some(w))] && w !in b.waiters
              && b'.waiters == b.waiters[w := Waiter(s.th, s.ev)] && |b'.slots| == |b.slots|
              && b'.slots[s.fd] == Slot(b.slots[s.fd].waiters + [w], |b.slots[s.fd].waiters| + 1, true)
              && b'.resolved == b.resolved
            else
              && b'.events == b.events[s.ev := e.(status := FAILED)] && b'.resolved == b.resolved + [s.ev]
              && b'.waiters == b.waiters && b'.slots == b.slots
  {
    SlotWaiters(b, s.fd);
    WaiterIsNew(b, s.malloc);
    hide Inv;
  }

  lemma WaiterIsNew(b: Book, malloc: Option<nat>)
    requires Inv(b) && (malloc.Some? ==> POOL_SIZE + malloc.value !in b.waiters)
    ensures Allocated(b, malloc).Some? ==> Allocated(b, malloc).value !in b.waiters
  {
    if b.free != [] {
      assert b.free[0] in b.free;
    }
  }
}
