/** internal/apth_reactor.c: the reactor thread's bookkeeping of waiters, fd slots and watched events. */
module ReactorBook {
  import opened Basics

  /** A `struct apth_epoll_waiter`, named by its place in the pool or, from POOL_SIZE on, by what malloc returned. */
  type Wid = nat

  /** An `apth_event_t`. */
  type Eid = nat

  const POOL_SIZE := 1024

  datatype EvStatus = PENDING | OCCURRED | FAILED

  datatype Goal = Goal(readable: bool, writeable: bool, exception: bool)

  datatype Revents = Revents(epollin: bool, epollout: bool, epollpri: bool, epollerr: bool, epollhup: bool)

  datatype Event = Event(fd: int, goal: Goal, status: EvStatus, waiter: Option<Wid>, registered: bool)

  datatype Waiter = Waiter(th: Tid, ev: Eid)

  datatype Slot = Slot(waiters: seq<Wid>, count: int, registered: bool)

  /** Why the waiters of an fd are being looked at. */
  datatype Cause = Ready(revents: Revents) | Closed

  predicate Matches(c: Cause, goal: Goal) {
    match c
    case Closed => true
    case Ready(r) =>
      || (goal.readable && r.epollin)
      || (goal.writeable && r.epollout)
      || (goal.exception && r.epollpri)
      || r.epollerr || r.epollhup
  }

  function Verdict(c: Cause): EvStatus {
    if c.Closed? then FAILED else OCCURRED
  }

  function Settled(e: Event, c: Cause): Event {
    e.(status := Verdict(c), waiter := None, registered := false)
  }

  /** Everything the reactor thread keeps. `resolved` lists the events marked OCCURRED or FAILED, in order, and `lost`
      counts the calls of malloc that failed. */
  datatype Book = Book(free: seq<Wid>, slots: seq<Slot>, active: seq<nat>, activeCount: int, waiters: map<Wid, Waiter>,
                       mallocs: int, events: map<Eid, Event>, resolved: seq<Eid>, lost: nat)
  {
    predicate InTable(fd: int) {
      0 <= fd < |slots|
    }

    /** The event that waiter w stands for. */
    function EventOf(w: Wid): Event
      requires w in waiters && waiters[w].ev in events
    {
      events[waiters[w].ev]
    }

    /** Waiter w, taken from the free list or from malloc, is linked into the slot of its fd. */
    function Attach(fd: nat, w: Wid, x: Waiter): Book
      requires InTable(fd) && x.ev in events && (w < POOL_SIZE ==> free != [])
    {
      this.(free := if w < POOL_SIZE then free[1..] else free,
            mallocs := if w < POOL_SIZE then mallocs else mallocs + 1,
            waiters := waiters[w := x],
            events := events[x.ev := events[x.ev].(waiter := Some(w))],
            slots := slots[fd := slots[fd].(waiters := slots[fd].waiters + [w], count := slots[fd].count + 1)])
    }

    /** Waiter w is unlinked from the slot it is in and freed; slot fd counts one less. */
    function Detach(w: Wid, fd: nat): Book
      requires w in waiters && waiters[w].ev in events && InTable(EventOf(w).fd) && InTable(fd)
    {
      var home := EventOf(w).fd;
      var slots' := slots[home := slots[home].(waiters := Minus(slots[home].waiters, w))];
      this.(free := if w < POOL_SIZE then free + [w] else free,
            mallocs := if w < POOL_SIZE then mallocs else mallocs - 1,
            waiters := waiters - {w},
            events := events[waiters[w].ev := EventOf(w).(waiter := None)],
            slots := slots'[fd := slots'[fd].(count := slots'[fd].count - 1)])
    }

    function Mark(ev: Eid, e: Event): Book {
      this.(events := events[ev := e], resolved := resolved + [ev])
    }

    function Register(fd: nat): Book
      requires InTable(fd)
    {
      this.(slots := slots[fd := slots[fd].(registered := true)], active := active + [fd],
            activeCount := activeCount + 1)
    }

    function Unregister(fd: nat): Book
      requires InTable(fd)
    {
      this.(slots := slots[fd := slots[fd].(registered := false)], active := Minus(active, fd),
            activeCount := activeCount - 1)
    }
  }

  // The invariant

  ghost predicate PoolOk(b: Book) {
    && NoRepeats(b.free)
    && (forall w :: w in b.free ==> w < POOL_SIZE && w !in b.waiters)
    && (forall w :: 0 <= w < POOL_SIZE ==> w in b.free || w in b.waiters)
    && b.mallocs == |Extra(b.waiters.Keys)| + b.lost
  }

  /** The waiters that came from malloc. */
  ghost function Extra(ws: set<Wid>): set<Wid> {
    set w | w in ws && w >= POOL_SIZE
  }

  ghost predicate BackPointers(b: Book) {
    && (forall w :: w in b.waiters ==> b.waiters[w].ev in b.events && b.EventOf(w).waiter == Some(w))
    && forall e :: e in b.events && b.events[e].waiter.Some? ==>
         && b.events[e].status == PENDING
         && b.events[e].waiter.value in b.waiters && b.waiters[b.events[e].waiter.value].ev == e
  }

  ghost predicate SlotOk(b: Book, fd: nat)
    requires b.InTable(fd) && BackPointers(b)
  {
    && NoRepeats(b.slots[fd].waiters)
    && b.slots[fd].count == |b.slots[fd].waiters|
    && (forall w :: w in b.slots[fd].waiters ==> w in b.waiters && b.EventOf(w).fd == fd)
    && (b.slots[fd].waiters != [] ==> b.slots[fd].registered)
    && (fd in b.active <==> b.slots[fd].registered)
  }

  /** Every waiter in use is in the slot of the fd it waits for. */
  ghost predicate Housed(b: Book)
    requires BackPointers(b)
  {
    forall w :: w in b.waiters ==> b.InTable(b.EventOf(w).fd) && w in b.slots[b.EventOf(w).fd].waiters
  }

  ghost predicate SlotsOk(b: Book)
    requires BackPointers(b)
  {
    && (forall fd :: 0 <= fd < |b.slots| ==> SlotOk(b, fd))
    && Housed(b)
    && NoRepeats(b.active)
    && b.activeCount == |b.active|
    && forall fd :: fd in b.active ==> b.InTable(fd)
  }

  ghost predicate ResolvedOk(b: Book) {
    NoRepeats(b.resolved) && forall e :: e in b.resolved <==> e in b.events && b.events[e].status != PENDING
  }

  /** Every pool waiter is in exactly one of the free list and one slot; both counters are the lengths of their lists;
      back-pointers are inverse; every fd that is waited for is registered; and no event was resolved twice. */
  ghost predicate Inv(b: Book) {
    PoolOk(b) && BackPointers(b) && SlotsOk(b) && ResolvedOk(b)
  }

  /** The invariant's first part in the words of the free list and the slots. */
  lemma EveryWaiterHasOnePlace(b: Book, w: Wid)
    requires Inv(b) && w < POOL_SIZE
    ensures w in b.free <==> forall fd :: 0 <= fd < |b.slots| ==> w !in b.slots[fd].waiters
    ensures forall f, g :: 0 <= f < |b.slots| && 0 <= g < |b.slots| ==>
              w in b.slots[f].waiters && w in b.slots[g].waiters ==> f == g
  {
    forall fd | 0 <= fd < |b.slots| && w in b.slots[fd].waiters
      ensures w in b.waiters && b.EventOf(w).fd == fd
    {
      assert SlotOk(b, fd);
    }
  }

  // The four changes

  lemma ExtraGains(ws: set<Wid>, w: Wid)
    requires w !in ws
    ensures |Extra(ws + {w})| == |Extra(ws)| + if w < POOL_SIZE then 0 else 1
  {
    assert Extra(ws + {w}) == if w < POOL_SIZE then Extra(ws) else Extra(ws) + {w};
  }

  /** The waiter is one that reactor_alloc_waiter may return. */
  predicate Available(b: Book, w: Wid) {
    if w < POOL_SIZE then b.free != [] && w == b.free[0] else b.free == [] && w !in b.waiters
  }

  /** An attach to a registered slot keeps the invariant exactly when the event names that fd, is still pending and is
      not being watched already. */
  lemma AttachKeepsInvIff(b: Book, fd: nat, w: Wid, x: Waiter)
    requires Inv(b) && b.InTable(fd) && b.slots[fd].registered && Available(b, w) && x.ev in b.events
    ensures Inv(b.Attach(fd, w, x)) <==>
              b.events[x.ev].fd == fd && b.events[x.ev].status == PENDING && b.events[x.ev].waiter.None?
  {
    var b' := b.Attach(fd, w, x);
    AttachPool(b, fd, w, x);
    if b.events[x.ev].fd == fd && b.events[x.ev].status == PENDING && b.events[x.ev].waiter.None? {
      AttachSlots(b, fd, w, x);
    } else if b.events[x.ev].waiter.Some? {
      var v := b.events[x.ev].waiter.value;
      assert v != w && v in b'.waiters && b'.EventOf(v).waiter == Some(w);
      assert !BackPointers(b');
    } else if b.events[x.ev].status != PENDING {
      assert b'.events[x.ev].waiter.Some? && b'.events[x.ev].status != PENDING;
      assert !BackPointers(b');
    } else if BackPointers(b') {
      assert b'.slots[fd].waiters[|b.slots[fd].waiters|] == w;
      assert !SlotOk(b', fd);
    }
  }

  lemma AttachPool(b: Book, fd: nat, w: Wid, x: Waiter)
    requires PoolOk(b) && b.InTable(fd) && Available(b, w) && x.ev in b.events
    ensures w !in b.waiters && PoolOk(b.Attach(fd, w, x))
  {
    var b' := b.Attach(fd, w, x);
    ExtraGains(b.waiters.Keys, w);
    assert b'.waiters.Keys == b.waiters.Keys + {w};
    if w < POOL_SIZE {
      assert b.free == [w] + b'.free;
      assert forall v :: v in b.free <==> v == w || v in b'.free;
    }
  }

  /** The slot is registered and the event may be watched. */
  ghost predicate MayAttach(b: Book, fd: nat, w: Wid, x: Waiter) {
    && b.InTable(fd) && b.slots[fd].registered && w !in b.waiters && x.ev in b.events
    && (w < POOL_SIZE ==> b.free != [])
    && b.events[x.ev].fd == fd && b.events[x.ev].status == PENDING && b.events[x.ev].waiter.None?
  }

  lemma AttachBack(b: Book, fd: nat, w: Wid, x: Waiter)
    requires BackPointers(b) && ResolvedOk(b) && MayAttach(b, fd, w, x)
    ensures BackPointers(b.Attach(fd, w, x)) && ResolvedOk(b.Attach(fd, w, x))
  {
  }

  lemma AttachSlot(b: Book, fd: nat, w: Wid, x: Waiter, f: nat)
    requires MayAttach(b, fd, w, x) && BackPointers(b) && BackPointers(b.Attach(fd, w, x))
    requires b.InTable(f) && SlotOk(b, f)
    ensures SlotOk(b.Attach(fd, w, x), f)
  {
    var b' := b.Attach(fd, w, x);
    assert f == fd ==> b'.slots[f].waiters == b.slots[f].waiters + [w];
  }

  lemma AttachSlots(b: Book, fd: nat, w: Wid, x: Waiter)
    requires BackPointers(b) && SlotsOk(b) && ResolvedOk(b) && MayAttach(b, fd, w, x)
    ensures BackPointers(b.Attach(fd, w, x)) && SlotsOk(b.Attach(fd, w, x)) && ResolvedOk(b.Attach(fd, w, x))
  {
    var b' := b.Attach(fd, w, x);
    AttachBack(b, fd, w, x);
    hide SlotOk;
    forall f | 0 <= f < |b'.slots|
      ensures SlotOk(b', f)
    {
      AttachSlot(b, fd, w, x, f);
    }
    assert b'.slots[fd].waiters == b.slots[fd].waiters + [w];
  }

  /** An unwatch keeps the invariant exactly when it names the fd that the waiter is waiting for. */
  lemma DetachKeepsInvIff(b: Book, w: Wid, fd: nat)
    requires Inv(b) && w in b.waiters && b.InTable(fd)
    ensures Inv(b.Detach(w, fd)) <==> fd == b.EventOf(w).fd
  {
    var home := b.EventOf(w).fd;
    var b' := b.Detach(w, fd);
    assert SlotOk(b, home) && SlotOk(b, fd);
    DetachPool(b, w, fd);
    DetachBack(b, w, fd);
    if fd == home {
      DetachSlots(b, w);
    } else {
      assert !SlotOk(b', fd);
    }
  }

  lemma DetachPool(b: Book, w: Wid, fd: nat)
    requires Inv(b) && w in b.waiters && b.InTable(fd)
    ensures PoolOk(b.Detach(w, fd))
  {
    var b' := b.Detach(w, fd);
    ExtraGains(b'.waiters.Keys, w);
    assert b.waiters.Keys == b'.waiters.Keys + {w};
    assert forall v :: v in b'.free <==> v in b.free || (v == w && w < POOL_SIZE);
  }

  lemma DetachBack(b: Book, w: Wid, fd: nat)
    requires Inv(b) && w in b.waiters && b.InTable(fd)
    ensures BackPointers(b.Detach(w, fd)) && ResolvedOk(b.Detach(w, fd))
  {
  }

  lemma DetachSlot(b: Book, w: Wid, f: nat)
    requires BackPointers(b) && w in b.waiters && b.InTable(b.EventOf(w).fd) && w in b.slots[b.EventOf(w).fd].waiters
    requires BackPointers(b.Detach(w, b.EventOf(w).fd)) && b.InTable(f) && SlotOk(b, f)
    ensures SlotOk(b.Detach(w, b.EventOf(w).fd), f)
  {
    if f == b.EventOf(w).fd {
      MinusOne(b.slots[f].waiters, w);
    }
  }

  lemma DetachHoused(b: Book, w: Wid)
    requires BackPointers(b) && w in b.waiters && Housed(b) && NoRepeats(b.slots[b.EventOf(w).fd].waiters)
    requires BackPointers(b.Detach(w, b.EventOf(w).fd))
    ensures Housed(b.Detach(w, b.EventOf(w).fd))
  {
    MinusOne(b.slots[b.EventOf(w).fd].waiters, w);
  }

  lemma DetachSlots(b: Book, w: Wid)
    requires Inv(b) && w in b.waiters
    ensures BackPointers(b.Detach(w, b.EventOf(w).fd)) && SlotsOk(b.Detach(w, b.EventOf(w).fd))
  {
    var home := b.EventOf(w).fd;
    var b' := b.Detach(w, home);
    DetachBack(b, w, home);
    assert SlotOk(b, home);
    DetachHoused(b, w);
    hide SlotOk, PoolOk, ResolvedOk, Housed;
    forall f | 0 <= f < |b'.slots|
      ensures SlotOk(b', f)
    {
      DetachSlot(b, w, f);
    }
  }

  lemma MarkKeepsInv(b: Book, ev: Eid, e: Event)
    requires Inv(b) && ev in b.events && b.events[ev].waiter.None? && b.events[ev].status == PENDING
    requires e.status != PENDING && e.waiter.None? && e.fd == b.events[ev].fd
    ensures Inv(b.Mark(ev, e))
  {
    var b' := b.Mark(ev, e);
    assert forall x :: x in b'.resolved <==> x in b.resolved || x == ev;
    assert BackPointers(b');
    forall f | 0 <= f < |b'.slots|
      ensures SlotOk(b', f)
    {
      assert SlotOk(b, f);
    }
  }

  lemma RegisterKeepsInv(b: Book, fd: nat)
    requires Inv(b) && b.InTable(fd) && !b.slots[fd].registered
    ensures Inv(b.Register(fd))
  {
    var b' := b.Register(fd);
    assert SlotOk(b, fd);
    assert forall f :: f in b'.active <==> f in b.active || f == fd;
    forall f | 0 <= f < |b'.slots|
      ensures SlotOk(b', f)
    {
      assert SlotOk(b, f);
    }
  }

  lemma UnregisterKeepsInv(b: Book, fd: nat)
    requires Inv(b) && b.InTable(fd) && b.slots[fd].registered && b.slots[fd].waiters == []
    ensures Inv(b.Unregister(fd))
  {
    var b' := b.Unregister(fd);
    assert SlotOk(b, fd);
    MinusOne(b.active, fd);
    forall f | 0 <= f < |b'.slots|
      ensures SlotOk(b', f)
    {
      assert SlotOk(b, f);
    }
  }

  /** What a goal asks for, and what a report offers. */
  datatype Readiness = In | Out | Pri

  function Asked(g: Goal): set<Readiness> {
    (if g.readable then {In} else {}) + (if g.writeable then {Out} else {}) + (if g.exception then {Pri} else {})
  }

  function Offered(r: Revents): set<Readiness> {
    (if r.epollin then {In} else {}) + (if r.epollout then {Out} else {}) + (if r.epollpri then {Pri} else {})
  }

  /** A report matches a goal exactly if it offers something that the goal asks for, or is an error or a hang-up, which
      match every goal. */
  lemma MatchesIff(r: Revents, g: Goal)
    ensures Matches(Ready(r), g) <==> !(Asked(g) !! Offered(r)) || r.epollerr || r.epollhup
  {
    if Matches(Ready(r), g) && !r.epollerr && !r.epollhup {
      var x := if g.readable && r.epollin then In else if g.writeable && r.epollout then Out else Pri;
      assert x in Asked(g) && x in Offered(r);
    }
  }
}
