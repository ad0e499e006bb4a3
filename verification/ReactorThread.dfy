/** The reactor thread itself: `struct apth_reactor` and its handlers, in place. */
module ReactorThread {
  import opened Basics
  import opened ReactorBook
  import opened ReactorRun

  /** `struct apth_reactor`; `resolved` and `lost` only record what happened. */
  class Reactor {
    var free: seq<Wid>
    var slots: seq<Slot>
    var active: seq<nat>
    var activeCount: int
    var waiters: map<Wid, Waiter>
    var mallocs: int
    var events: map<Eid, Event>
    var wakeFd: int
    ghost var resolved: seq<Eid>
    ghost var lost: nat

    ghost function S(): Book
      reads this
    {
      Book(free, slots, active, activeCount, waiters, mallocs, events, resolved, lost)
    }

    /** apth_reactor_start: the whole pool is free, no slot is registered. */
    constructor (capacity: nat, evs: map<Eid, Event>, wake: int)
      requires forall e :: e in evs ==> evs[e].status == PENDING && evs[e].waiter.None?
      ensures Inv(S()) && events == evs && waiters == map[] && |slots| == capacity && wakeFd == wake
      ensures S() == Book(seq(POOL_SIZE, i => i), seq(capacity, i => Slot([], 0, false)), [], 0, map[], 0, evs, [], 0)
    {
      free := seq(POOL_SIZE, i => i);
      slots := seq(capacity, i => Slot([], 0, false));
      active, activeCount, waiters, mallocs, events, wakeFd := [], 0, map[], 0, evs, wake;
      resolved, lost := [], 0;
      new;
      StartHolds(S());
    }

    /** reactor_alloc_waiter. */
    method AllocWaiter(malloc: Option<nat>) returns (w: Option<Wid>)
      requires Inv(S())
      modifies this
      ensures w == Allocated(old(S()), malloc)
      ensures w.Some? ==> S() == old(S()).(free := if w.value < POOL_SIZE then old(free)[1..] else old(free),
                                          mallocs := if w.value < POOL_SIZE then old(mallocs) else old(mallocs) + 1)
      ensures w.None? ==> S() == old(S()).(mallocs := old(mallocs) + 1, lost := old(lost) + 1)
      ensures wakeFd == old(wakeFd)
    {
      FirstFree(S());
      if free != [] {
        w := Some(free[0]);
        free := free[1..];
      } else {
        mallocs := mallocs + 1;
        if malloc.None? {
          lost := lost + 1;
          return None;
        }
        w := Some(POOL_SIZE + malloc.value);
      }
    }

    /** reactor_free_waiter. */
    method FreeWaiter(w: Wid)
      modifies this`free, this`mallocs
      ensures free == (if w < POOL_SIZE then old(free) + [w] else old(free))
      ensures mallocs == (if w < POOL_SIZE then old(mallocs) else old(mallocs) - 1)
    {
      if w < POOL_SIZE {
        free := free + [w];
      } else {
        mallocs := mallocs - 1;
      }
    }

    /** A waiter is taken, filled in and linked at the end of the slot's list. */
    method Link(fd: int, x: Waiter, malloc: Option<nat>) returns (w: Option<Wid>)
      requires Inv(S()) && 0 <= fd < |slots| && x.ev in events
      modifies this
      ensures w == Allocated(old(S()), malloc) && wakeFd == old(wakeFd)
      ensures w.None? ==> S() == old(S()).(mallocs := old(mallocs) + 1, lost := old(lost) + 1)
      ensures w.Some? ==> (w.value < POOL_SIZE ==> old(free) != []) && S() == old(S()).Attach(fd, w.value, x)
    {
      hide Inv;
      w := AllocWaiter(malloc);
      if w.Some? {
        waiters := waiters[w.value := x];
        events := events[x.ev := events[x.ev].(waiter := w)];
        slots := slots[fd := slots[fd].(waiters := slots[fd].waiters + [w.value], count := slots[fd].count + 1)];
      }
    }

    /** epoll_ctl has failed for the waiter linked last: it is unlinked and freed, and its event fails. */
    method GiveUp(fd: int, w: Wid, ev: Eid, ghost b: Book, ghost x: Waiter)
      requires b.InTable(fd) && ev == x.ev && ev in b.events && w !in b.waiters && (w < POOL_SIZE ==> b.free != [])
      requires S() == b.Attach(fd, w, x)
      modifies this
      ensures S() == Refuse(b, w, ev) && wakeFd == old(wakeFd)
    {
      var left := slots[fd].waiters;
      slots := slots[fd := slots[fd].(waiters := left[..|left| - 1], count := slots[fd].count - 1)];
      waiters := waiters - {w};
      FreeWaiter(w);
      events := events[ev := events[ev].(status := FAILED, waiter := None)];
      resolved := resolved + [ev];
      Undone(b, fd, w, x);
    }

    /** reactor_process_watch. */
    method ProcessWatch(fd: int, ev: Eid, th: Tid, malloc: Option<nat>, added: bool)
      requires Inv(S()) && ev in events && (malloc.Some? ==> POOL_SIZE + malloc.value !in waiters)
      modifies this
      ensures S() == Apply(old(S()), Watch(fd, ev, th, malloc, added)) && wakeFd == old(wakeFd)
    {
      hide Inv, Available, Refuse, Apply;
      OnWatch(S(), Watch(fd, ev, th, malloc, added));
      if fd < 0 || fd >= |slots| {
        return;
      }
      ghost var b := S();
      FreshWaiter(b, malloc);
      var w := Link(fd, Waiter(th, ev), malloc);
      if w.Some? && !slots[fd].registered {
        if added {
          Enlist(fd);
        } else {
          GiveUp(fd, w.value, ev, b, Waiter(th, ev));
        }
      }
    }

    method Enlist(fd: int)
      requires 0 <= fd < |slots|
      modifies this`slots, this`active, this`activeCount
      ensures S() == old(S()).Register(fd)
    {
      slots := slots[fd := slots[fd].(registered := true)];
      active := active + [fd];
      activeCount := activeCount + 1;
    }

    /** list_remove of a waiter's element from the list it is in. */
    method Unlink(w: Wid)
      requires Known(S(), w)
      modifies this`slots, this`waiters
      ensures waiters == old(waiters) - {w}
      ensures slots == old(slots)[events[old(waiters)[w].ev].fd :=
                         old(slots)[events[old(waiters)[w].ev].fd].(waiters :=
                           Minus(old(slots)[events[old(waiters)[w].ev].fd].waiters, w))]
    {
      var home := events[waiters[w].ev].fd;
      slots := slots[home := slots[home].(waiters := Minus(slots[home].waiters, w))];
      waiters := waiters - {w};
    }

    /** reactor_process_unwatch. */
    method ProcessUnwatch(fd: int, ev: Eid)
      requires Inv(S()) && ev in events
      modifies this
      ensures S() == Apply(old(S()), Unwatch(fd, ev)) && wakeFd == old(wakeFd)
    {
      hide Inv;
      if fd < 0 || fd >= |slots| {
        return;
      }
      if events[ev].waiter.Some? {
        var w := events[ev].waiter.value;
        EventWaiter(S(), ev);
        Unlink(w);
        FreeWaiter(w);
        events := events[ev := events[ev].(waiter := None)];
        slots := slots[fd := slots[fd].(count := slots[fd].count - 1)];
      }
    }

    /** The event of waiter w is marked and w is unlinked and freed; the slot's count is left to the caller. */
    method Resolve(w: Wid, c: Cause)
      requires Known(S(), w)
      modifies this
      ensures wakeFd == old(wakeFd)
      ensures S() == Settle(old(S()), w, c).(slots := slots)
      ensures slots == Recounted(Settle(old(S()), w, c).slots, old(S()).EventOf(w).fd,
                                 old(slots)[old(S()).EventOf(w).fd].count)
    {
      var ev := waiters[w].ev;
      Unlink(w);
      events := events[ev := events[ev].(status := Verdict(c), waiter := None, registered := false)];
      resolved := resolved + [ev];
      FreeWaiter(w);
    }

    /** reactor_process_fd_close; the slot's count is set only at the end. */
    method ProcessFdClose(fd: int)
      requires Inv(S())
      modifies this
      ensures S() == Apply(old(S()), FdClose(fd)) && wakeFd == old(wakeFd)
    {
      hide Inv, Settle, Known, Hit, Minus;
      if fd < 0 || fd >= |slots| {
        return;
      }
      SlotWaiters(S(), fd);
      CloseExact(S(), fd);
      if slots[fd].count == 0 {
        if slots[fd].registered {
          Forget(fd);
        }
        return;
      }
      ghost var b := S();
      ghost var c := S();
      while slots[fd].waiters != []
        invariant |slots| == |c.slots| && c.InTable(fd) && Inv(c) && slots[fd].registered == c.slots[fd].registered
        invariant S() == c.(slots := Recounted(c.slots, fd, slots[fd].count))
        invariant Sweep(c, c.slots[fd].waiters, Closed) == Sweep(b, b.slots[fd].waiters, Closed)
        invariant wakeFd == old(wakeFd)
        decreases |slots[fd].waiters|
      {
        var w := slots[fd].waiters[0];
        CloseOne(c, fd);
        assert c.slots[fd].waiters[0] == w;
        RecountedKnows(c, fd, slots[fd].count, w);
        Resolve(w, Closed);
        c := Settle(c, w, Closed);
      }
      slots := slots[fd := slots[fd].(count := 0)];
      SlotWaiters(c, fd);
      assert S() == c;
      if slots[fd].registered {
        Forget(fd);
      }
    }

    method Forget(fd: int)
      requires 0 <= fd < |slots|
      modifies this`slots, this`active, this`activeCount
      ensures S() == old(S()).Unregister(fd)
    {
      slots := slots[fd := slots[fd].(registered := false)];
      active := Minus<nat>(active, fd);
      activeCount := activeCount - 1;
    }

    /** The body of reactor_process_epoll_events for one fd. */
    method ProcessCompletion(fd: int, revents: Revents)
      requires Inv(S())
      modifies this
      ensures S() == Apply(old(S()), Completion(fd, revents)) && wakeFd == old(wakeFd)
    {
      hide Inv, Settle, Minus;
      if fd < 0 || fd >= |slots| {
        return;
      }
      ghost var b := S();
      var i := 0;
      assert slots[fd].waiters[0..] == slots[fd].waiters;
      while i < |slots[fd].waiters|
        invariant |slots| == |b.slots| && 0 <= i <= |slots[fd].waiters| && Inv(S()) && wakeFd == old(wakeFd)
        invariant Sweep(S(), slots[fd].waiters[i..], Ready(revents)) == Sweep(b, b.slots[fd].waiters, Ready(revents))
        decreases |slots[fd].waiters| - i
      {
        var w := slots[fd].waiters[i];
        CompleteOne(S(), fd, i, Ready(revents));
        if Matches(Ready(revents), events[waiters[w].ev].goal) {
          ghost var c := S();
          Resolve(w, Ready(revents));
          slots := slots[fd := slots[fd].(count := slots[fd].count - 1)];
          SettleCount(c, w, Ready(revents));
          assert S() == Settle(c, w, Ready(revents));
        } else {
          i := i + 1;
        }
      }
    }

    /** reactor_process_epoll_events: every entry but the wake-up descriptor's is a completion. */
    method ProcessEpollEvents(ready: seq<(int, Revents)>)
      requires Inv(S())
      modifies this
      ensures S() == After(old(S()), Completions(ready, wakeFd)) && Inv(S()) && wakeFd == old(wakeFd)
    {
      hide Inv, Apply;
      ghost var b := S();
      assert ready[0..] == ready;
      for i := 0 to |ready|
        invariant Inv(S()) && wakeFd == old(wakeFd)
        invariant After(S(), Completions(ready[i..], wakeFd)) == After(b, Completions(ready, wakeFd))
      {
        assert ready[i..][0] == ready[i] && ready[i..][1..] == ready[i + 1..];
        assert [] + Completions(ready[i + 1..], wakeFd) == Completions(ready[i + 1..], wakeFd);
        if ready[i].0 != wakeFd {
          StepKeepsInv(S(), Completion(ready[i].0, ready[i].1));
          ProcessCompletion(ready[i].0, ready[i].1);
        }
      }
    }

    /** The loop of reactor_drain_requests over the requests taken from the queue. */
    method DrainRequests(reqs: seq<Step>)
      requires Inv(S()) && WellFormedRun(S(), reqs)
      requires forall r :: r in reqs ==> !r.Completion? && (r.Watch? || r.Unwatch? ==> r.ev in events)
      modifies this
      ensures S() == After(old(S()), reqs) && Inv(S()) && wakeFd == old(wakeFd)
    {
      hide Inv, Apply, WellFormed;
      ghost var b := S();
      assert reqs[0..] == reqs;
      for i := 0 to |reqs|
        invariant Inv(S()) && wakeFd == old(wakeFd) && WellFormedRun(S(), reqs[i..])
        invariant events.Keys == old(events.Keys)
        invariant After(S(), reqs[i..]) == After(b, reqs)
      {
        assert reqs[i..][0] == reqs[i] && reqs[i..][1..] == reqs[i + 1..];
        StepKeepsInv(S(), reqs[i]);
        KeepsEvents(S(), reqs[i]);
        match reqs[i]
        case Watch(fd, ev, th, malloc, added) =>
          if 0 <= fd < |slots| {
            FreshMemory(S(), reqs[i]);
            ProcessWatch(fd, ev, th, malloc, added);
          } else {
            OutOfTable(S(), reqs[i]);
          }
        case Unwatch(fd, ev) => ProcessUnwatch(fd, ev);
        case FdClose(fd) => ProcessFdClose(fd);
        case Completion(_, _) =>
      }
    }
  }

  /** Linking a waiter and unlinking it again. */
  lemma Undone(b: Book, fd: nat, w: Wid, x: Waiter)
    requires b.InTable(fd) && x.ev in b.events && w !in b.waiters && (w < POOL_SIZE ==> b.free != [])
    ensures var c := b.Attach(fd, w, x);
            && c.slots[fd].waiters[..|c.slots[fd].waiters| - 1] == b.slots[fd].waiters
            && c.slots[fd := c.slots[fd].(waiters := b.slots[fd].waiters, count := c.slots[fd].count - 1)] == b.slots
            && c.waiters - {w} == b.waiters
            && c.events[x.ev := c.events[x.ev].(status := FAILED, waiter := None)] ==
               b.events[x.ev := b.events[x.ev].(status := FAILED, waiter := None)]
  {
  }

  /** Slot fd with another count. */
  function Recounted(slots: seq<Slot>, fd: int, count: int): seq<Slot>
    requires 0 <= fd < |slots|
  {
    slots[fd := slots[fd].(count := count)]
  }

  lemma FreshWaiter(b: Book, malloc: Option<nat>)
    requires Inv(b) && (malloc.Some? ==> POOL_SIZE + malloc.value !in b.waiters)
    ensures Allocated(b, malloc).Some? ==>
              Available(b, Allocated(b, malloc).value) && Allocated(b, malloc).value !in b.waiters
  {
    if b.free != [] {
      assert b.free[0] in b.free;
    }
  }

  /** The first waiter of fd's slot is settled: the rest of the sweep is the same. */
  lemma CloseOne(b: Book, fd: nat)
    requires Inv(b) && b.InTable(fd) && b.slots[fd].waiters != []
    ensures var w := b.slots[fd].waiters[0];
            && Known(b, w) && b.EventOf(w).fd == fd && Inv(Settle(b, w, Closed))
            && |Settle(b, w, Closed).slots| == |b.slots|
            && Settle(b, w, Closed).slots[fd].waiters == b.slots[fd].waiters[1..]
            && Sweep(Settle(b, w, Closed), b.slots[fd].waiters[1..], Closed) == Sweep(b, b.slots[fd].waiters, Closed)
  {
    var w := b.slots[fd].waiters[0];
    InSlot(b, fd, 0);
    hide Inv;
    SettleKeepsInv(b, w, Closed);
  }

  lemma InSlot(b: Book, fd: nat, i: nat)
    requires Inv(b) && b.InTable(fd) && i < |b.slots[fd].waiters|
    ensures var w := b.slots[fd].waiters[i];
            Known(b, w) && b.EventOf(w).fd == fd && NoRepeats(b.slots[fd].waiters)
  {
    assert SlotOk(b, fd);
    assert b.slots[fd].waiters[i] in b.slots[fd].waiters;
    WaiterKnown(b, b.slots[fd].waiters[i]);
  }

  lemma RecountedKnows(b: Book, fd: nat, count: int, w: Wid)
    requires b.InTable(fd) && Known(b, w) && b.EventOf(w).fd == fd
    ensures var b' := b.(slots := Recounted(b.slots, fd, count));
            && Known(b', w) && b'.EventOf(w).fd == fd
            && Settle(b', w, Closed) == Settle(b, w, Closed).(slots := Settle(b', w, Closed).slots)
            && forall n :: Recounted(Settle(b', w, Closed).slots, fd, n) == Recounted(Settle(b, w, Closed).slots, fd, n)
  {
  }

  /** Waiter i of fd's slot in a sweep that has reached it. */
  lemma CompleteOne(b: Book, fd: nat, i: nat, c: Cause)
    requires Inv(b) && b.InTable(fd) && i < |b.slots[fd].waiters|
    ensures var w := b.slots[fd].waiters[i];
            && Known(b, w) && b.EventOf(w).fd == fd && Inv(Settle(b, w, c)) && |Settle(b, w, c).slots| == |b.slots|
            && |Settle(b, w, c).slots[fd].waiters| == |b.slots[fd].waiters| - 1
            && Sweep(b, b.slots[fd].waiters[i..], c) ==
                 if Matches(c, b.EventOf(w).goal)
                 then Sweep(Settle(b, w, c), Settle(b, w, c).slots[fd].waiters[i..], c)
                 else Sweep(b, b.slots[fd].waiters[i + 1..], c)
  {
    var ws := b.slots[fd].waiters;
    InSlot(b, fd, i);
    hide Inv;
    SettleKeepsInv(b, ws[i], c);
    MinusAt(ws, i);
    assert Settle(b, ws[i], c).slots[fd].waiters == ws[..i] + ws[i + 1..];
    assert (ws[..i] + ws[i + 1..])[i..] == ws[i + 1..];
    assert ws[i..][0] == ws[i] && ws[i..][1..] == ws[i + 1..];
  }

  lemma SettleCount(b: Book, w: Wid, c: Cause)
    requires Known(b, w)
    ensures var fd := b.EventOf(w).fd;
            && |Settle(b, w, c).slots| == |b.slots|
            && forall n ::
                 Recounted(Recounted(Settle(b, w, c).slots, fd, n), fd, b.slots[fd].count - 1) == Settle(b, w, c).slots
  {
  }

  /** The completions among what epoll_wait reports. */
  function Completions(ready: seq<(int, Revents)>, wakeFd: int): seq<Step> {
    if ready == [] then []
    else (if ready[0].0 == wakeFd then [] else [Completion(ready[0].0, ready[0].1)]) + Completions(ready[1..], wakeFd)
  }

  lemma KeepsEvents(b: Book, s: Step)
    requires Inv(b) && WellFormed(b, s)
    ensures Apply(b, s).events.Keys == b.events.Keys
  {
    hide Inv;
    if b.InTable(s.fd) {
      match s
      case Watch(_, _, _, _, _) =>
      case Unwatch(fd, ev) =>
      case FdClose(fd) => CloseExact(b, fd);
      case Completion(fd, revents) => CompletionExact(b, fd, revents);
    }
  }

  lemma FreshMemory(b: Book, s: Step)
    requires WellFormed(b, s) && s.Watch? && b.InTable(s.fd)
    ensures s.malloc.Some? ==> POOL_SIZE + s.malloc.value !in b.waiters
  {
  }

  lemma OnWatch(b: Book, s: Step)
    requires s.Watch? && s.ev in b.events
    ensures Apply(b, s) == if b.InTable(s.fd) then Watched(b, s.fd, s.ev, s.th, s.malloc, s.added) else b
  {
  }

  lemma OutOfTable(b: Book, s: Step)
    requires !b.InTable(s.fd)
    ensures Apply(b, s) == b
  {
  }
}
