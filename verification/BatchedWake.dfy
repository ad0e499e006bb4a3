/** internal/apth_event.c: the scan of a scheduler's waiting queue and the batched wake-up that follows it. */
module BatchedWake {
  import opened Basics
  import opened ReactorBook

  const MAX_WAKE_BATCH := 512

  const NSIG := 65

  /** `ev_type` with what its check reads: whether an fd is registered and whether registering it would fail, whether
      the awaited thread state has been reached, what the user's function returns. */
  datatype Kind =
    | Fd(registered: bool, addFails: bool)
    | Select
    | Sigs(sigs: set<int>)
    | Time(at: int)
    | Joined(reached: bool)
    | Func(holds: bool, period: int)

  datatype Awaited = Awaited(kind: Kind, status: EvStatus)

  datatype Thread = Thread(events: seq<Awaited>, sigpending: set<int>, cancelreq: bool, ioBound: bool)

  // One thread

  /** The lowest signal, from n on, that is both awaited and pending; NSIG if there is none. */
  function LowestSignal(awaited: set<int>, pending: set<int>, n: nat): (sig: int)
    requires n <= NSIG
    ensures n <= sig <= NSIG && (sig < NSIG ==> sig in awaited && sig in pending)
    ensures forall s :: n <= s < sig ==> !(s in awaited && s in pending)
    decreases NSIG - n
  {
    if n == NSIG || (n in awaited && n in pending) then n else LowestSignal(awaited, pending, n + 1)
  }

  predicate Fires(e: Awaited, sigpending: set<int>, now: int) {
    match e.kind
    case Fd(registered, addFails) => !registered && addFails
    case Select => false
    case Sigs(sigs) => LowestSignal(sigs, sigpending, 1) < NSIG
    case Time(at) => at < now
    case Joined(reached) => reached
    case Func(holds, _) => holds
  }

  /** The first scan's effect on one event. */
  function Checked(e: Awaited, sigpending: set<int>, now: int): Awaited {
    if e.status != PENDING then e
    else if Fires(e, sigpending, now) then e.(status := if e.kind.Fd? then FAILED else OCCURRED)
    else if e.kind.Fd? then e.(kind := Fd(true, e.kind.addFails))
    else e
  }

  /** A signal that is reported to an event is no longer pending. */
  function SignalsLeft(e: Awaited, sigpending: set<int>): set<int> {
    if e.status == PENDING && e.kind.Sigs? && Fires(e, sigpending, 0)
    then sigpending - {LowestSignal(e.kind.sigs, sigpending, 1)} else sigpending
  }

  /** When a pending event that did not fire wants to be looked at again. */
  function Deadline(e: Awaited, now: int): Option<int> {
    if e.status != PENDING then None
    else if e.kind.Time? then Some(e.kind.at)
    else if e.kind.Func? then Some(now + e.kind.period)
    else None
  }

  predicate Due(th: Thread) {
    th.cancelreq || SomeDue(th.events)
  }

  /** The thread once its events from the i-th on have been checked. */
  function ScannedFrom(th: Thread, i: nat, now: int): (r: Thread)
    requires i <= |th.events|
    ensures |r.events| == |th.events| && r.cancelreq == th.cancelreq && r.ioBound == th.ioBound
    ensures forall k :: 0 <= k < i ==> r.events[k] == th.events[k]
    ensures forall k :: 0 <= k < |th.events| && th.events[k].status != PENDING ==> r.events[k] == th.events[k]
    decreases |th.events| - i
  {
    if i == |th.events| then th
    else ScannedFrom(th.(events := th.events[i := Checked(th.events[i], th.sigpending, now)],
                         sigpending := SignalsLeft(th.events[i], th.sigpending)), i + 1, now)
  }

  function Scanned(th: Thread, now: int): Thread {
    ScannedFrom(th, 0, now)
  }

  /** The fd events that a thread still has registered are given back when it wakes. */
  function Unwatched(th: Thread): (r: Thread)
    ensures Due(r) <==> Due(th)
  {
    var r := th.(events := seq(|th.events|, i requires 0 <= i < |th.events| =>
                                 var e := th.events[i];
                                 if e.kind.Fd? then e.(kind := Fd(false, e.kind.addFails)) else e));
    assert forall k :: 0 <= k < |th.events| ==> r.events[k].status == th.events[k].status && r.events[k] in r.events;
    assert forall e :: e in r.events ==> exists k :: 0 <= k < |th.events| && e == r.events[k];
    assert forall k :: 0 <= k < |th.events| ==> th.events[k] in th.events;
    r
  }

  /** Some pending event of the thread, from the i-th on, fires. */
  ghost predicate SomeFires(th: Thread, i: nat, now: int) {
    exists k :: i <= k < |th.events| && th.events[k].status == PENDING && Fires(th.events[k], th.sigpending, now)
  }

  lemma {:induction false} StaysDue(th: Thread, i: nat, now: int)
    requires i <= |th.events| && Due(th)
    ensures Due(ScannedFrom(th, i, now))
  {
    if e :| e in th.events && e.status != PENDING {
      var k :| 0 <= k < |th.events| && th.events[k] == e;
      assert ScannedFrom(th, i, now).events[k] in ScannedFrom(th, i, now).events;
    }
  }

  /** A scan makes a thread due exactly when it was already, or one of its pending events fires; that signals reported
      to one event are taken from the next changes nothing in this. */
  lemma {:induction false} ScanFinds(th: Thread, i: nat, now: int)
    requires i <= |th.events|
    ensures Due(ScannedFrom(th, i, now)) <==> Due(th) || SomeFires(th, i, now)
    decreases |th.events| - i
  {
    if Due(th) {
      StaysDue(th, i, now);
    } else if i < |th.events| {
      var e := th.events[i];
      assert e in th.events;
      var e' := Checked(e, th.sigpending, now);
      var th1 := th.(events := th.events[i := e'], sigpending := SignalsLeft(e, th.sigpending));
      assert th1.events[i] in th1.events;
      if Fires(e, th.sigpending, now) {
        StaysDue(th1, i + 1, now);
      } else {
        ScanFinds(th1, i + 1, now);
        assert th1.sigpending == th.sigpending;
        assert forall k :: i < k < |th.events| ==> th1.events[k] == th.events[k];
        assert forall x :: x in th1.events ==> x in th.events || x == e';
      }
    }
  }

  // The queues

  predicate IsDue(threads: map<Tid, Thread>, t: Tid) {
    t in threads && Due(threads[t])
  }

  /** The due threads of a list, in order. */
  function DueIn(ts: seq<Tid>, threads: map<Tid, Thread>): seq<Tid> {
    if ts == [] then [] else (if IsDue(threads, ts[0]) then [ts[0]] else []) + DueIn(ts[1..], threads)
  }

  /** The others, in order. */
  function NotDueIn(ts: seq<Tid>, threads: map<Tid, Thread>): seq<Tid> {
    if ts == [] then [] else (if IsDue(threads, ts[0]) then [] else [ts[0]]) + NotDueIn(ts[1..], threads)
  }

  predicate IsIo(threads: map<Tid, Thread>, t: Tid) {
    t in threads && threads[t].ioBound
  }

  function DefaultIn(ts: seq<Tid>, threads: map<Tid, Thread>): seq<Tid> {
    if ts == [] then [] else (if IsIo(threads, ts[0]) then [] else [ts[0]]) + DefaultIn(ts[1..], threads)
  }

  /** The IO_BOUND threads of a list, latest first. */
  function IoReversed(ts: seq<Tid>, threads: map<Tid, Thread>): seq<Tid> {
    if ts == [] then [] else IoReversed(ts[1..], threads) + if IsIo(threads, ts[0]) then [ts[0]] else []
  }

  /** The ready queue once ts have been moved to it: default-class threads behind it in order, IO_BOUND ones before
      it. */
  function Woken(ready: seq<Tid>, ts: seq<Tid>, threads: map<Tid, Thread>): seq<Tid> {
    IoReversed(ts, threads) + ready + DefaultIn(ts, threads)
  }

  lemma WokenOne(ready: seq<Tid>, ts: seq<Tid>, threads: map<Tid, Thread>)
    requires ts != []
    ensures Woken(ready, ts, threads) ==
            Woken(if IsIo(threads, ts[0]) then [ts[0]] + ready else ready + [ts[0]], ts[1..], threads)
  {
  }

  lemma {:induction false} SameThreads(ts: seq<Tid>, a: map<Tid, Thread>, b: map<Tid, Thread>)
    requires forall t :: t in ts ==> IsDue(a, t) == IsDue(b, t) && IsIo(a, t) == IsIo(b, t)
    ensures DueIn(ts, a) == DueIn(ts, b) && NotDueIn(ts, a) == NotDueIn(ts, b)
    ensures DefaultIn(ts, a) == DefaultIn(ts, b) && IoReversed(ts, a) == IoReversed(ts, b)
  {
    if ts != [] {
      SameThreads(ts[1..], a, b);
    }
  }

  lemma {:induction false} DueAreThere(ts: seq<Tid>, threads: map<Tid, Thread>)
    ensures forall t :: t in DueIn(ts, threads) <==> t in ts && IsDue(threads, t)
    ensures forall t :: t in NotDueIn(ts, threads) <==> t in ts && !IsDue(threads, t)
    ensures DueIn(ts, threads) == [] ==> NotDueIn(ts, threads) == ts
  {
    if ts != [] {
      DueAreThere(ts[1..], threads);
      assert ts == [ts[0]] + ts[1..];
    }
  }

  /** Moving the first due thread away leaves the rest as they were. */
  lemma {:induction false} FirstDueLeaves(ts: seq<Tid>, threads: map<Tid, Thread>)
    requires DueIn(ts, threads) != []
    ensures var t := DueIn(ts, threads)[0];
            && t in ts
            && DueIn(Minus(ts, t), threads) == DueIn(ts, threads)[1..]
            && NotDueIn(Minus(ts, t), threads) == NotDueIn(ts, threads)
  {
    if !IsDue(threads, ts[0]) {
      FirstDueLeaves(ts[1..], threads);
      var t := DueIn(ts, threads)[0];
      DueAreThere(ts[1..], threads);
      assert Minus(ts, t) == [ts[0]] + Minus(ts[1..], t);
    }
  }

  /** The scheduler's part: its waiting and ready queues and the threads in them. */
  class EventManager {
    var waiting: seq<Tid>
    var ready: seq<Tid>
    var threads: map<Tid, Thread>

    ghost predicate Valid()
      reads this
    {
      NoRepeats(waiting) && forall t :: t in waiting ==> t in threads
    }

    /** Checks the events of one thread in place, keeping the earliest deadline. */
    method ScanThread(t: Tid, now: int, timer: Option<int>) returns (occurred: bool, timer': Option<int>)
      requires t in threads
      modifies this`threads
      ensures threads == old(threads)[t := Scanned(old(threads)[t], now)]
      ensures occurred == Due(threads[t])
      ensures Earliest(timer, threads[t].events, now, timer')
    {
      hide Earliest, Checked, SignalsLeft, SomeDue, Deadline;
      occurred := threads[t].cancelreq;
      timer' := timer;
      ScanBegins(timer, now);
      ghost var whole := Scanned(threads[t], now);
      var th, n := threads[t], |threads[t].events|;
      for i := 0 to n
        invariant threads == old(threads) && |th.events| == n && th.cancelreq == threads[t].cancelreq
        invariant ScannedFrom(th, i, now) == whole
        invariant occurred == (th.cancelreq || SomeDue(th.events[..i]))
        invariant Earliest(timer, th.events[..i], now, timer')
      {
        var e := th.events[i];
        var e' := Checked(e, th.sigpending, now);
        ghost var before := th.events;
        th := th.(events := th.events[i := e'], sigpending := SignalsLeft(e, th.sigpending));
        assert th.events[..i + 1] == before[..i] + [e'];
        SomeDueMore(before[..i], e');
        occurred := occurred || e'.status != PENDING;
        EarliestMore(timer, before[..i], e', now, timer');
        var d := Deadline(e', now);
        if d.Some? && (timer'.None? || d.value < timer'.value) {
          timer' := d;
        }
      }
      assert th.events[..n] == th.events;
      threads := threads[t := th];
    }

    /** Phase 1: every waiting thread's events are checked, and the first 512 due threads make the batch. */
    method FirstScan(now: int) returns (batch: seq<Tid>, notified: nat, timer: Option<int>)
      requires Valid()
      modifies this`threads
      ensures Valid() && threads == AfterScan(old(threads), waiting, now)
      ensures batch == First(DueIn(waiting, threads)) && notified == |DueIn(waiting, threads)|
      ensures Earliest(None, AllEvents(waiting, threads), now, timer)
    {
      hide Due, Scanned, Earliest, IsDue, AfterScan;
      batch, notified, timer := [], 0, None;
      NothingScanned(threads, now);
      for i := 0 to |waiting|
        invariant Valid() && threads == AfterScan(old(threads), waiting[..i], now)
        invariant batch == First(DueIn(waiting[..i], threads)) && notified == |DueIn(waiting[..i], threads)|
        invariant Earliest(None, AllEvents(waiting[..i], threads), now, timer)
      {
        var t := waiting[i];
        ghost var before, timer0 := threads, timer;
        OneMoreScanned(old(threads), waiting, i, now);
        var occurred;
        occurred, timer := ScanThread(t, now, timer);
        ScanKeepsClass(before[t], now);
        OneMoreDue(waiting, i, before, threads);
        EarliestBoth(AllEvents(waiting[..i], threads), threads[t].events, now, timer0, timer);
        assert occurred == IsDue(threads, t) by {
          DueMeans(threads, t);
        }
        if occurred {
          notified := notified + 1;
          if |batch| < MAX_WAKE_BATCH {
            batch := batch + [t];
          }
        }
      }
      assert waiting[..|waiting|] == waiting;
    }

    /** The rescan after a full batch. */
    method Rescan() returns (batch: seq<Tid>)
      requires Valid()
      ensures batch == First(DueIn(waiting, threads))
    {
      hide Due;
      batch := [];
      for i := 0 to |waiting|
        invariant batch == First(DueIn(waiting[..i], threads))
      {
        var t := waiting[i];
        DueInMore(waiting[..i], t, threads);
        assert waiting[..i + 1] == waiting[..i] + [t];
        if IsDue(threads, t) && |batch| < MAX_WAKE_BATCH {
          batch := batch + [t];
        }
      }
      assert waiting[..|waiting|] == waiting;
    }

    /** transfer_th or transfer_th_front of one woken thread. */
    method MoveOne(t: Tid)
      requires Valid() && t in threads && DueIn(waiting, threads) != [] && t == DueIn(waiting, threads)[0]
      modifies this
      ensures Valid() && threads == old(threads)[t := Unwatched(old(threads)[t])]
      ensures waiting == Minus(old(waiting), t)
      ensures ready == if IsIo(old(threads), t) then [t] + old(ready) else old(ready) + [t]
    {
      FirstDueLeaves(waiting, threads);
      MinusOne(waiting, t);
      threads := threads[t := Unwatched(threads[t])];
      waiting := Minus(waiting, t);
      if threads[t].ioBound {
        ready := [t] + ready;
      } else {
        ready := ready + [t];
      }
    }

    /** The inner loop: the batch, which is the head of the due threads, is moved to the ready queue. */
    method MoveBatch(batch: seq<Tid>)
      requires Valid() && batch <= DueIn(waiting, threads)
      modifies this
      ensures Valid() && |waiting| == |old(waiting)| - |batch|
      ensures threads == Given(old(threads), batch)
      ensures DueIn(waiting, threads) == DueIn(old(waiting), old(threads))[|batch|..]
      ensures NotDueIn(waiting, threads) == NotDueIn(old(waiting), old(threads))
      ensures ready == Woken(old(ready), batch, old(threads))
    {
      hide Due, Unwatched, IsDue, IsIo, Woken, DueIn, NotDueIn, Given;
      ghost var due, rest := DueIn(waiting, threads), NotDueIn(waiting, threads);
      MoveBegins(batch, ready, threads);
      for i := 0 to |batch|
        invariant Valid() && |waiting| == |old(waiting)| - i && threads.Keys == old(threads.Keys)
        invariant threads == Given(old(threads), batch[..i])
        invariant DueIn(waiting, threads) == due[i..] && NotDueIn(waiting, threads) == rest
        invariant Woken(ready, batch[i..], threads) == Woken(old(ready), batch, old(threads))
      {
        var t := batch[i];
        assert due[i] == t;
        ghost var ts, before := waiting, threads;
        FirstMoves(ts, before, ready, batch[i..]);
        assert due[i..][1..] == due[i + 1..] && batch[i..][1..] == batch[i + 1..];
        GivenMore(old(threads), batch, i);
        MoveOne(t);
      }
      MoveEnds(batch, ready, threads);
    }

    /** The event manager's scan and wake-up: exactly the threads with a non-pending event (or a cancellation request)
        leave the waiting queue, however many there are. */
    method Wake(now: int, dopoll: bool) returns (dopoll': bool, timer: Option<int>)
      requires Valid()
      modifies this
      ensures Valid()
      ensures var scanned := AfterScan(old(threads), old(waiting), now);
              var due := DueIn(old(waiting), scanned);
              && waiting == NotDueIn(old(waiting), scanned)
              && ready == Woken(old(ready), due, scanned)
              && threads == Given(scanned, due)
              && dopoll' == (dopoll || due != [])
              && Earliest(None, AllEvents(old(waiting), scanned), now, timer)
    {
      hide DueIn, NotDueIn, Woken, Given, Due, IsDue, Earliest, AfterScan, NoRepeats;
      NothingWaiting(threads, ready, now);
      if |waiting| == 0 {
        return dopoll, None;
      }
      var batch, notified;
      batch, notified, timer := FirstScan(now);
      ghost var scanned := threads;
      ghost var due := DueIn(waiting, scanned);
      ghost var moved := [];
      WakeBegins(due, ready, scanned);
      while true
        invariant Valid() && batch == First(DueIn(waiting, threads))
        invariant due == moved + DueIn(waiting, threads)
        invariant NotDueIn(waiting, threads) == NotDueIn(old(waiting), scanned)
        invariant ready == Woken(old(ready), moved, scanned) && threads == Given(scanned, moved)
        decreases |waiting|
      {
        WakeMore(old(ready), scanned, moved, batch);
        ghost var left := DueIn(waiting, threads);
        MoveBatch(batch);
        assert moved + left == (moved + batch) + left[|batch|..];
        moved := moved + batch;
        if |batch| == MAX_WAKE_BATCH {
          batch := Rescan();
          if |batch| == 0 {
            break;
          }
        } else {
          break;
        }
      }
      assert DueIn(waiting, threads) == [];
      assert moved == due;
      DueAreThere(waiting, threads);
      dopoll' := dopoll || notified > 0;
    }
  }

  /** The threads once those of a list have given back their fd registrations. */
  function Given(threads: map<Tid, Thread>, ts: seq<Tid>): map<Tid, Thread> {
    map t | t in threads :: if t in ts then Unwatched(threads[t]) else threads[t]
  }

  function First(ts: seq<Tid>): seq<Tid> {
    if |ts| <= MAX_WAKE_BATCH then ts else ts[..MAX_WAKE_BATCH]
  }

  /** The threads once those of a list have been scanned. */
  function AfterScan(threads: map<Tid, Thread>, ts: seq<Tid>, now: int): map<Tid, Thread> {
    map t | t in threads :: if t in ts then Scanned(threads[t], now) else threads[t]
  }

  function AllEvents(ts: seq<Tid>, threads: map<Tid, Thread>): seq<Awaited>
    requires forall t :: t in ts ==> t in threads
  {
    if ts == [] then [] else AllEvents(ts[..|ts| - 1], threads) + threads[ts[|ts| - 1]].events
  }

  lemma ScanKeepsClass(th: Thread, now: int)
    ensures Scanned(th, now).ioBound == th.ioBound
  {
  }

  lemma NothingScanned(threads: map<Tid, Thread>, now: int)
    ensures AfterScan(threads, [], now) == threads && Earliest(None, [], now, None)
  {
  }

  lemma OneMoreScanned(threads: map<Tid, Thread>, ts: seq<Tid>, i: nat, now: int)
    requires NoRepeats(ts) && i < |ts| && ts[i] in threads
    ensures ts[i] in AfterScan(threads, ts[..i], now) && AfterScan(threads, ts[..i], now)[ts[i]] == threads[ts[i]]
    ensures AfterScan(threads, ts[..i + 1], now) ==
            AfterScan(threads, ts[..i], now)[ts[i] := Scanned(threads[ts[i]], now)]
  {
    assert ts[..i + 1] == ts[..i] + [ts[i]];
  }

  lemma {:induction false} DueInMore(ts: seq<Tid>, t: Tid, threads: map<Tid, Thread>)
    ensures DueIn(ts + [t], threads) == DueIn(ts, threads) + if IsDue(threads, t) then [t] else []
  {
    if ts != [] {
      DueInMore(ts[1..], t, threads);
      assert (ts + [t])[1..] == ts[1..] + [t];
    }
  }

  lemma OneMoreDue(ts: seq<Tid>, i: nat, before: map<Tid, Thread>, after: map<Tid, Thread>)
    requires NoRepeats(ts) && i < |ts| && (forall t :: t in ts ==> t in before) && ts[i] in after
    requires after == before[ts[i] := after[ts[i]]] && after[ts[i]].ioBound == before[ts[i]].ioBound
    ensures DueIn(ts[..i + 1], after) == DueIn(ts[..i], before) + if IsDue(after, ts[i]) then [ts[i]] else []
    ensures AllEvents(ts[..i], after) == AllEvents(ts[..i], before)
    ensures AllEvents(ts[..i + 1], after) == AllEvents(ts[..i], after) + after[ts[i]].events
  {
    assert ts[..i + 1] == ts[..i] + [ts[i]];
    assert ts[..i + 1][..i] == ts[..i];
    DueInMore(ts[..i], ts[i], after);
    SameThreads(ts[..i], before, after);
    SameEvents(ts[..i], before, after);
  }

  lemma {:induction false} SameEvents(ts: seq<Tid>, a: map<Tid, Thread>, b: map<Tid, Thread>)
    requires forall t :: t in ts ==> t in a && t in b && a[t] == b[t]
    ensures AllEvents(ts, a) == AllEvents(ts, b)
  {
    if ts != [] {
      SameEvents(ts[..|ts| - 1], a, b);
    }
  }

  lemma DueMeans(threads: map<Tid, Thread>, t: Tid)
    ensures IsDue(threads, t) <==> t in threads && Due(threads[t])
  {
  }

  lemma EarliestBoth(es: seq<Awaited>, fs: seq<Awaited>, now: int, timer: Option<int>, timer': Option<int>)
    requires Earliest(None, es, now, timer) && Earliest(timer, fs, now, timer')
    ensures Earliest(None, es + fs, now, timer')
  {
  }

  predicate SomeDue(es: seq<Awaited>) {
    exists e :: e in es && e.status != PENDING
  }

  ghost predicate Earliest(before: Option<int>, es: seq<Awaited>, now: int, timer: Option<int>) {
    && (timer == before || exists e :: e in es && timer == Deadline(e, now))
    && (before.Some? ==> timer.Some? && timer.value <= before.value)
    && forall e :: e in es && Deadline(e, now).Some? ==> timer.Some? && timer.value <= Deadline(e, now).value
  }

  lemma ScanBegins(timer: Option<int>, now: int)
    ensures Earliest(timer, [], now, timer) && !SomeDue([])
  {
  }

  lemma SomeDueMore(es: seq<Awaited>, e: Awaited)
    ensures SomeDue(es + [e]) <==> SomeDue(es) || e.status != PENDING
  {
    assert e in es + [e];
    assert forall x :: x in es ==> x in es + [e];
  }

  lemma EarliestMore(before: Option<int>, es: seq<Awaited>, e: Awaited, now: int, timer: Option<int>)
    requires Earliest(before, es, now, timer)
    ensures var d := Deadline(e, now);
            Earliest(before, es + [e], now, if d.Some? && (timer.None? || d.value < timer.value) then d else timer)
  {
    assert e in es + [e];
  }

  lemma GivenSame(threads: map<Tid, Thread>, ts: seq<Tid>, t: Tid)
    ensures IsDue(Given(threads, ts), t) == IsDue(threads, t) && IsIo(Given(threads, ts), t) == IsIo(threads, t)
  {
  }

  lemma MoveBegins(batch: seq<Tid>, ready: seq<Tid>, threads: map<Tid, Thread>)
    ensures batch[..0] == [] && batch[0..] == batch && Given(threads, []) == threads
  {
  }

  lemma MoveEnds(batch: seq<Tid>, ready: seq<Tid>, threads: map<Tid, Thread>)
    ensures batch[..|batch|] == batch && batch[|batch|..] == [] && Woken(ready, [], threads) == ready
  {
  }

  lemma UnwatchedTwice(th: Thread)
    ensures Unwatched(Unwatched(th)) == Unwatched(th)
  {
  }

  lemma GivenMore(threads: map<Tid, Thread>, batch: seq<Tid>, i: nat)
    requires i < |batch| && batch[i] in threads
    ensures batch[i] in Given(threads, batch[..i])
    ensures Given(threads, batch[..i + 1]) ==
            Given(threads, batch[..i])[batch[i] := Unwatched(Given(threads, batch[..i])[batch[i]])]
  {
    assert batch[..i + 1] == batch[..i] + [batch[i]];
    UnwatchedTwice(threads[batch[i]]);
  }

  /** What moving the first due thread does to the lists. */
  lemma FirstMoves(ts: seq<Tid>, threads: map<Tid, Thread>, ready: seq<Tid>, batch: seq<Tid>)
    requires NoRepeats(ts) && batch != [] && DueIn(ts, threads) != [] && DueIn(ts, threads)[0] == batch[0]
    ensures var t := batch[0];
            && t in ts && t in threads && |Minus(ts, t)| == |ts| - 1
            && var after := threads[t := Unwatched(threads[t])];
            && DueIn(Minus(ts, t), after) == DueIn(ts, threads)[1..]
            && NotDueIn(Minus(ts, t), after) == NotDueIn(ts, threads)
            && Woken(ready, batch, threads) ==
               Woken(if IsIo(threads, t) then [t] + ready else ready + [t], batch[1..], after)
  {
    var t := batch[0];
    FirstDueLeaves(ts, threads);
    DueAreThere(ts, threads);
    MinusOne(ts, t);
    var after := threads[t := Unwatched(threads[t])];
    SameThreads(Minus(ts, t), threads, after);
    SameThreads(batch[1..], threads, after);
    WokenOne(ready, batch, threads);
  }

  lemma NothingWaiting(threads: map<Tid, Thread>, ready: seq<Tid>, now: int)
    ensures AfterScan(threads, [], now) == threads && DueIn([], threads) == NotDueIn([], threads) == []
    ensures Woken(ready, [], threads) == ready && Given(threads, []) == threads && Earliest(None, [], now, None)
  {
  }

  lemma WakeBegins(due: seq<Tid>, ready: seq<Tid>, scanned: map<Tid, Thread>)
    ensures [] + due == due && Woken(ready, [], scanned) == ready && Given(scanned, []) == scanned
  {
  }

  lemma WokenMore(ready: seq<Tid>, ts: seq<Tid>, us: seq<Tid>, threads: map<Tid, Thread>)
    ensures Woken(Woken(ready, ts, threads), us, threads) == Woken(ready, ts + us, threads)
  {
    SplitIo(ts, us, threads);
    SplitDefault(ts, us, threads);
  }

  lemma {:induction false} SplitIo(ts: seq<Tid>, us: seq<Tid>, threads: map<Tid, Thread>)
    ensures IoReversed(ts + us, threads) == IoReversed(us, threads) + IoReversed(ts, threads)
  {
    hide IsIo;
    if ts == [] {
      assert ts + us == us;
    } else {
      SplitIo(ts[1..], us, threads);
      assert (ts + us)[1..] == ts[1..] + us;
    }
  }

  lemma DefaultFirst(ts: seq<Tid>, threads: map<Tid, Thread>)
    ensures DefaultIn(ts, threads) ==
            if ts == [] then [] else (if IsIo(threads, ts[0]) then [] else [ts[0]]) + DefaultIn(ts[1..], threads)
  {
  }

  lemma {:induction false} SplitDefault(ts: seq<Tid>, us: seq<Tid>, threads: map<Tid, Thread>)
    ensures DefaultIn(ts + us, threads) == DefaultIn(ts, threads) + DefaultIn(us, threads)
  {
    hide IsIo, DefaultIn;
    DefaultFirst(ts, threads);
    if ts == [] {
      assert ts + us == us;
    } else {
      DefaultFirst(ts + us, threads);
      assert (ts + us)[1..] == ts[1..] + us;
      SplitDefault(ts[1..], us, threads);
    }
  }

  lemma WakeMore(ready: seq<Tid>, scanned: map<Tid, Thread>, moved: seq<Tid>, batch: seq<Tid>)
    ensures Given(Given(scanned, moved), batch) == Given(scanned, moved + batch)
    ensures Woken(Woken(ready, moved, scanned), batch, Given(scanned, moved)) == Woken(ready, moved + batch, scanned)
  {
    WokenMore(ready, moved, batch, scanned);
    forall t | t in scanned
      ensures Unwatched(Unwatched(scanned[t])) == Unwatched(scanned[t])
    {
      UnwatchedTwice(scanned[t]);
    }
    forall t | t in batch
      ensures IsDue(Given(scanned, moved), t) == IsDue(scanned, t) && IsIo(Given(scanned, moved), t) == IsIo(scanned, t)
    {
      GivenSame(scanned, moved, t);
    }
    SameThreads(batch, scanned, Given(scanned, moved));
  }

  // What the parts mean

  /** What makes a pending event fire: registering its fd fails, a signal it awaits is pending, its time has passed, the
      awaited thread state is reached, or the user's function says so. */
  lemma FiresIff(e: Awaited, sigpending: set<int>, now: int)
    ensures e.kind.Fd? ==> (Fires(e, sigpending, now) <==> e.kind.addFails && !e.kind.registered)
    ensures e.kind.Sigs? ==>
              (Fires(e, sigpending, now) <==> exists sig :: sig in e.kind.sigs * sigpending && 1 <= sig < NSIG)
    ensures e.kind.Time? ==> (Fires(e, sigpending, now) <==> now > e.kind.at)
    ensures e.kind.Joined? ==> (Fires(e, sigpending, now) <==> e.kind.reached)
    ensures e.kind.Func? ==> (Fires(e, sigpending, now) <==> e.kind.holds)
    ensures e.kind.Select? ==> !Fires(e, sigpending, now)
  {
    if e.kind.Sigs? {
      var low := LowestSignal(e.kind.sigs, sigpending, 1);
      assert low < NSIG ==> low in e.kind.sigs * sigpending;
    }
  }

  /** The deadline of a pending timer is the last moment at which it does not fire; that of a function is its period
      from now; nothing else has one. */
  lemma DeadlineIs(e: Awaited, sigpending: set<int>, now: int, later: int)
    ensures e.status == PENDING && e.kind.Time? ==>
              Deadline(e, now).Some? && (Fires(e, sigpending, later) <==> later > Deadline(e, now).value)
    ensures e.status == PENDING && e.kind.Func? ==> Deadline(e, now) == Some(now + e.kind.period)
    ensures e.status != PENDING || !(e.kind.Time? || e.kind.Func?) ==> Deadline(e, now).None?
  {
  }

  /** One check: a settled event is left as it is; one that fires is FAILED if its fd could not be registered and
      OCCURRED otherwise; one that does not stays pending, with its fd registered. */
  lemma CheckedIs(e: Awaited, sigpending: set<int>, now: int)
    ensures var c := Checked(e, sigpending, now);
            && (e.status != PENDING ==> c == e)
            && (e.status == PENDING ==> (c.status != PENDING <==> Fires(e, sigpending, now)))
            && (e.status == PENDING ==> (c.status == FAILED <==> Fires(e, sigpending, now) && e.kind.Fd?))
            && (c.status == PENDING && c.kind.Fd? ==> c.kind.registered)
            && (!e.kind.Fd? ==> c.kind == e.kind)
  {
  }

  /** The lowest signal that an event fires for is the event's alone: it is pending no more. */
  lemma SignalTaken(e: Awaited, sigpending: set<int>, now: int)
    requires e.status == PENDING && e.kind.Sigs?
    ensures var left := SignalsLeft(e, sigpending);
            if Fires(e, sigpending, now) then
              exists sig :: sig in e.kind.sigs && sig in sigpending && left == sigpending - {sig}
                            && forall other :: other in e.kind.sigs * sigpending && other >= 1 ==> sig <= other
            else left == sigpending
  {
    var low := LowestSignal(e.kind.sigs, sigpending, 1);
    if Fires(e, sigpending, now) {
      assert low in e.kind.sigs && low in sigpending && SignalsLeft(e, sigpending) == sigpending - {low};
    }
  }

  /** A woken thread has given back its fd registrations and kept everything else. */
  lemma UnwatchedIs(th: Thread, i: nat)
    requires i < |th.events|
    ensures var r := Unwatched(th);
            && r == th.(events := r.events) && |r.events| == |th.events| && r.events[i].status == th.events[i].status
            && (th.events[i].kind.Fd? ==> r.events[i].kind.Fd? && !r.events[i].kind.registered)
            && (!th.events[i].kind.Fd? ==> r.events[i] == th.events[i])
  {
  }

  /** x comes before y. */
  ghost predicate Before(s: seq<Tid>, x: Tid, y: Tid) {
    exists i, j :: 0 <= i < j < |s| && s[i] == x && s[j] == y
  }

  lemma BeforeIn(s: seq<Tid>, a: seq<Tid>, b: seq<Tid>, c: seq<Tid>, x: Tid, y: Tid)
    requires s == a + b + c
    ensures (Before(a, x, y) || Before(b, x, y) || Before(c, x, y)) ==> Before(s, x, y)
    ensures x in a && (y in b || y in c) ==> Before(s, x, y)
    ensures x in b && y in c ==> Before(s, x, y)
  {
    if Before(b, x, y) {
      var i, j :| 0 <= i < j < |b| && b[i] == x && b[j] == y;
      assert s[|a| + i] == x && s[|a| + j] == y;
    }
    if Before(c, x, y) {
      var i, j :| 0 <= i < j < |c| && c[i] == x && c[j] == y;
      assert s[|a| + |b| + i] == x && s[|a| + |b| + j] == y;
    }
    if Before(a, x, y) {
      var i, j :| 0 <= i < j < |a| && a[i] == x && a[j] == y;
      assert s[i] == x && s[j] == y;
    }
    if x in a && y in b {
      var i :| 0 <= i < |a| && a[i] == x;
      var j :| 0 <= j < |b| && b[j] == y;
      assert s[i] == x && s[|a| + j] == y;
    }
    if x in a && y in c {
      var i :| 0 <= i < |a| && a[i] == x;
      var j :| 0 <= j < |c| && c[j] == y;
      assert s[i] == x && s[|a| + |b| + j] == y;
    }
    if x in b && y in c {
      var i :| 0 <= i < |b| && b[i] == x;
      var j :| 0 <= j < |c| && c[j] == y;
      assert s[|a| + i] == x && s[|a| + |b| + j] == y;
    }
  }

  lemma {:induction false} PartsCount(ts: seq<Tid>, threads: map<Tid, Thread>)
    ensures multiset(IoReversed(ts, threads)) + multiset(DefaultIn(ts, threads)) == multiset(ts)
  {
    hide IsIo;
    if ts != [] {
      PartsCount(ts[1..], threads);
      assert ts == [ts[0]] + ts[1..];
    }
  }

  lemma {:induction false} PartsHold(ts: seq<Tid>, threads: map<Tid, Thread>, t: Tid)
    ensures t in DefaultIn(ts, threads) <==> t in ts && !IsIo(threads, t)
    ensures t in IoReversed(ts, threads) <==> t in ts && IsIo(threads, t)
  {
    hide IsIo;
    if ts != [] {
      PartsHold(ts[1..], threads, t);
      assert ts == [ts[0]] + ts[1..];
    }
  }

  lemma {:induction false} PartsInOrder(ts: seq<Tid>, threads: map<Tid, Thread>, x: Tid, y: Tid)
    requires Before(ts, x, y)
    ensures !IsIo(threads, x) && !IsIo(threads, y) ==> Before(DefaultIn(ts, threads), x, y)
    ensures IsIo(threads, x) && IsIo(threads, y) ==> Before(IoReversed(ts, threads), y, x)
  {
    var i, j :| 0 <= i < j < |ts| && ts[i] == x && ts[j] == y;
    var rest := ts[1..];
    PartsHold(rest, threads, x);
    PartsHold(rest, threads, y);
    assert rest[j - 1] == y;
    if i > 0 {
      assert rest[i - 1] == x;
      PartsInOrder(rest, threads, x, y);
    }
    var d, o := DefaultIn(rest, threads), IoReversed(rest, threads);
    BeforeIn(DefaultIn(ts, threads), if IsIo(threads, ts[0]) then [] else [ts[0]], d, [], x, y);
    BeforeIn(IoReversed(ts, threads), o, if IsIo(threads, ts[0]) then [ts[0]] else [], [], y, x);
  }

  /** The ready queue after a wake-up holds what it held and the woken threads, nothing else. Default-class threads come
      after all that were there and in the order in which they waited; IO_BOUND ones come before, the latest first. */
  lemma WokenIs(ready: seq<Tid>, ts: seq<Tid>, threads: map<Tid, Thread>, x: Tid, y: Tid)
    ensures multiset(Woken(ready, ts, threads)) == multiset(ready) + multiset(ts)
    ensures Before(ready, x, y) ==> Before(Woken(ready, ts, threads), x, y)
    ensures x in ready && y in ts && !IsIo(threads, y) ==> Before(Woken(ready, ts, threads), x, y)
    ensures x in ts && IsIo(threads, x) && y in ready ==> Before(Woken(ready, ts, threads), x, y)
    ensures Before(ts, x, y) && !IsIo(threads, x) && !IsIo(threads, y) ==> Before(Woken(ready, ts, threads), x, y)
    ensures Before(ts, x, y) && IsIo(threads, x) && IsIo(threads, y) ==> Before(Woken(ready, ts, threads), y, x)
  {
    hide Before;
    PartsCount(ts, threads);
    PartsHold(ts, threads, x);
    PartsHold(ts, threads, y);
    if Before(ts, x, y) {
      PartsInOrder(ts, threads, x, y);
    }
    BeforeIn(Woken(ready, ts, threads), IoReversed(ts, threads), ready, DefaultIn(ts, threads), x, y);
    BeforeIn(Woken(ready, ts, threads), IoReversed(ts, threads), ready, DefaultIn(ts, threads), y, x);
  }

  /** The due threads of a queue and the others are its threads, each in their order. */
  lemma {:induction false} DueInOrder(ts: seq<Tid>, threads: map<Tid, Thread>, x: Tid, y: Tid)
    requires Before(ts, x, y)
    ensures IsDue(threads, x) && IsDue(threads, y) ==> Before(DueIn(ts, threads), x, y)
    ensures !IsDue(threads, x) && !IsDue(threads, y) ==> Before(NotDueIn(ts, threads), x, y)
  {
    var i, j :| 0 <= i < j < |ts| && ts[i] == x && ts[j] == y;
    var rest := ts[1..];
    DueAreThere(rest, threads);
    assert rest[j - 1] == y;
    if i > 0 {
      assert rest[i - 1] == x;
      DueInOrder(rest, threads, x, y);
    }
    hide IsDue;
    BeforeIn(DueIn(ts, threads), if IsDue(threads, ts[0]) then [ts[0]] else [], DueIn(rest, threads), [], x, y);
    BeforeIn(NotDueIn(ts, threads), if IsDue(threads, ts[0]) then [] else [ts[0]], NotDueIn(rest, threads), [], x, y);
  }

  lemma {:induction false} DueAndNot(ts: seq<Tid>, threads: map<Tid, Thread>)
    ensures multiset(DueIn(ts, threads)) + multiset(NotDueIn(ts, threads)) == multiset(ts)
  {
    if ts != [] {
      DueAndNot(ts[1..], threads);
      assert ts == [ts[0]] + ts[1..];
    }
  }
}
