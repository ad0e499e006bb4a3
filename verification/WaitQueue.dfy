/** The FIFO of stack-allocated waiters that every blocking primitive shares (internal/apth_sync_waiter.h),
    with the history of what became of each waiter. */
module WaitQueue {
  import opened Basics

  datatype Status = Pending | Occurred

  /** A `struct apth_sync_waiter` on the stack of thread th. */
  datatype Node = Node(th: Tid, timed: bool, status: Status)

  /** How a wait can end. */
  datatype Ending = Granted | TimedOut

  ghost predicate Increasing(s: seq<nat>) {
    forall i, j :: 0 <= i < j < |s| ==> s[i] < s[j]
  }

  /** Waiters are named by the order in which they arrived. `queue` is the primitive's list, `nodes` the waiters
      whose stack frame is alive and `at` the waiter of each blocked thread; `granted` and `expired` record the
      waiters popped by a releaser and those that removed themselves. */
  datatype Queue = Queue(queue: seq<nat>, nodes: map<nat, Node>, at: map<Tid, nat>,
                         next: nat, granted: seq<nat>, expired: set<nat>)
  {
    /** list_push_back of a fresh waiter, whose thread is about to yield. */
    function Enqueue(t: Tid, timed: bool): Queue {
      Queue(queue + [next], nodes[next := Node(t, timed, Pending)], at[t := next], next + 1, granted, expired)
    }

    /** list_pop_front, then ev_status = OCCURRED. */
    function Grant(): Queue
      requires queue != [] && queue[0] in nodes
    {
      var k := queue[0];
      this.(queue := queue[1..], nodes := nodes[k := nodes[k].(status := Occurred)], granted := granted + [k])
    }

    /** The wake-up loops: pop and mark until the list is empty. */
    function GrantAll(): Queue
      requires forall k :: k in queue ==> k in nodes
      decreases |queue|
    {
      if queue == [] then this else Grant().GrantAll()
    }

    /** Whether a blocked thread may come back from apth_yield: its event or its timer has occurred. */
    predicate CanWake(t: Tid) {
      t in at && at[t] in nodes && (nodes[at[t]].timed || nodes[at[t]].status == Occurred)
    }

    /** What the woken thread finds under the guard: a timed waiter that is still PENDING removes itself. */
    function Ends(t: Tid): Ending
      requires CanWake(t)
    {
      if nodes[at[t]].timed && nodes[at[t]].status != Occurred then TimedOut else Granted
    }

    /** The woken thread settles the race and leaves, taking its frame with it. */
    function Resume(t: Tid): Queue
      requires CanWake(t)
    {
      var k := at[t];
      if Ends(t) == TimedOut then
        Queue(Minus(queue, k), nodes - {k}, at - {t}, next, granted, expired + {k})
      else
        this.(nodes := nodes - {k}, at := at - {t})
    }

    ghost predicate Inv() {
      && Increasing(granted + queue)
      && (forall k :: k in granted || k in queue || k in expired <==> 0 <= k < next)
      && (forall k :: k in expired ==> k !in granted && k !in queue)
      && (forall k :: k in nodes ==> k in granted || k in queue)
      // a waiter is in the list exactly while its event is PENDING
      && (forall k :: k in queue <==> k in nodes && nodes[k].status == Pending)
      && (forall k :: k in nodes ==> nodes[k].th in at && at[nodes[k].th] == k)
      && (forall t :: t in at ==> at[t] in nodes && nodes[at[t]].th == t)
    }

    /** The thread that the next release will wake. */
    function Front(): Tid
      requires queue != [] && queue[0] in nodes
    {
      nodes[queue[0]].th
    }
  }

  const EMPTY := Queue([], map[], map[], 0, [], {})

  lemma MinusKeepsOrder(pre: seq<nat>, s: seq<nat>, k: nat)
    requires k in s && Increasing(pre + s)
    ensures Increasing(pre + Minus(s, k))
  {
    var i := MinusIs(s, k);
    var g, t := |pre|, pre + Minus(s, k);
    assert forall j :: 0 <= j < |t| ==> t[j] == (pre + s)[if j < g + i then j else j + 1];
  }

  lemma IncreasingPart(pre: seq<nat>, s: seq<nat>)
    requires Increasing(pre + s)
    ensures Increasing(s) && NoRepeats(s)
  {
    assert forall j :: 0 <= j < |s| ==> s[j] == (pre + s)[|pre| + j];
  }

  lemma QueuedAreAlive(q: Queue)
    requires q.Inv()
    ensures forall k :: k in q.queue ==> k in q.nodes
    ensures forall k :: k in q.queue || k in q.granted ==> k < q.next
  {
  }

  lemma EnqueueKeepsInv(q: Queue, t: Tid, timed: bool)
    requires q.Inv() && t !in q.at
    ensures q.Enqueue(t, timed).Inv()
  {
    var s := q.granted + q.queue;
    assert q.granted + (q.queue + [q.next]) == s + [q.next];
    assert forall i :: 0 <= i < |s| ==> s[i] in q.granted || s[i] in q.queue;
  }

  lemma GrantKeepsInv(q: Queue)
    requires q.Inv() && q.queue != []
    ensures q.Grant().Inv()
  {
    assert q.Grant().granted + q.Grant().queue == q.granted + q.queue;
    FrontIsLongestWaiting(q);
  }

  /** The releaser wakes the thread that has waited longest: every other pending waiter arrived later. */
  lemma FrontIsLongestWaiting(q: Queue)
    requires q.Inv() && q.queue != []
    ensures forall k :: k in q.queue ==> q.queue[0] <= k
    ensures q.queue[0] !in q.granted && q.queue[0] !in q.queue[1..]
  {
    var g := |q.granted|;
    assert forall i :: 0 <= i < |q.queue| ==> q.queue[i] == (q.granted + q.queue)[g + i];
    assert forall i :: 0 <= i < g ==> q.granted[i] == (q.granted + q.queue)[i];
  }

  /** Between q and q' exactly the waiters in `woken` had their event marked. */
  ghost predicate WokenAre(q: Queue, q': Queue, woken: seq<nat>) {
    && q'.nodes.Keys == q.nodes.Keys
    && forall k :: k in q.nodes ==> q'.nodes[k] == if k in woken then q.nodes[k].(status := Occurred) else q.nodes[k]
  }

  lemma GrantWakesFront(q: Queue)
    requires q.queue != [] && q.queue[0] in q.nodes
    ensures WokenAre(q, q.Grant(), q.queue[..1])
  {
  }

  lemma NobodyWoken(q: Queue)
    ensures WokenAre(q, q, q.queue[..0])
  {
  }

  /** Emptying the list wakes exactly the waiters that were in it, in order. */
  lemma {:induction false} GrantAllWakesQueue(q: Queue)
    requires forall k :: k in q.queue ==> k in q.nodes
    ensures WokenAre(q, q.GrantAll(), q.queue)
    ensures q.GrantAll() == q.(queue := [], nodes := q.GrantAll().nodes, granted := q.granted + q.queue)
    decreases |q.queue|
  {
    if q.queue != [] {
      GrantAllWakesQueue(q.Grant());
      assert q.granted + [q.queue[0]] + q.queue[1..] == q.granted + q.queue;
    }
  }

  lemma {:induction false} GrantAllKeepsInv(q: Queue)
    requires q.Inv()
    ensures q.GrantAll().Inv()
    decreases |q.queue|
  {
    if q.queue != [] {
      GrantKeepsInv(q);
      GrantAllKeepsInv(q.Grant());
    }
  }

  lemma ResumeKeepsInv(q: Queue, t: Tid)
    requires q.Inv() && q.CanWake(t)
    ensures q.Resume(t).Inv()
    ensures q.Ends(t) == TimedOut <==> q.at[t] in q.queue
    ensures q.Ends(t) == Granted <==> q.at[t] in q.granted
  {
    if q.at[t] in q.queue {
      MinusKeepsOrder(q.granted, q.queue, q.at[t]);
      IncreasingPart(q.granted, q.queue);
      MinusOne(q.queue, q.at[t]);
    }
    assert forall k :: k in q.queue ==> k !in q.granted by {
      PendingNotGranted(q);
    }
  }

  lemma PendingNotGranted(q: Queue)
    requires q.Inv()
    ensures forall k :: k in q.queue ==> k !in q.granted
  {
    var g := |q.granted|;
    assert forall i :: 0 <= i < |q.queue| ==> q.queue[i] == (q.granted + q.queue)[g + i];
    assert forall i :: 0 <= i < g ==> q.granted[i] == (q.granted + q.queue)[i];
  }

  /** Thread t has just joined the end of the queue; nobody else's waiter has changed. */
  ghost predicate Joined(q: Queue, q': Queue, t: Tid, timed: bool) {
    && t in q'.at && q'.queue == q.queue + [q'.at[t]] && q'.at[t] !in q.nodes
    && q'.nodes == q.nodes[q'.at[t] := Node(t, timed, Pending)] && q'.at == q.at[t := q'.at[t]]
    && q'.granted == q.granted && q'.expired == q.expired
  }

  lemma EnqueueJoins(q: Queue, t: Tid, timed: bool)
    requires q.Inv() && t !in q.at
    ensures Joined(q, q.Enqueue(t, timed), t, timed)
  {
  }

  /** The first waiter of the queue has been marked and taken off; nobody else's waiter has changed. */
  ghost predicate Released(q: Queue, q': Queue)
    requires q.queue != []
  {
    && q'.queue == q.queue[1..] && q'.granted == q.granted + [q.queue[0]] && WokenAre(q, q', [q.queue[0]])
    && q'.at == q.at && q'.expired == q.expired
  }

  lemma GrantReleases(q: Queue)
    requires q.queue != [] && q.queue[0] in q.nodes
    ensures Released(q, q.Grant())
  {
  }

  /** Thread t has left with its waiter, which was granted or has expired; nobody else's waiter has changed. */
  ghost predicate Left(q: Queue, q': Queue, t: Tid, granted: bool)
    requires t in q.at
  {
    var k := q.at[t];
    && q'.nodes == q.nodes - {k} && q'.at == q.at - {t} && q'.granted == q.granted
    && (granted ==> k in q.granted && q'.queue == q.queue && q'.expired == q.expired)
    && (!granted ==> k in q.queue && q'.queue == Minus(q.queue, k) && q'.expired == q.expired + {k})
  }

  lemma ResumeLeaves(q: Queue, t: Tid)
    requires q.Inv() && q.CanWake(t)
    ensures q.at[t] in q.granted || q.at[t] in q.queue
    ensures Left(q, q.Resume(t), t, q.at[t] in q.granted)
    ensures q.Ends(t) == if q.at[t] in q.granted then Granted else TimedOut
  {
    hide Queue.Inv;
    ResumeKeepsInv(q, t);
  }
}
