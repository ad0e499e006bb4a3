/** internal/apth_sync_waiter.h: the intrusive list of stack-allocated waiters as the primitives change it in place,
    standing for a `Queue`. */
module WaiterList {
  import opened Basics
  import opened WaitQueue
  import opened IntrusiveList

  /** A `struct apth_sync_waiter` on its thread's stack. */
  class Waiter {
    const th: Tid
    const timed: bool
    var status: Status
    const elem: Elem

    constructor (t: Tid, timed_: bool)
      ensures th == t && timed == timed_ && status == Pending && fresh(elem)
    {
      th, timed, status := t, timed_, Pending;
      elem := new Elem(0);
    }
  }

  /** The intrusive list of a primitive's waiters. `entry` is what apth_sync_waiter_entry computes, and `node` the
      waiter object of each live waiter. */
  class Waiters {
    const list: List
    var entry: map<Elem, Waiter>
    ghost var q: Queue
    ghost var node: map<nat, Waiter>

    ghost function Repr(): set<object>
      reads this, list
    {
      {this, list} + (set e | e in list.chain) + node.Values
    }

    ghost predicate Valid()
      reads this, Repr()
    {
      q.Inv() && list.Valid() && Links(list.Contents(), node, q.queue, entry) && Standing(node, q.nodes)
    }

    /** w is the waiter on the stack of thread t. */
    ghost predicate Mine(t: Tid, w: Waiter)
      reads this
    {
      t in q.at && q.at[t] in node && node[q.at[t]] == w
    }

    lemma Alive()
      requires Valid()
      ensures this in Repr() && list in Repr() && forall o :: o in Repr() ==> allocated(o)
      ensures (forall e :: e in list.chain ==> e in Repr()) && forall k :: k in q.queue ==> k in q.nodes
    {
      QueuedAreAlive(q);
    }

    constructor ()
      ensures Valid() && q == EMPTY && fresh(Repr()) && node == map[] && list.chain == [list.head, list.tail]
    {
      list := new List();
      entry, q, node := map[], EMPTY, map[];
    }

    /** list_empty. */
    predicate IsEmpty()
      requires Valid()
      reads this, Repr()
      ensures IsEmpty() <==> q.queue == []
    {
      list.head.next == list.tail
    }

    /** list_push_back. */
    method LinkLast(w: Waiter)
      requires list.Valid() && w.elem !in list.chain
      modifies this`entry, list, list.chain, w.elem
      ensures list.Valid() && list.Contents() == old(list.Contents()) + [w.elem] && entry == old(entry)[w.elem := w]
      ensures forall e :: e in list.chain ==> e in old(list.chain) || e == w.elem
    {
      hide Linked;
      Ends(list);
      ghost var c := list.chain;
      list.Insert(list.tail, w.elem, |list.chain| - 1);
      ContentsMore(c, w.elem);
      entry := entry[w.elem := w];
    }

    /** list_pop_front. */
    method UnlinkFirst() returns (w: Waiter)
      requires list.Valid() && list.Contents() != [] && list.Contents()[0] in entry
      modifies list, list.chain
      ensures list.Valid() && list.Contents() == old(list.Contents())[1..] && w == entry[old(list.Contents())[0]]
      ensures forall e :: e in list.chain ==> e in old(list.chain)
    {
      hide Linked;
      Ends(list);
      ghost var c := list.chain;
      var e := list.Front();
      w := entry[e];
      var following := list.Remove(e, 1);
      ContentsLess(c, 1);
    }

    /** list_remove of the element at i. */
    method Unlink(w: Waiter, ghost i: nat)
      requires list.Valid() && i < |list.Contents()| && list.Contents()[i] == w.elem
      modifies list, list.chain
      ensures list.Valid() && list.Contents() == old(list.Contents())[..i] + old(list.Contents())[i + 1..]
      ensures forall e :: e in list.chain ==> e in old(list.chain)
    {
      hide Linked;
      Ends(list);
      ghost var c := list.chain;
      var following := list.Remove(w.elem, i + 1);
      ContentsLess(c, i + 1);
    }

    /** The fresh waiter goes to the end of the list. */
    method PushBack(t: Tid, timed: bool) returns (w: Waiter)
      requires Valid() && t !in q.at
      modifies this, list, list.chain
      ensures Valid() && q == old(q).Enqueue(t, timed) && fresh(Repr() - old(Repr()))
      ensures fresh(w) && node == old(node)[old(q).next := w] && Mine(t, w)
    {
      hide Queue.Inv, Links, Standing, List.Valid;
      NextIsNew(q);
      EnqueueKeepsInv(q, t, timed);
      w := new Waiter(t, timed);
      LinksMore(list.Contents(), node, q.queue, entry, q.next, w);
      StandsMore(node, q.nodes, q.next, w);
      LinkLast(w);
      node := node[q.next := w];
      q := q.Enqueue(t, timed);
    }

    /** list_pop_front, then the waiter's event is marked. */
    method PopFront() returns (w: Waiter)
      requires Valid() && q.queue != []
      modifies Repr()
      ensures Valid() && node == old(node) && Repr() <= old(Repr()) && fresh(Repr() - old(Repr()))
      ensures old(q).queue[0] in old(q).nodes && q == old(q).Grant() && w.th == old(q).Front()
    {
      hide Queue.Inv, Links, Standing, List.Valid;
      FirstLink(list.Contents(), node, q.queue, entry);
      GrantKeepsInv(q);
      ghost var k := q.queue[0];
      Stands(node, q.nodes, k);
      w := UnlinkFirst();
      Mark(w, k);
      q := q.Grant();
    }

    /** The wake-up loops: pop and mark until the list is empty. */
    method PopAll()
      requires Valid()
      modifies Repr()
      ensures Valid() && node == old(node) && Repr() <= old(Repr()) && fresh(Repr() - old(Repr()))
      ensures (forall k :: k in old(q).queue ==> k in old(q).nodes) && q == old(q).GrantAll()
    {
      hide Queue.Inv, Links, Standing, List.Valid, IsEmpty;
      Alive();
      while !IsEmpty()
        invariant Valid() && node == old(node) && Repr() <= old(Repr())
        invariant (forall k :: k in q.queue ==> k in q.nodes)
        invariant q.GrantAll() == old(q).GrantAll()
        decreases |q.queue|
      {
        var w := PopFront();
        Alive();
      }
    }

    /** ev_status = OCCURRED. */
    method Mark(w: Waiter, ghost k: nat)
      requires k in node && node[k] == w && Standing(node, q.nodes)
      requires forall l :: l in node && node[l] == w ==> l == k
      modifies w
      ensures k in q.nodes && Standing(node, q.nodes[k := q.nodes[k].(status := Occurred)])
    {
      w.status := Occurred;
    }

    /** The woken thread t, under the guard again: a timed waiter that is not marked takes itself off the list. */
    method Settle(t: Tid, w: Waiter) returns (e: Ending)
      requires Valid() && q.CanWake(t) && Mine(t, w)
      modifies this, list, list.chain
      ensures Valid() && q == old(q).Resume(t) && e == old(q).Ends(t) && Repr() <= old(Repr())
      ensures node == old(node) - {old(q).at[t]}
    {
      hide Queue.Inv, Links, Standing, List.Valid;
      ResumeKeepsInv(q, t);
      ghost var k := q.at[t];
      Stands(node, q.nodes, k);
      StandsLess(node, q.nodes, k);
      if w.timed && w.status != Occurred {
        e := TimedOut;
        ghost var i := StillQueued(q, t);
        RemoveLink(list.Contents(), node, q.queue, entry, i);
        Unlink(w, i);
      } else {
        e := Granted;
        NotQueued(q, t);
        OtherLinks(list.Contents(), node, q.queue, entry, k);
      }
      node := node - {k};
      q := q.Resume(t);
    }
  }

  lemma Ends(l: List)
    requires l.Valid()
    ensures 2 <= |l.chain| && l.chain[0] == l.head && l.chain[|l.chain| - 1] == l.tail
  {
  }

  lemma ContentsLess(c: seq<Elem>, p: nat)
    requires 1 <= p < |c| - 1
    ensures var c', s := c[..p] + c[p + 1..], c[1..|c| - 1]; c'[1..|c'| - 1] == s[..p - 1] + s[p..]
  {
  }

  lemma FirstLink(c: seq<Elem>, node: map<nat, Waiter>, queue: seq<nat>, entry: map<Elem, Waiter>)
    requires Links(c, node, queue, entry) && queue != []
    ensures c != [] && queue[0] in node && c[0] in entry && entry[c[0]] == node[queue[0]]
    ensures Links(c[1..], node, queue[1..], entry)
    ensures forall l :: l in node && node[l] == node[queue[0]] ==> l == queue[0]
  {
  }

  lemma OtherLinks(c: seq<Elem>, node: map<nat, Waiter>, queue: seq<nat>, entry: map<Elem, Waiter>, k: nat)
    requires Links(c, node, queue, entry) && k !in queue
    ensures Links(c, node - {k}, queue, entry)
  {
    assert forall i :: 0 <= i < |queue| ==> queue[i] in queue;
  }

  lemma RemoveLink(c: seq<Elem>, node: map<nat, Waiter>, queue: seq<nat>, entry: map<Elem, Waiter>, i: nat)
    requires Links(c, node, queue, entry) && i < |queue|
    requires forall j :: 0 <= j < |queue| && j != i ==> queue[j] != queue[i]
    ensures i < |c| && queue[i] in node && c[i] == node[queue[i]].elem
    ensures Links(c[..i] + c[i + 1..], node - {queue[i]}, queue[..i] + queue[i + 1..], entry)
  {
  }

  /** The list is the elements of the queue's waiters, in order, and each element leads back to its waiter. */
  ghost predicate Links(c: seq<Elem>, node: map<nat, Waiter>, queue: seq<nat>, entry: map<Elem, Waiter>) {
    && |c| == |queue|
    && (forall i :: 0 <= i < |c| ==> queue[i] in node && c[i] == node[queue[i]].elem)
    && (forall k :: k in node ==> node[k].elem in entry && entry[node[k].elem] == node[k])
    && forall k, l :: k in node && l in node && node[k] == node[l] ==> k == l
  }

  lemma ContentsMore(c: seq<Elem>, x: Elem)
    requires 2 <= |c|
    ensures var c' := c[..|c| - 1] + [x] + c[|c| - 1..]; c'[1..|c'| - 1] == c[1..|c| - 1] + [x]
  {
  }

  /** The objects hold what the model says. */
  ghost predicate Standing(node: map<nat, Waiter>, nodes: map<nat, Node>)
    reads node.Values
  {
    node.Keys == nodes.Keys && forall k :: k in node ==> Node(node[k].th, node[k].timed, node[k].status) == nodes[k]
  }

  lemma LinksMore(c: seq<Elem>, node: map<nat, Waiter>, queue: seq<nat>, entry: map<Elem, Waiter>, k: nat, w: Waiter)
    requires Links(c, node, queue, entry) && k !in queue && w !in node.Values
    requires forall l :: l in node ==> node[l].elem != w.elem
    ensures Links(c + [w.elem], node[k := w], queue + [k], entry[w.elem := w])
  {
    assert forall i :: 0 <= i < |queue| ==> queue[i] in queue;
    assert forall l :: l in node ==> node[l] in node.Values;
  }

  lemma StandsMore(node: map<nat, Waiter>, nodes: map<nat, Node>, k: nat, w: Waiter)
    requires Standing(node, nodes) && w.status == Pending
    ensures Standing(node[k := w], nodes[k := Node(w.th, w.timed, Pending)])
  {
  }

  lemma Stands(node: map<nat, Waiter>, nodes: map<nat, Node>, k: nat)
    requires Standing(node, nodes)
    ensures k in node <==> k in nodes
    ensures k in node ==> Node(node[k].th, node[k].timed, node[k].status) == nodes[k]
  {
  }

  lemma StandsLess(node: map<nat, Waiter>, nodes: map<nat, Node>, k: nat)
    requires Standing(node, nodes)
    ensures Standing(node - {k}, nodes - {k})
  {
  }

  lemma NextIsNew(q: Queue)
    requires q.Inv()
    ensures q.next !in q.nodes && q.next !in q.queue
  {
  }

  lemma NoRepeatsInQueue(q: Queue)
    requires q.Inv()
    ensures forall i, j :: 0 <= i < j < |q.queue| ==> q.queue[i] != q.queue[j]
  {
    var n := |q.granted|;
    forall i, j | 0 <= i < j < |q.queue|
      ensures q.queue[i] != q.queue[j]
    {
      assert (q.granted + q.queue)[n + i] < (q.granted + q.queue)[n + j];
    }
  }

  /** A timed waiter that is still pending has one place in the list. */
  lemma StillQueued(q: Queue, t: Tid) returns (i: nat)
    requires q.Inv() && q.CanWake(t) && q.Ends(t) == TimedOut
    ensures i < |q.queue| && q.queue[i] == q.at[t] && forall j :: 0 <= j < |q.queue| && j != i ==> q.queue[j] != q.at[t]
    ensures q.Resume(t).queue == q.queue[..i] + q.queue[i + 1..]
  {
    NoRepeatsInQueue(q);
    assert q.at[t] in q.queue;
    i := MinusIs(q.queue, q.at[t]);
  }

  lemma NotQueued(q: Queue, t: Tid)
    requires q.Inv() && q.CanWake(t) && q.Ends(t) == Granted
    ensures q.at[t] !in q.queue
  {
  }
}
