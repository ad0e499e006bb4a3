/** The doubly linked list with two sentinels of utils/list.inline.h: link surgery on the heap,
    each operation specified by the sequence of elements it leaves between head and tail. */
module IntrusiveList {
  import opened Basics

  /** A `struct list_elem`, together with the part of its enclosing struct that comparison functions read. */
  class Elem {
    const key: int
    var prev: Elem?
    var next: Elem?

    constructor (key: int)
      ensures this.key == key && prev == null && next == null
    {
      this.key := key;
      prev, next := null, null;
    }
  }

  ghost predicate Apart<T>(s: seq<T>, t: seq<T>) {
    forall i, j :: 0 <= i < |s| && 0 <= j < |t| ==> s[i] != t[j]
  }

  /** Neighbours in s are linked to each other. */
  ghost predicate Chained(s: seq<Elem>)
    reads s
  {
    && (forall i {:trigger s[i].next} :: 0 <= i < |s| - 1 ==> s[i].next == s[i + 1])
    && (forall i {:trigger s[i].prev} :: 0 < i < |s| ==> s[i].prev == s[i - 1])
  }

  /** s, sentinels included, is one doubly linked chain. */
  ghost predicate Linked(s: seq<Elem>)
    reads s
  {
    && NoRepeats(s)
    && 2 <= |s|
    && s[0].prev == null
    && s[|s| - 1].next == null
    && Chained(s)
  }

  /** The elements of s are linked to each other; the two outer links are free. */
  ghost predicate Segment(s: seq<Elem>)
    reads s
  {
    && NoRepeats(s)
    && 1 <= |s|
    && Chained(s)
  }

  lemma CutAt(s: seq<Elem>, p: nat)
    requires Linked(s) && 1 <= p < |s|
    ensures NoRepeats(s) && Chained(s[..p]) && Chained(s[p..])
    ensures s[0].prev == null && s[|s| - 1].next == null && s[p - 1].next == s[p] && s[p].prev == s[p - 1]
  {
  }

  lemma SegmentOf(s: seq<Elem>, q: nat, r: nat)
    requires Linked(s) && 1 <= q < r < |s|
    ensures Segment(s[q..r]) && Apart(s[q..r], s[..q] + s[r..]) && NoRepeats(s[..q] + s[r..])
    ensures s[q - 1] !in s[q..r] && s[r] !in s[q..r]
    ensures s[..q][|s[..q]| - 1] == s[q - 1] && s[r..][0] == s[r] && s[r..][|s[r..]| - 1] == s[|s| - 1]
  {
  }

  lemma JoinBoth(a: seq<Elem>, b: seq<Elem>)
    requires a != [] && b != [] && Chained(a) && Chained(b) && a[|a| - 1].next == b[0] && b[0].prev == a[|a| - 1]
    requires NoRepeats(a + b) && a[0].prev == null && b[|b| - 1].next == null
    ensures Linked(a + b)
  {
  }

  lemma JoinAll(a: seq<Elem>, m: seq<Elem>, b: seq<Elem>)
    requires a != [] && m != [] && b != [] && Chained(a) && Chained(m) && Chained(b)
    requires a[|a| - 1].next == m[0] && m[0].prev == a[|a| - 1] && m[|m| - 1].next == b[0] && b[0].prev == m[|m| - 1]
    requires NoRepeats(a + b) && NoRepeats(m) && Apart(m, a + b) && a[0].prev == null && b[|b| - 1].next == null
    ensures Linked(a + m + b)
  {
    var s := a + m + b;
    assert forall i :: 0 <= i < |a| ==> s[i] == (a + b)[i];
    assert forall i :: |a| + |m| <= i < |s| ==> s[i] == (a + b)[i - |m|];
    assert forall i :: |a| <= i < |a| + |m| ==> s[i] == m[i - |a|];
  }

  /** s with the elements [q, r) taken out and put back just before the element that was at p. */
  ghost function Spliced<T>(s: seq<T>, p: nat, q: nat, r: nat): seq<T>
    requires q <= r <= |s| && (p <= q || r <= p <= |s|)
  {
    if p <= q then s[..p] + s[q..r] + s[p..q] + s[r..]
    else s[..q] + s[r..p] + s[q..r] + s[p..]
  }

  /** Where an element at p ends up once [q, r) has been taken out. */
  ghost function Shifted(p: nat, q: nat, r: nat): nat
    requires q <= r && (p <= q || r <= p)
  {
    if p <= q then p else p - (r - q)
  }

  lemma SplicedInTwoSteps<T>(s: seq<T>, p: nat, q: nat, r: nat)
    requires q <= r <= |s| && p <= |s| && (p <= q || r <= p)
    ensures var m := s[..q] + s[r..]; var p' := Shifted(p, q, r);
            m[..p'] + s[q..r] + m[p'..] == Spliced(s, p, q, r)
  {
    var m := s[..q] + s[r..];
    var p' := Shifted(p, q, r);
    if p <= q {
      assert m[..p'] == s[..p];
      assert m[p'..] == s[p..q] + s[r..];
    } else {
      assert m[..p'] == s[..q] + s[r..p];
      assert m[p'..] == s[p..];
    }
  }

  lemma ShiftedAt<T>(s: seq<T>, p: nat, q: nat, r: nat)
    requires q <= r <= |s| && p < |s| && (p < q || r <= p)
    ensures var m := s[..q] + s[r..]; Shifted(p, q, r) < |m| && m[Shifted(p, q, r)] == s[p]
    ensures q >= 1 && p >= 1 ==> Shifted(p, q, r) >= 1
  {
  }

  lemma ChainFacts(s: seq<Elem>, q: nat, r: nat)
    requires Linked(s) && 1 <= q <= r < |s|
    ensures s[q] == s[r] <==> q == r
    ensures s[r].prev == s[r - 1]
  {
  }

  lemma NothingSpliced<T>(s: seq<T>, p: nat, q: nat)
    requires p <= |s| && q <= |s|
    ensures Spliced(s, p, q, q) == s
  {
    if p <= q {
      assert s == s[..p] + s[p..q] + s[q..];
    } else {
      assert s == s[..q] + s[q..p] + s[p..];
    }
  }

  /** The interior of a chain turned around. */
  ghost function Reversed<T>(s: seq<T>): (r: seq<T>)
    requires 2 <= |s|
    ensures |r| == |s| && r[0] == s[0] && r[|s| - 1] == s[|s| - 1]
    ensures forall i :: 0 < i < |s| - 1 ==> r[i] == s[|s| - 1 - i]
  {
    seq(|s|, i requires 0 <= i < |s| => if i == 0 || i == |s| - 1 then s[i] else s[|s| - 1 - i])
  }

  /** The links of s while the elements below i have theirs swapped. */
  ghost predicate HalfTurned(s: seq<Elem>, i: nat)
    reads s
  {
    && 2 <= |s| && 1 <= i <= |s| - 1 && NoRepeats(s)
    && s[0].prev == null && s[|s| - 1].next == null && s[0].next == s[1] && s[|s| - 1].prev == s[|s| - 2]
    && (forall k {:trigger s[k].prev} :: 0 < k < |s| - 1 ==> s[k].prev == if k < i then s[k + 1] else s[k - 1])
    && (forall k {:trigger s[k].next} :: 0 < k < |s| - 1 ==> s[k].next == if k < i then s[k - 1] else s[k + 1])
  }

  /** The links of a chain that runs the other way between its sentinels. */
  ghost predicate Turned(s: seq<Elem>)
    reads s
  {
    var n := |s| - 1;
    && 2 <= n && NoRepeats(s)
    && s[0].prev == null && s[n].next == null && s[0].next == s[n - 1] && s[n].prev == s[1]
    && (forall k {:trigger s[k].prev} :: 0 < k < n ==> s[k].prev == if k == n - 1 then s[0] else s[k + 1])
    && (forall k {:trigger s[k].next} :: 0 < k < n ==> s[k].next == if k == 1 then s[n] else s[k - 1])
  }

  lemma TurnedIsLinked(s: seq<Elem>)
    requires Turned(s)
    ensures Linked(Reversed(s))
  {
  }

  lemma LinkedIsUnturned(s: seq<Elem>)
    requires Linked(s)
    ensures HalfTurned(s, 1)
  {
  }

  class List {
    const head: Elem
    const tail: Elem
    ghost var chain: seq<Elem>

    ghost predicate Valid()
      reads this, chain
    {
      Linked(chain) && chain[0] == head && chain[|chain| - 1] == tail
    }

    /** The elements of the list, in order. */
    ghost function Contents(): seq<Elem>
      requires Valid()
      reads this, chain
    {
      chain[1..|chain| - 1]
    }

    constructor ()
      ensures Valid() && chain == [head, tail] && Contents() == [] && fresh(head) && fresh(tail)
    {
      var h := new Elem(0);
      var t := new Elem(0);
      h.next, t.prev := t, h;
      head, tail := h, t;
      chain := [h, t];
    }

    method Insert(before: Elem, elem: Elem, ghost p: nat)
      requires Valid()
      requires 1 <= p < |chain| && chain[p] == before
      requires elem !in chain
      modifies this, chain, elem
      ensures Valid()
      ensures chain == old(chain[..p]) + [elem] + old(chain[p..])
    {
      elem.prev := before.prev;
      elem.next := before;
      before.prev.next := elem;
      before.prev := elem;
      chain := chain[..p] + [elem] + chain[p..];
    }

    method Remove(elem: Elem, ghost p: nat) returns (following: Elem)
      requires Valid()
      requires 1 <= p < |chain| - 1 && chain[p] == elem
      modifies this, chain
      ensures Valid()
      ensures chain == old(chain[..p]) + old(chain[p + 1..])
      ensures following == old(chain)[p + 1]
    {
      elem.prev.next := elem.next;
      elem.next.prev := elem.prev;
      following := elem.next;
      chain := chain[..p] + chain[p + 1..];
    }

    /** list_front. */
    method Front() returns (e: Elem)
      requires Valid() && |chain| > 2
      ensures e == chain[1]
    {
      e := head.next;
    }

    /** First half of a splice: closes the chain over the elements [q, r), which stay linked to each other. */
    method Detach(first: Elem, back: Elem, ghost q: nat, ghost r: nat)
      requires Valid()
      requires 1 <= q < r < |chain| && chain[q] == first && chain[r - 1] == back
      modifies this, chain
      ensures Valid()
      ensures chain == old(chain[..q]) + old(chain[r..])
      ensures Segment(old(chain[q..r])) && Apart(old(chain[q..r]), chain)
    {
      CutAt(chain, q);
      CutAt(chain, r);
      SegmentOf(chain, q, r);
      hide Linked, Chained, Segment, Apart, NoRepeats;
      Bridge(first.prev, back.next, chain, q, r);
      JoinBoth(chain[..q], chain[r..]);
      chain := chain[..q] + chain[r..];
    }

    /** The two links that close the chain over [q, r). */
    method Bridge(a: Elem, b: Elem, ghost s: seq<Elem>, ghost q: nat, ghost r: nat)
      requires 1 <= q < r < |s| && NoRepeats(s) && s[q - 1] == a && s[r] == b && Chained(s[..q]) && Chained(s[r..])
      modifies a, b
      ensures Chained(s[..q]) && Chained(s[r..]) && a.next == b && b.prev == a
      ensures s[0].prev == old(s[0].prev) && s[|s| - 1].next == old(s[|s| - 1].next)
    {
      a.next := b;
      b.prev := a;
    }

    /** Second half of a splice: opens the chain before the element at p for a detached segment. */
    method Attach(before: Elem, first: Elem, back: Elem, ghost seg: seq<Elem>, ghost p: nat)
      requires Valid()
      requires 1 <= p < |chain| && chain[p] == before
      requires Segment(seg) && seg[0] == first && seg[|seg| - 1] == back
      requires Apart(seg, chain)
      modifies this, chain, seg
      ensures Valid()
      ensures chain == old(chain[..p]) + seg + old(chain[p..])
    {
      CutAt(chain, p);
      hide Linked;
      Hook(before, first, back, seg, chain, p);
      JoinAll(chain[..p], seg, chain[p..]);
      chain := chain[..p] + seg + chain[p..];
    }

    /** The four links that put seg before the element at p. */
    method Hook(before: Elem, first: Elem, back: Elem, ghost seg: seq<Elem>, ghost s: seq<Elem>, ghost p: nat)
      requires 1 <= p < |s| && s[p] == before && before.prev == s[p - 1] && NoRepeats(s)
      requires Segment(seg) && seg[0] == first && seg[|seg| - 1] == back && Apart(seg, s)
      requires Chained(s[..p]) && Chained(s[p..])
      modifies before, before.prev, first, back
      ensures Chained(s[..p]) && Chained(seg) && Chained(s[p..])
      ensures s[p - 1].next == first && first.prev == s[p - 1] && back.next == before && before.prev == back
      ensures s[0].prev == old(s[0].prev) && s[|s| - 1].next == old(s[|s| - 1].next)
    {
      first.prev := before.prev;
      back.next := before;
      before.prev.next := first;
      before.prev := back;
    }

    /** list_splice within one list; `before` lies outside [first, last). */
    method Splice(before: Elem, first: Elem, last: Elem, ghost p: nat, ghost q: nat, ghost r: nat)
      requires Valid()
      requires 1 <= p < |chain| && chain[p] == before
      requires 1 <= q <= r < |chain| && chain[q] == first && chain[r] == last
      requires q == r || p < q || r <= p
      modifies this, chain
      ensures Valid()
      ensures chain == Spliced(old(chain), p, q, r)
    {
      ChainFacts(chain, q, r);
      hide Linked, Segment, NoRepeats, Apart;
      if first == last {
        NothingSpliced(chain, p, q);
        return;
      }
      var back := last.prev;
      ghost var s := chain;
      Detach(first, back, q, r);
      ShiftedAt(s, p, q, r);
      Attach(before, first, back, s[q..r], Shifted(p, q, r));
      SplicedInTwoSteps(s, p, q, r);
    }

    /** list_reverse: every element's two links are swapped, then those of the sentinels and at the two ends. */
    method Reverse()
      requires Valid()
      modifies this, chain
      ensures Valid()
      ensures chain == Reversed(old(chain))
    {
      if head.next == tail {
        assert |chain| == 2;
        assert Reversed(chain) == chain;
        return;
      }
      TurnElements();
      SwapEnds();
      TurnedIsLinked(chain);
      chain := Reversed(chain);
    }

    /** The sentinels' links are swapped, then the outer links of the two end elements. */
    method SwapEnds()
      requires 2 < |chain| && HalfTurned(chain, |chain| - 1) && chain[0] == head && chain[|chain| - 1] == tail
      modifies chain
      ensures Turned(chain)
    {
      head.next, tail.prev := tail.prev, head.next;
      var first, last := head.next, tail.prev;
      var p := first.prev;
      first.prev := last.next;
      last.next := p;
    }

    /** One element's links are swapped; the element that followed it is returned. */
    method TurnOne(e: Elem, ghost i: nat) returns (following: Elem)
      requires HalfTurned(chain, i) && i < |chain| - 1 && chain[i] == e
      modifies e
      ensures HalfTurned(chain, i + 1) && following == chain[i + 1]
    {
      e.prev, e.next := e.next, e.prev;
      following := e.prev;
    }

    method TurnElements()
      requires Valid()
      modifies chain
      ensures chain == old(chain) && HalfTurned(chain, |chain| - 1)
    {
      LinkedIsUnturned(chain);
      hide Linked, HalfTurned;
      var e := head.next;
      ghost var i := 1;
      while e != tail
        invariant chain == old(chain) && HalfTurned(chain, i)
        invariant 1 <= i <= |chain| - 1 && chain[i] == e && chain[|chain| - 1] == tail
        decreases |chain| - i
      {
        e := TurnOne(e, i);
        i := i + 1;
      }
    }
  }
}
