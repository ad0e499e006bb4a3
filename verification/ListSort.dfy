/** Order, stability and runs: what utils/list.inline.h means by a sorted list. */
module ListOrder {
  import opened IntrusiveList

  /** A `list_less_func` with its `aux` argument fixed. */
  type Less = (int, int) -> bool

  ghost predicate StrictWeakOrder(less: Less) {
    && (forall x :: !less(x, x))
    && (forall x, y :: less(x, y) ==> !less(y, x))
    && (forall x, y, z {:trigger less(x, y), less(y, z)} :: less(x, y) && less(y, z) ==> less(x, z))
    && (forall x, y, z {:trigger less(x, y), less(x, z)} {:trigger less(x, y), less(z, y)} ::
          less(x, y) ==> less(x, z) || less(z, y))
  }

  ghost predicate Equivalent(less: Less, x: int, y: int) {
    !less(x, y) && !less(y, x)
  }

  /** No element of s[lo..hi] comes before an element that is less than it should follow. */
  ghost predicate SortedRange(s: seq<Elem>, lo: nat, hi: nat, less: Less)
    requires hi <= |s|
  {
    forall i, j :: lo <= i < j < hi ==> !less(s[j].key, s[i].key)
  }

  ghost predicate Sorted(s: seq<Elem>, less: Less) {
    SortedRange(s, 0, |s|, less)
  }

  /** The elements of s equivalent to x, in order. */
  ghost function Class(s: seq<Elem>, x: int, less: Less): seq<Elem> {
    if s == [] then []
    else (if Equivalent(less, s[0].key, x) then [s[0]] else []) + Class(s[1..], x, less)
  }

  /** t is a rearrangement of s that keeps equivalent elements in their order. */
  ghost predicate StableRearrangement(s: seq<Elem>, t: seq<Elem>, less: Less) {
    forall x :: Class(s, x, less) == Class(t, x, less)
  }

  lemma {:induction false} ClassOfConcat(s: seq<Elem>, t: seq<Elem>, x: int, less: Less)
    ensures Class(s + t, x, less) == Class(s, x, less) + Class(t, x, less)
  {
    if s == [] {
      assert s + t == t;
    } else {
      ClassOfConcat(s[1..], t, x, less);
      assert (s + t)[1..] == s[1..] + t;
    }
  }

  lemma {:induction false} ClassEmpty(s: seq<Elem>, x: int, less: Less)
    requires forall e :: e in s ==> !Equivalent(less, e.key, x)
    ensures Class(s, x, less) == []
  {
    if s != [] {
      ClassEmpty(s[1..], x, less);
    }
  }

  /** A stable rearrangement is a permutation: every element belongs to the class of its own key. */
  lemma {:induction false} ClassCount(s: seq<Elem>, e: Elem, less: Less)
    requires StrictWeakOrder(less)
    ensures multiset(s)[e] == multiset(Class(s, e.key, less))[e]
  {
    if s != [] {
      ClassCount(s[1..], e, less);
      assert s == [s[0]] + s[1..];
    }
  }

  lemma StableIsPermutation(s: seq<Elem>, t: seq<Elem>, less: Less)
    requires StrictWeakOrder(less) && StableRearrangement(s, t, less)
    ensures multiset(s) == multiset(t)
  {
    forall e: Elem
      ensures multiset(s)[e] == multiset(t)[e]
    {
      ClassCount(s, e, less);
      ClassCount(t, e, less);
    }
  }

  /** Moving one element back over elements it is strictly less than is stable. */
  lemma MoveIsStable(s: seq<Elem>, p: nat, q: nat, less: Less)
    requires StrictWeakOrder(less)
    requires p <= q < |s|
    requires forall i :: p <= i < q ==> less(s[q].key, s[i].key)
    ensures StableRearrangement(s, Spliced(s, p, q, q + 1), less)
  {
    var b, skipped := s[q..q + 1], s[p..q];
    assert s == s[..p] + skipped + b + s[q + 1..];
    forall x
      ensures Class(s, x, less) == Class(Spliced(s, p, q, q + 1), x, less)
    {
      ClassOfConcat(s[..p] + skipped + b, s[q + 1..], x, less);
      ClassOfConcat(s[..p] + skipped, b, x, less);
      ClassOfConcat(s[..p], skipped, x, less);
      ClassOfConcat(s[..p] + b + skipped, s[q + 1..], x, less);
      ClassOfConcat(s[..p] + b, skipped, x, less);
      ClassOfConcat(s[..p], b, x, less);
      if Equivalent(less, s[q].key, x) {
        ClassEmpty(skipped, x, less);
      } else {
        ClassEmpty(b, x, less);
      }
    }
  }

  /** The number of places where s[lo..hi] steps down; it consists of one more nondecreasing run than that. */
  ghost function Descents(s: seq<Elem>, lo: nat, hi: nat, less: Less): nat
    requires hi <= |s|
    decreases hi
  {
    if hi < lo + 2 then 0
    else Descents(s, lo, hi - 1, less) + if less(s[hi - 1].key, s[hi - 2].key) then 1 else 0
  }

  lemma {:induction false} DescentsAcrossRun(s: seq<Elem>, lo: nat, mid: nat, hi: nat, less: Less)
    requires lo <= mid < hi <= |s| && SortedRange(s, mid, hi, less)
    ensures Descents(s, lo, hi, less)
         == Descents(s, lo, mid, less) + if lo < mid && less(s[mid].key, s[mid - 1].key) then 1 else 0
  {
    if hi - mid > 1 {
      DescentsAcrossRun(s, lo, mid, hi - 1, less);
    }
  }

  lemma {:induction false} DescentsDependOnRange(s: seq<Elem>, t: seq<Elem>, lo: nat, hi: nat, less: Less)
    requires hi <= |s| && hi <= |t| && s[..hi] == t[..hi]
    ensures Descents(s, lo, hi, less) == Descents(t, lo, hi, less)
  {
    if hi >= lo + 2 {
      assert forall i :: 0 <= i < hi ==> s[i] == s[..hi][i] && t[i] == t[..hi][i];
      DescentsDependOnRange(s, t, lo, hi - 1, less);
    }
  }

  lemma {:induction false} NoDescentsIsSorted(s: seq<Elem>, lo: nat, hi: nat, less: Less)
    requires hi <= |s| && StrictWeakOrder(less) && Descents(s, lo, hi, less) == 0
    ensures SortedRange(s, lo, hi, less)
  {
    if hi >= lo + 2 {
      NoDescentsIsSorted(s, lo, hi - 1, less);
    }
  }
}

/** The in-place natural merge sort of utils/list.inline.h. */
module ListSort {
  import opened IntrusiveList
  import opened ListOrder

  method FindEndOfRun(l: List, a: Elem, b: Elem, less: Less, ghost i: nat, ghost j: nat)
    returns (e: Elem, ghost k: nat)
    requires l.Valid() && StrictWeakOrder(less)
    requires 1 <= i < j < |l.chain| && l.chain[i] == a && l.chain[j] == b
    ensures i < k <= j && l.chain[k] == e
    ensures SortedRange(l.chain, i, k, less)
    ensures k < j ==> less(l.chain[k].key, l.chain[k - 1].key)
  {
    e := a.next;
    k := i + 1;
    while e != b && !less(e.key, e.prev.key)
      invariant i < k <= j && l.chain[k] == e
      invariant SortedRange(l.chain, i, k, less)
      decreases j - k
    {
      e := e.next;
      k := k + 1;
    }
  }

  /** s differs from was only by a stable rearrangement inside [lo, hi). */
  ghost predicate RearrangedWithin(was: seq<Elem>, s: seq<Elem>, lo: nat, hi: nat, less: Less) {
    && |s| == |was|
    && lo <= hi <= |s|
    && s[..lo] == was[..lo]
    && s[hi..] == was[hi..]
    && multiset(s) == multiset(was)
    && StableRearrangement(was, s, less)
  }

  /** The merge has placed [lo, i); the rest of the first run is [i, j) and the rest of the second is [j, hi). */
  ghost predicate Merging(s: seq<Elem>, lo: nat, i: nat, j: nat, hi: nat, less: Less) {
    && lo <= i <= j <= hi <= |s|
    && SortedRange(s, lo, j, less)
    && SortedRange(s, j, hi, less)
    && forall p, q :: lo <= p < i && j <= q < hi ==> !less(s[q].key, s[p].key)
  }

  lemma SameElements(s: seq<Elem>, t: seq<Elem>)
    requires multiset(s) == multiset(t)
    ensures forall k :: 0 <= k < |t| ==> t[k] in s
  {
    forall k | 0 <= k < |t|
      ensures t[k] in s
    {
      assert t[k] in multiset(t);
    }
  }

  lemma SortedWhenMerged(s: seq<Elem>, lo: nat, i: nat, j: nat, hi: nat, less: Less)
    requires Merging(s, lo, i, j, hi, less) && (i == j || j == hi)
    ensures SortedRange(s, lo, hi, less)
  {
  }

  lemma SplicedOneAt<T>(s: seq<T>, i: nat, j: nat)
    requires i <= j < |s|
    ensures |Spliced(s, i, j, j + 1)| == |s|
    ensures forall p :: 0 <= p < |s| ==>
              Spliced(s, i, j, j + 1)[p] == if p < i || p > j then s[p] else if p == i then s[j] else s[p - 1]
  {
  }

  lemma MergeMoveRearranges(was: seq<Elem>, s: seq<Elem>, lo: nat, i: nat, j: nat, hi: nat, less: Less)
    requires StrictWeakOrder(less)
    requires RearrangedWithin(was, s, lo, hi, less)
    requires lo <= i <= j < hi
    requires forall p :: i <= p < j ==> less(s[j].key, s[p].key)
    ensures RearrangedWithin(was, Spliced(s, i, j, j + 1), lo, hi, less)
  {
    var t := Spliced(s, i, j, j + 1);
    assert t[..lo] == s[..lo];
    assert t[hi..] == s[hi..];
    MoveIsStable(s, i, j, less);
    StableIsPermutation(s, t, less);
  }

  lemma MergeMoveSorts(s: seq<Elem>, lo: nat, i: nat, j: nat, hi: nat, less: Less)
    requires StrictWeakOrder(less)
    requires Merging(s, lo, i, j, hi, less) && i < j < hi && less(s[j].key, s[i].key)
    ensures forall p :: i <= p < j ==> less(s[j].key, s[p].key)
    ensures Merging(Spliced(s, i, j, j + 1), lo, i + 1, j + 1, hi, less)
  {
    hide StrictWeakOrder;
    forall p | i <= p < j
      ensures less(s[j].key, s[p].key) && !less(s[p].key, s[j].key)
    {
      if p == i {
        Asymmetric(less, s[j].key, s[i].key);
      } else {
        LessThrough(less, s[j].key, s[i].key, s[p].key);
      }
    }
    MovedSorted(s, lo, i, j, hi, less);
  }

  lemma LessThrough(less: Less, x: int, y: int, z: int)
    requires StrictWeakOrder(less) && less(x, y) && !less(z, y)
    ensures less(x, z) && !less(z, x)
  {
  }

  lemma Asymmetric(less: Less, x: int, y: int)
    requires StrictWeakOrder(less) && less(x, y)
    ensures !less(y, x)
  {
  }

  lemma MovedSorted(s: seq<Elem>, lo: nat, i: nat, j: nat, hi: nat, less: Less)
    requires Merging(s, lo, i, j, hi, less) && i < j < hi
    requires forall p :: i <= p < j ==> !less(s[p].key, s[j].key)
    ensures Merging(Spliced(s, i, j, j + 1), lo, i + 1, j + 1, hi, less)
  {
    var t := Spliced(s, i, j, j + 1);
    SplicedOneAt(s, i, j);
    hide Spliced;
    forall p, q | lo <= p < q < hi && (q <= j || p <= i || j < p)
      ensures !less(t[q].key, t[p].key)
    {
      assert t[p] == s[if p < i || p > j then p else if p == i then j else p - 1];
      assert t[q] == s[if q < i || q > j then q else if q == i then j else q - 1];
    }
  }

  lemma MergeMove(was: seq<Elem>, s: seq<Elem>, lo: nat, i: nat, j: nat, hi: nat, less: Less)
    requires StrictWeakOrder(less)
    requires RearrangedWithin(was, s, lo, hi, less)
    requires Merging(s, lo, i, j, hi, less) && i < j < hi && less(s[j].key, s[i].key)
    ensures RearrangedWithin(was, Spliced(s, i, j, j + 1), lo, hi, less)
    ensures Merging(Spliced(s, i, j, j + 1), lo, i + 1, j + 1, hi, less)
    ensures Spliced(s, i, j, j + 1)[i + 1] == s[i]
    ensures forall p :: j < p < |s| ==> Spliced(s, i, j, j + 1)[p] == s[p]
  {
    MergeMoveSorts(s, lo, i, j, hi, less);
    MergeMoveRearranges(was, s, lo, i, j, hi, less);
    SplicedOneAt(s, i, j);
  }

  lemma MergeKeep(s: seq<Elem>, lo: nat, i: nat, j: nat, hi: nat, less: Less)
    requires StrictWeakOrder(less)
    requires Merging(s, lo, i, j, hi, less) && i < j < hi && !less(s[j].key, s[i].key)
    ensures Merging(s, lo, i + 1, j, hi, less)
  {
    forall q | j <= q < hi
      ensures !less(s[q].key, s[i].key)
    {
      assert j < q ==> !less(s[q].key, s[j].key);
    }
  }

  /** One round of the merge: the smaller head is placed, the first run winning ties. */
  method MergeStep(l: List, a: Elem, b: Elem, less: Less, ghost was: seq<Elem>, ghost lo: nat, ghost i: nat,
                   ghost j: nat, ghost hi: nat)
    returns (a0: Elem, a1b0: Elem, ghost j': nat)
    requires l.Valid() && StrictWeakOrder(less)
    requires 1 <= lo <= i < j < hi < |l.chain| && l.chain[i] == a && l.chain[j] == b
    requires Merging(l.chain, lo, i, j, hi, less) && RearrangedWithin(was, l.chain, lo, hi, less)
    modifies l, l.chain
    ensures l.Valid() && RearrangedWithin(was, l.chain, lo, hi, less)
    ensures Merging(l.chain, lo, i + 1, j', hi, less)
    ensures l.chain[i + 1] == a0 && l.chain[j'] == a1b0 && (j' == j || j' == j + 1)
  {
    hide StrictWeakOrder, Merging, RearrangedWithin, Spliced;
    if !less(b.key, a.key) {
      MergeKeep(l.chain, lo, i, j, hi, less);
      a0, a1b0, j' := a.next, b, j;
    } else {
      MergeMove(was, l.chain, lo, i, j, hi, less);
      a0, a1b0, j' := a, b.next, j + 1;
      l.Splice(a, a1b0.prev, a1b0, i, j, j + 1);
    }
  }

  /** __list_inplace_merge: two adjacent sorted runs become one, and nothing outside them moves. */
  method InplaceMerge(l: List, first: Elem, second: Elem, b1: Elem, less: Less, ghost lo: nat, ghost mid: nat,
                      ghost hi: nat)
    requires l.Valid() && StrictWeakOrder(less)
    requires 1 <= lo < mid < hi < |l.chain|
    requires l.chain[lo] == first && l.chain[mid] == second && l.chain[hi] == b1
    requires SortedRange(l.chain, lo, mid, less) && SortedRange(l.chain, mid, hi, less)
    modifies l, l.chain
    ensures l.Valid()
    ensures RearrangedWithin(old(l.chain), l.chain, lo, hi, less)
    ensures SortedRange(l.chain, lo, hi, less)
  {
    hide StrictWeakOrder;
    var a0, a1b0 := first, second;
    ghost var i, j := lo, mid;
    ghost var was := l.chain;
    while a0 != a1b0 && a1b0 != b1
      invariant l.Valid()
      invariant RearrangedWithin(was, l.chain, lo, hi, less)
      invariant Merging(l.chain, lo, i, j, hi, less)
      invariant l.chain[i] == a0 && l.chain[j] == a1b0 && l.chain[hi] == b1
      decreases hi - i
    {
      SameElements(was, l.chain);
      a0, a1b0, j := MergeStep(l, a0, a1b0, less, was, lo, i, j, hi);
      i := i + 1;
    }
    SortedWhenMerged(l.chain, lo, i, j, hi, less);
  }

  lemma RearrangedFurther(was: seq<Elem>, s: seq<Elem>, t: seq<Elem>, lo: nat, mid: nat, hi: nat, less: Less)
    requires lo <= mid && RearrangedWithin(was, s, lo, mid, less) && RearrangedWithin(s, t, mid, hi, less)
    ensures RearrangedWithin(was, t, lo, hi, less)
  {
    assert t[..lo] == t[..mid][..lo] == s[..lo];
    assert s[hi..] == s[mid..][hi - mid..] == was[hi..];
  }

  /** After `runs` merges the pass stands at i: the prefix has at most runs - 1 descents left of at least 2 * runs -
      1. */
  ghost predicate PassState(was: seq<Elem>, s: seq<Elem>, i: nat, end: nat, runs: nat, less: Less) {
    && 1 <= i <= end <= |s|
    && RearrangedWithin(was, s, 1, i, less)
    && (runs == 0 <==> i == 1)
    && (runs > 0 ==> Descents(s, 1, i, less) <= runs - 1 && 2 * runs - 1 <= Descents(was, 1, i, less))
    && (runs > 0 && i < end ==> less(was[i].key, was[i - 1].key))
  }

  /** Merging the two runs found at i advances the pass past both. */
  lemma PassAdvances(was: seq<Elem>, s: seq<Elem>, t: seq<Elem>, i: nat, mid: nat, hi: nat, end: nat, runs: nat,
                     less: Less)
    requires PassState(was, s, i, end, runs, less)
    requires i < mid < hi <= end
    requires SortedRange(s, i, mid, less) && less(s[mid].key, s[mid - 1].key) && SortedRange(s, mid, hi, less)
    requires hi < end ==> less(s[hi].key, s[hi - 1].key)
    requires RearrangedWithin(s, t, i, hi, less) && SortedRange(t, i, hi, less)
    ensures PassState(was, t, hi, end, runs + 1, less)
  {
    RearrangedFurther(was, s, t, 1, i, hi, less);
    assert forall p :: i <= p < end ==> was[p] == was[i..][p - i] == s[i..][p - i] == s[p];
    DescentsAcrossRun(was, 1, i, mid, less);
    DescentsAcrossRun(was, 1, mid, hi, less);
    DescentsAcrossRun(t, 1, i, hi, less);
    DescentsDependOnRange(s, t, 1, i, less);
  }

  /** What a completed pass has achieved. */
  ghost predicate PassDone(was: seq<Elem>, s: seq<Elem>, end: nat, runs: nat, less: Less) {
    && RearrangedWithin(was, s, 1, end, less)
    && 2 * Descents(s, 1, end, less) <= Descents(was, 1, end, less)
    && (runs <= 1 ==> Descents(s, 1, end, less) == 0)
    && (runs > 1 ==> 0 < Descents(was, 1, end, less))
  }

  /** The last run of an odd number is left as it is. */
  lemma PassEnds(was: seq<Elem>, s: seq<Elem>, i: nat, end: nat, runs: nat, less: Less)
    requires PassState(was, s, i, end, runs, less) && i < end
    requires SortedRange(s, i, end, less)
    ensures PassDone(was, s, end, runs + 1, less)
  {
    RearrangedFurther(was, s, s, 1, i, end, less);
    assert forall p :: i <= p < end ==> was[p] == was[i..][p - i] == s[i..][p - i] == s[p];
    DescentsAcrossRun(was, 1, i, end, less);
    DescentsAcrossRun(s, 1, i, end, less);
  }

  lemma PassBegins(was: seq<Elem>, end: nat, less: Less)
    requires 1 <= end <= |was|
    ensures PassState(was, was, 1, end, 0, less)
  {
  }

  lemma PassFacts(was: seq<Elem>, s: seq<Elem>, i: nat, end: nat, runs: nat, less: Less)
    requires PassState(was, s, i, end, runs, less)
    ensures 1 <= i <= end && |s| == |was|
    ensures forall k :: 0 <= k < |s| ==> s[k] in was
    ensures i == end ==> PassDone(was, s, end, runs, less)
  {
    SameElements(was, s);
  }

  /** One iteration of the inner loop: finds two runs at i and merges them, or finds that only one is left. */
  method PassRound(l: List, a0: Elem, less: Less, ghost was: seq<Elem>, ghost i: nat, ghost end: nat, ghost runs: nat)
    returns (b1: Elem, ghost hi: nat)
    requires l.Valid() && StrictWeakOrder(less)
    requires |l.chain| == end + 1 && 1 <= i < end && l.chain[i] == a0
    requires PassState(was, l.chain, i, end, runs, less)
    modifies l, l.chain
    ensures l.Valid() && |l.chain| == end + 1
    ensures i < hi <= end && l.chain[hi] == b1
    ensures || PassState(was, l.chain, hi, end, runs + 1, less)
            || (hi == end && PassDone(was, l.chain, end, runs + 1, less))
    ensures forall k :: 0 <= k < |l.chain| ==> l.chain[k] in old(l.chain)
  {
    hide StrictWeakOrder, SortedRange, PassState, PassDone;
    ghost var s := l.chain;
    var a1b0, mid := FindEndOfRun(l, a0, l.tail, less, i, end);
    if a1b0 == l.tail {
      b1, hi := l.tail, end;
      PassEnds(was, s, i, end, runs, less);
      return;
    }
    b1, hi := FindEndOfRun(l, a1b0, l.tail, less, mid, end);
    InplaceMerge(l, a0, a1b0, b1, less, i, mid, hi);
    PassAdvances(was, s, l.chain, i, mid, hi, end, runs, less);
    SameElements(s, l.chain);
  }

  /** One round of list_sort's outer loop; it halves the number of descents. */
  method Pass(l: List, less: Less) returns (runs: nat)
    requires l.Valid() && StrictWeakOrder(less)
    modifies l, l.chain
    ensures l.Valid() && |l.chain| == |old(l.chain)|
    ensures PassDone(old(l.chain), l.chain, |l.chain| - 1, runs, less)
    ensures forall k :: 0 <= k < |l.chain| ==> l.chain[k] in old(l.chain)
  {
    hide StrictWeakOrder, PassState, PassDone;
    runs := 0;
    var a0 := l.head.next;
    ghost var i, was, end := 1, l.chain, |l.chain| - 1;
    PassBegins(was, end, less);
    while a0 != l.tail
      invariant l.Valid() && |l.chain| == end + 1
      invariant 1 <= i <= end && l.chain[i] == a0
      invariant forall k :: 0 <= k < |l.chain| ==> l.chain[k] in was
      invariant PassState(was, l.chain, i, end, runs, less) || (i == end && PassDone(was, l.chain, end, runs, less))
      decreases end - i
    {
      a0, i := PassRound(l, a0, less, was, i, end, runs);
      runs := runs + 1;
    }
    if !PassDone(was, l.chain, end, runs, less) {
      PassFacts(was, l.chain, i, end, runs, less);
    }
  }

  lemma CancelEnds<T>(a: seq<T>, x: seq<T>, y: seq<T>, b: seq<T>)
    requires a + x + b == a + y + b
    ensures x == y
  {
    assert |x| == |y|;
    assert forall k :: 0 <= k < |x| ==> x[k] == (a + x + b)[|a| + k] && y[k] == (a + y + b)[|a| + k];
  }

  lemma InteriorRearranged(s: seq<Elem>, t: seq<Elem>, less: Less)
    requires 2 <= |s| && RearrangedWithin(s, t, 1, |s| - 1, less)
    ensures StableRearrangement(s[1..|s| - 1], t[1..|t| - 1], less)
  {
    var n := |s| - 1;
    assert s == s[..1] + s[1..n] + s[n..];
    assert t == t[..1] + t[1..n] + t[n..];
    forall x
      ensures Class(s[1..n], x, less) == Class(t[1..n], x, less)
    {
      ClassOfConcat(s[..1] + s[1..n], s[n..], x, less);
      ClassOfConcat(s[..1], s[1..n], x, less);
      ClassOfConcat(t[..1] + t[1..n], t[n..], x, less);
      ClassOfConcat(t[..1], t[1..n], x, less);
      CancelEnds(Class(s[..1], x, less), Class(s[1..n], x, less), Class(t[1..n], x, less), Class(s[n..], x, less));
    }
  }

  /** A pass that ends with more than one run has strictly reduced the descents. */
  lemma PassGains(was: seq<Elem>, s: seq<Elem>, t: seq<Elem>, end: nat, runs: nat, less: Less)
    requires 1 <= end <= |was| && (was == s || RearrangedWithin(was, s, 1, end, less))
    requires PassDone(s, t, end, runs, less)
    ensures RearrangedWithin(was, t, 1, end, less) && |t| == |s|
    ensures runs <= 1 ==> Descents(t, 1, end, less) == 0
    ensures runs > 1 ==> Descents(t, 1, end, less) < Descents(s, 1, end, less)
    ensures Descents(t, 1, end, less) <= Descents(s, 1, end, less)
  {
  }

  /** list_sort: terminates on every list, leaves it sorted, and keeps equivalent elements in order. */
  method Sort(l: List, less: Less)
    requires l.Valid() && StrictWeakOrder(less)
    modifies l, l.chain
    ensures l.Valid()
    ensures Sorted(l.Contents(), less)
    ensures StableRearrangement(old(l.Contents()), l.Contents(), less)
    ensures multiset(l.Contents()) == multiset(old(l.Contents()))
  {
    hide StrictWeakOrder, PassDone, RearrangedWithin, Descents, SortedRange, StableRearrangement;
    ghost var was, end := l.chain, |l.chain| - 1;
    var runs := Pass(l, less);
    PassGains(was, was, l.chain, end, runs, less);
    while runs > 1
      invariant l.Valid() && |l.chain| == end + 1
      invariant forall k :: 0 <= k < |l.chain| ==> l.chain[k] in was
      invariant RearrangedWithin(was, l.chain, 1, end, less)
      invariant runs <= 1 ==> Descents(l.chain, 1, end, less) == 0
      decreases Descents(l.chain, 1, end, less), runs
    {
      ghost var s := l.chain;
      runs := Pass(l, less);
      PassGains(was, s, l.chain, end, runs, less);
    }
    SortDone(was, l.chain, end, less);
  }

  lemma SortDone(was: seq<Elem>, s: seq<Elem>, end: nat, less: Less)
    requires StrictWeakOrder(less) && |was| == |s| == end + 1 && 1 <= end
    requires RearrangedWithin(was, s, 1, end, less) && Descents(s, 1, end, less) == 0
    ensures Sorted(s[1..end], less) && StableRearrangement(was[1..end], s[1..end], less)
    ensures multiset(s[1..end]) == multiset(was[1..end])
  {
    hide StrictWeakOrder;
    NoDescentsIsSorted(s, 1, end, less);
    InteriorRearranged(was, s, less);
    StableIsPermutation(was[1..end], s[1..end], less);
  }

  lemma InsertedSorted(s: seq<Elem>, x: Elem, p: nat, less: Less)
    requires Sorted(s, less) && p <= |s|
    requires forall k :: 0 <= k < p ==> !less(x.key, s[k].key)
    requires forall k :: p <= k < |s| ==> !less(s[k].key, x.key)
    ensures Sorted(s[..p] + [x] + s[p..], less)
  {
    var t := s[..p] + [x] + s[p..];
    forall i, j | 0 <= i < j < |t|
      ensures !less(t[j].key, t[i].key)
    {
      assert i < p ==> t[i] == s[i];
      assert i > p ==> t[i] == s[i - 1];
      assert j < p ==> t[j] == s[j];
      assert j > p ==> t[j] == s[j - 1];
    }
  }

  /** Putting x at p into a sorted s is sorting s + [x] stably, if p is the first place that x is less than. */
  lemma InsertedInOrder(s: seq<Elem>, x: Elem, p: nat, less: Less)
    requires StrictWeakOrder(less) && Sorted(s, less) && p <= |s|
    requires forall k :: 0 <= k < p ==> !less(x.key, s[k].key)
    requires p < |s| ==> less(x.key, s[p].key)
    ensures Sorted(s[..p] + [x] + s[p..], less) && StableRearrangement(s + [x], s[..p] + [x] + s[p..], less)
  {
    hide StrictWeakOrder, StableRearrangement;
    forall k | p <= k < |s|
      ensures less(x.key, s[k].key) && !less(s[k].key, x.key)
    {
      if k == p {
        Asymmetric(less, x.key, s[k].key);
      } else {
        LessThrough(less, x.key, s[p].key, s[k].key);
      }
    }
    InsertedSorted(s, x, p, less);
    hide SortedRange;
    var t := s + [x];
    MoveIsStable(t, p, |s|, less);
    assert Spliced(t, p, |s|, |s| + 1) == s[..p] + [x] + s[p..];
  }

  /** The first element that key is less than, or the tail. */
  method FindPlace(l: List, key: int, less: Less) returns (e: Elem, ghost p: nat)
    requires l.Valid()
    ensures 1 <= p < |l.chain| && l.chain[p] == e
    ensures forall k :: 0 <= k < p - 1 ==> !less(key, l.Contents()[k].key)
    ensures p - 1 < |l.Contents()| ==> less(key, l.Contents()[p - 1].key)
  {
    e := l.head.next;
    p := 1;
    while e != l.tail && !less(key, e.key)
      invariant 1 <= p < |l.chain| && l.chain[p] == e
      invariant forall k :: 1 <= k < p ==> !less(key, l.chain[k].key)
      decreases |l.chain| - p
    {
      e := e.next;
      p := p + 1;
    }
  }

  /** list_insert_ordered: into a sorted list, after every element equivalent to it. */
  method InsertOrdered(l: List, elem: Elem, less: Less)
    requires l.Valid() && StrictWeakOrder(less) && Sorted(l.Contents(), less) && elem !in l.chain
    modifies l, l.chain, elem
    ensures l.Valid() && Sorted(l.Contents(), less)
    ensures StableRearrangement(old(l.Contents()) + [elem], l.Contents(), less)
  {
    hide StrictWeakOrder, SortedRange, StableRearrangement;
    ghost var s := l.Contents();
    var e, p := FindPlace(l, elem.key, less);
    InsertedInOrder(s, elem, p - 1, less);
    ghost var c := l.chain;
    l.Insert(e, elem, p);
    InsertedContents(c, p, elem);
  }

  lemma InsertedContents(c: seq<Elem>, p: nat, x: Elem)
    requires 2 <= |c| && 1 <= p < |c|
    ensures var s := c[1..|c| - 1]; (c[..p] + [x] + c[p..])[1..|c|] == s[..p - 1] + [x] + s[p - 1..]
  {
  }
}
