/** internal/apth_tcb.c over whole runs: every mapped stack has one owner, and its size is on record. */
module StackOwnership {
  import opened Basics
  import opened StackPool

  /** A region got from mmap, of which the first `guard` bytes are protected. */
  datatype Mapping = Mapping(size: int, guard: int)

  /** stack_mem_start, stacksize and guardsize of a TCB. */
  datatype Stack = Stack(mem: int, stacksize: int, guardsize: int) {
    function Total(): int {
      stacksize + guardsize
    }
  }

  datatype Owner = OfThread(t: Tid) | InPool(sched: nat)

  /** The mappings, every scheduler's pool and every live TCB; `owner` records who was last given each region. */
  datatype Heap = Heap(mapped: map<int, Mapping>, pools: map<nat, seq<Cached>>, tcbs: map<Tid, Stack>,
                       owner: map<int, Owner>)
  {
    function PoolOf(sched: Option<nat>): seq<Cached> {
      if sched.Some? && sched.value in pools then pools[sched.value] else []
    }
  }

  /** guardsize rounded up to whole pages. */
  function Rounded(guardsize: nat, page: nat): nat
    requires page > 0
  {
    (guardsize + page - 1) / page * page
  }

  datatype Step =
    | Alloc(t: Tid, sched: Option<nat>, stacksize: nat, guardsize: nat, page: nat, mmap: Option<int>, protect: bool)
    | Free(t: Tid, sched: Option<nat>)

  function Need(s: Step): int
    requires s.Alloc?
  {
    if s.stacksize < MIN_STACK then MIN_STACK else s.stacksize
  }

  function Guard(s: Step): int
    requires s.Alloc?
  {
    if s.page > 0 then Rounded(s.guardsize, s.page) else 0
  }

  /** The pool entry that an allocation takes. */
  function HitAt(h: Heap, s: Step): Option<nat>
    requires s.Alloc?
  {
    Best(h.PoolOf(s.sched), Need(s) + Guard(s), |h.PoolOf(s.sched)|)
  }

  function FromPool(h: Heap, t: Tid, sched: nat, i: nat, guard: int): Heap
    requires sched in h.pools && i < |h.pools[sched]|
  {
    var c := h.pools[sched][i];
    h.(pools := h.pools[sched := SwapRemove(h.pools[sched], i)],
       tcbs := h.tcbs[t := Stack(c.mem, c.size - guard, guard)],
       owner := h.owner[c.mem := OfThread(t)])
  }

  function FromSystem(h: Heap, t: Tid, a: int, need: int, guard: int, protect: bool): Heap {
    h.(mapped := h.mapped[a := Mapping(need + guard, if protect then guard else 0)],
       tcbs := h.tcbs[t := Stack(a, need, guard)],
       owner := h.owner[a := OfThread(t)])
  }

  function ToPool(h: Heap, t: Tid, sched: nat): Heap
    requires t in h.tcbs && sched in h.pools
  {
    var k := h.tcbs[t];
    h.(pools := h.pools[sched := h.pools[sched] + [Cached(k.mem, k.Total())]],
       tcbs := h.tcbs - {t},
       owner := h.owner[k.mem := InPool(sched)])
  }

  function ToSystem(h: Heap, t: Tid): Heap
    requires t in h.tcbs
  {
    h.(mapped := h.mapped - {h.tcbs[t].mem}, tcbs := h.tcbs - {t}, owner := h.owner - {h.tcbs[t].mem})
  }

  /** apth_tcb_alloc and apth_tcb_free. */
  function Apply(h: Heap, s: Step): Heap {
    match s
    case Alloc(t, sched, stacksize, guardsize, page, mmap, protect) =>
      if stacksize == 0 then h
      else if HitAt(h, s).Some? then FromPool(h, t, sched.value, HitAt(h, s).value, Guard(s))
      else if mmap.Some? then FromSystem(h, t, mmap.value, Need(s), Guard(s), protect)
      else h
    case Free(t, sched) =>
      if t !in h.tcbs then h
      else if sched.Some? && sched.value in h.pools && |h.pools[sched.value]| < STACK_POOL_MAX
      then ToPool(h, t, sched.value)
      else ToSystem(h, t)
  }

  /** An allocation is for a new TCB and mmap returns memory that is not mapped yet; only live TCBs are freed. */
  ghost predicate Legal(h: Heap, s: Step) {
    match s
    case Alloc(t, _, _, _, page, mmap, _) =>
      && t !in h.tcbs && page > 0
      && (mmap.Some? ==>
            && mmap.value > 0
            && forall b :: b in h.mapped ==> Apart(mmap.value, Need(s) + Guard(s), b, h.mapped[b].size))
    case Free(t, _) => t in h.tcbs
  }

  predicate Apart(a: int, asize: int, b: int, bsize: int) {
    a + asize <= b || b + bsize <= a
  }

  // The invariant

  ghost predicate RegionOk(h: Heap, a: int)
    requires a in h.mapped
  {
    && a > 0 && 0 <= h.mapped[a].guard && h.mapped[a].guard + MIN_STACK <= h.mapped[a].size
    && forall b :: b in h.mapped && b != a ==> Apart(a, h.mapped[a].size, b, h.mapped[b].size)
  }

  ghost predicate ThreadOk(h: Heap, t: Tid)
    requires t in h.tcbs
  {
    var k := h.tcbs[t];
    && k.mem in h.mapped && h.mapped[k.mem].size == k.Total()
    && k.guardsize >= 0 && k.stacksize >= MIN_STACK
    && k.mem in h.owner && h.owner[k.mem] == OfThread(t)
  }

  ghost predicate EntryOk(h: Heap, s: nat, c: Cached) {
    && c.mem in h.mapped && h.mapped[c.mem].size == c.size
    && c.mem in h.owner && h.owner[c.mem] == InPool(s)
  }

  ghost predicate DistinctMems(p: seq<Cached>) {
    forall i, j :: 0 <= i < j < |p| ==> p[i].mem != p[j].mem
  }

  ghost predicate PoolOk(h: Heap, s: nat)
    requires s in h.pools
  {
    && |h.pools[s]| <= STACK_POOL_MAX && DistinctMems(h.pools[s])
    && forall i :: 0 <= i < |h.pools[s]| ==> EntryOk(h, s, h.pools[s][i])
  }

  /** The recorded owner really has the region. */
  ghost predicate OwnerHas(h: Heap, a: int)
    requires a in h.owner
  {
    match h.owner[a]
    case OfThread(t) => t in h.tcbs && h.tcbs[t].mem == a
    case InPool(s) => s in h.pools && exists i :: 0 <= i < |h.pools[s]| && h.pools[s][i].mem == a
  }

  ghost predicate Inv(h: Heap) {
    && h.owner.Keys == h.mapped.Keys
    && (forall a :: a in h.mapped ==> RegionOk(h, a))
    && (forall t :: t in h.tcbs ==> ThreadOk(h, t))
    && (forall s :: s in h.pools ==> PoolOk(h, s))
    && forall a :: a in h.owner ==> OwnerHas(h, a)
  }

  lemma SwapRemoved(p: seq<Cached>, i: nat)
    requires i < |p| && DistinctMems(p)
    ensures DistinctMems(SwapRemove(p, i)) && |SwapRemove(p, i)| == |p| - 1
    ensures forall k :: 0 <= k < |p| - 1 ==> SwapRemove(p, i)[k] in p && SwapRemove(p, i)[k].mem != p[i].mem
    ensures forall j :: 0 <= j < |p| && j != i ==> exists k :: 0 <= k < |p| - 1 && SwapRemove(p, i)[k] == p[j]
  {
    var r := SwapRemove(p, i);
    forall j | 0 <= j < |p| && j != i
      ensures exists k :: 0 <= k < |p| - 1 && r[k] == p[j]
    {
      var k := if j == |p| - 1 then i else j;
      assert r[k] == p[j];
    }
  }

  lemma FromPoolKeepsInv(h: Heap, t: Tid, sched: nat, i: nat, guard: int)
    requires Inv(h) && t !in h.tcbs && sched in h.pools && i < |h.pools[sched]|
    requires guard >= 0 && guard + MIN_STACK <= h.pools[sched][i].size
    ensures Inv(FromPool(h, t, sched, i, guard))
  {
    var h' := FromPool(h, t, sched, i, guard);
    var p := h.pools[sched];
    assert PoolOk(h, sched) && EntryOk(h, sched, p[i]);
    SwapRemoved(p, i);
    forall a | a in h'.mapped
      ensures RegionOk(h', a)
    {
      assert RegionOk(h, a);
    }
    forall u | u in h'.tcbs
      ensures ThreadOk(h', u)
    {
      assert u != t ==> ThreadOk(h, u);
    }
    forall s | s in h'.pools
      ensures PoolOk(h', s)
    {
      PoolAfterTaking(h, t, sched, i, guard, s);
    }
    forall a | a in h'.owner
      ensures OwnerHas(h', a)
    {
      OwnerAfterTaking(h, t, sched, i, guard, a);
    }
  }

  lemma PoolAfterTaking(h: Heap, t: Tid, sched: nat, i: nat, guard: int, s: nat)
    requires Inv(h) && t !in h.tcbs && sched in h.pools && i < |h.pools[sched]| && s in h.pools
    ensures PoolOk(FromPool(h, t, sched, i, guard), s)
  {
    var h' := FromPool(h, t, sched, i, guard);
    var p := h.pools[sched];
    assert PoolOk(h, sched) && PoolOk(h, s) && EntryOk(h, sched, p[i]);
    SwapRemoved(p, i);
    forall k | 0 <= k < |h'.pools[s]|
      ensures EntryOk(h', s, h'.pools[s][k])
    {
      if s == sched {
        var j :| 0 <= j < |p| && p[j] == h'.pools[s][k];
        assert EntryOk(h, s, p[j]);
      } else {
        assert EntryOk(h, s, h.pools[s][k]);
      }
    }
  }

  lemma OwnerAfterTaking(h: Heap, t: Tid, sched: nat, i: nat, guard: int, a: int)
    requires Inv(h) && t !in h.tcbs && sched in h.pools && i < |h.pools[sched]|
    requires a in FromPool(h, t, sched, i, guard).owner
    ensures OwnerHas(FromPool(h, t, sched, i, guard), a)
  {
    var h' := FromPool(h, t, sched, i, guard);
    var p := h.pools[sched];
    assert PoolOk(h, sched) && EntryOk(h, sched, p[i]);
    SwapRemoved(p, i);
    if a != p[i].mem {
      assert OwnerHas(h, a);
      if h.owner[a] == InPool(sched) {
        var j :| 0 <= j < |p| && p[j].mem == a;
        var k :| 0 <= k < |p| - 1 && SwapRemove(p, i)[k] == p[j];
        assert h'.pools[sched][k].mem == a;
      }
    }
  }

  lemma NotMappedYet(h: Heap, a: int, size: int)
    requires Inv(h) && size > 0 && forall b :: b in h.mapped ==> Apart(a, size, b, h.mapped[b].size)
    ensures a !in h.mapped
  {
    assert a in h.mapped ==> RegionOk(h, a);
  }

  lemma RegionsAfterMapping(h: Heap, t: Tid, a: int, need: int, guard: int, protect: bool)
    requires forall b :: b in h.mapped ==> RegionOk(h, b)
    requires a !in h.mapped && a > 0 && need >= MIN_STACK && guard >= 0
    requires forall b :: b in h.mapped ==> Apart(a, need + guard, b, h.mapped[b].size)
    ensures var h' := FromSystem(h, t, a, need, guard, protect); forall b :: b in h'.mapped ==> RegionOk(h', b)
  {
    var h' := FromSystem(h, t, a, need, guard, protect);
    forall b | b in h'.mapped
      ensures RegionOk(h', b)
    {
      assert b != a ==> RegionOk(h, b);
    }
  }

  lemma PoolsAfterMapping(h: Heap, t: Tid, a: int, need: int, guard: int, protect: bool, s: nat)
    requires s in h.pools && PoolOk(h, s) && a !in h.mapped
    ensures PoolOk(FromSystem(h, t, a, need, guard, protect), s)
  {
    assert forall i :: 0 <= i < |h.pools[s]| ==> EntryOk(h, s, h.pools[s][i]);
  }

  lemma ThreadsAfterMapping(h: Heap, t: Tid, a: int, need: int, guard: int, protect: bool, u: Tid)
    requires a !in h.mapped && need >= MIN_STACK && guard >= 0 && (u == t || (u in h.tcbs && ThreadOk(h, u)))
    ensures ThreadOk(FromSystem(h, t, a, need, guard, protect), u)
  {
  }

  lemma OwnersAfterMapping(h: Heap, t: Tid, a: int, need: int, guard: int, protect: bool, b: int)
    requires t !in h.tcbs && (b == a || (b in h.owner && OwnerHas(h, b)))
    ensures OwnerHas(FromSystem(h, t, a, need, guard, protect), b)
  {
  }

  lemma FromSystemKeepsInv(h: Heap, t: Tid, a: int, need: int, guard: int, protect: bool)
    requires Inv(h) && t !in h.tcbs && a > 0 && need >= MIN_STACK && guard >= 0
    requires forall b :: b in h.mapped ==> Apart(a, need + guard, b, h.mapped[b].size)
    ensures Inv(FromSystem(h, t, a, need, guard, protect))
  {
    var h' := FromSystem(h, t, a, need, guard, protect);
    NotMappedYet(h, a, need + guard);
    RegionsAfterMapping(h, t, a, need, guard, protect);
    hide RegionOk, Apart, PoolOk, OwnerHas, ThreadOk;
    forall u | u in h'.tcbs
      ensures ThreadOk(h', u)
    {
      ThreadsAfterMapping(h, t, a, need, guard, protect, u);
    }
    forall s | s in h'.pools
      ensures PoolOk(h', s)
    {
      PoolsAfterMapping(h, t, a, need, guard, protect, s);
    }
    forall b | b in h'.owner
      ensures OwnerHas(h', b)
    {
      OwnersAfterMapping(h, t, a, need, guard, protect, b);
    }
  }

  lemma ToPoolKeepsInv(h: Heap, t: Tid, sched: nat)
    requires Inv(h) && t in h.tcbs && sched in h.pools && |h.pools[sched]| < STACK_POOL_MAX
    ensures Inv(ToPool(h, t, sched))
  {
    var h' := ToPool(h, t, sched);
    var a := h.tcbs[t].mem;
    assert ThreadOk(h, t);
    assert h'.pools[sched][|h.pools[sched]|].mem == a;
    forall b | b in h'.mapped
      ensures RegionOk(h', b)
    {
      assert RegionOk(h, b);
    }
    forall u | u in h'.tcbs
      ensures ThreadOk(h', u)
    {
      assert ThreadOk(h, u);
    }
    forall s | s in h'.pools
      ensures PoolOk(h', s)
    {
      assert PoolOk(h, s);
      assert forall i :: 0 <= i < |h.pools[s]| ==> EntryOk(h, s, h.pools[s][i]);
    }
    forall b | b in h'.owner
      ensures OwnerHas(h', b)
    {
      assert OwnerHas(h, b);
      if b != a && h.owner[b] == InPool(sched) {
        var i :| 0 <= i < |h.pools[sched]| && h.pools[sched][i].mem == b;
        assert h'.pools[sched][i].mem == b;
      }
    }
  }

  lemma ToSystemKeepsInv(h: Heap, t: Tid)
    requires Inv(h) && t in h.tcbs
    ensures Inv(ToSystem(h, t))
  {
    var h' := ToSystem(h, t);
    assert ThreadOk(h, t);
    forall b | b in h'.mapped
      ensures RegionOk(h', b)
    {
      assert RegionOk(h, b);
    }
    forall u | u in h'.tcbs
      ensures ThreadOk(h', u)
    {
      assert ThreadOk(h, u);
    }
    forall s | s in h'.pools
      ensures PoolOk(h', s)
    {
      assert PoolOk(h, s);
      assert forall i :: 0 <= i < |h.pools[s]| ==> EntryOk(h, s, h.pools[s][i]);
    }
    forall b | b in h'.owner
      ensures OwnerHas(h', b)
    {
      assert OwnerHas(h, b);
    }
  }

  lemma StepKeepsInv(h: Heap, s: Step)
    requires Inv(h) && Legal(h, s)
    ensures Inv(Apply(h, s))
  {
    hide Inv;
    match s
    case Alloc(t, sched, stacksize, guardsize, page, mmap, protect) =>
      if stacksize > 0 {
        if HitAt(h, s).Some? {
          FromPoolKeepsInv(h, t, sched.value, HitAt(h, s).value, Guard(s));
        } else if mmap.Some? {
          FromSystemKeepsInv(h, t, mmap.value, Need(s), Guard(s), protect);
        }
      }
    case Free(t, sched) =>
      if sched.Some? && sched.value in h.pools && |h.pools[sched.value]| < STACK_POOL_MAX {
        ToPoolKeepsInv(h, t, sched.value);
      } else {
        ToSystemKeepsInv(h, t);
      }
  }

  // Runs

  function After(h: Heap, run: seq<Step>): Heap
    decreases |run|
  {
    if run == [] then h else After(Apply(h, run[0]), run[1..])
  }

  ghost predicate LegalRun(h: Heap, run: seq<Step>)
    decreases |run|
  {
    run != [] ==> Legal(h, run[0]) && LegalRun(Apply(h, run[0]), run[1..])
  }

  /** Before any allocation: no mappings, and any number of schedulers with empty pools. */
  ghost predicate Initial(h: Heap) {
    h.mapped == map[] && h.tcbs == map[] && h.owner == map[] && forall s :: s in h.pools ==> h.pools[s] == []
  }

  lemma {:induction false} RunKeepsInv(h: Heap, run: seq<Step>)
    requires Inv(h) && LegalRun(h, run)
    ensures Inv(After(h, run))
    decreases |run|
  {
    hide Inv;
    if run != [] {
      StepKeepsInv(h, run[0]);
      RunKeepsInv(Apply(h, run[0]), run[1..]);
    }
  }

  /** Region a is thread t's stack. */
  predicate IsStackOf(h: Heap, a: int, t: Tid) {
    t in h.tcbs && h.tcbs[t].mem == a
  }

  /** Region a is entry i of the pool of s. */
  predicate IsEntry(h: Heap, a: int, s: nat, i: int) {
    s in h.pools && 0 <= i < |h.pools[s]| && h.pools[s][i].mem == a
  }

  /** After any run over any number of schedulers, every mapped region belongs to exactly one live thread or exactly one
      pool entry, whose record of its size is right. */
  lemma OneOwner(h: Heap, run: seq<Step>, a: int)
    requires Initial(h) && LegalRun(h, run)
    ensures var e := After(h, run);
            && (a in e.mapped <==> (exists t :: IsStackOf(e, a, t)) || (exists s, i :: IsEntry(e, a, s, i)))
            && (forall t, u :: IsStackOf(e, a, t) && IsStackOf(e, a, u) ==> t == u)
            && (forall s, i, r, j :: IsEntry(e, a, s, i) && IsEntry(e, a, r, j) ==> s == r && i == j)
            && (forall t, s, i :: IsStackOf(e, a, t) ==> !IsEntry(e, a, s, i))
            && (forall t :: IsStackOf(e, a, t) ==> e.mapped[a].size == e.tcbs[t].Total())
            && (forall s, i :: IsEntry(e, a, s, i) ==> e.mapped[a].size == e.pools[s][i].size)
  {
    assert Inv(h);
    RunKeepsInv(h, run);
    var e := After(h, run);
    forall t | IsStackOf(e, a, t)
      ensures a in e.mapped && e.mapped[a].size == e.tcbs[t].Total() && e.owner[a] == OfThread(t)
    {
      assert ThreadOk(e, t);
    }
    forall s, i | IsEntry(e, a, s, i)
      ensures a in e.mapped && e.mapped[a].size == e.pools[s][i].size && e.owner[a] == InPool(s)
    {
      assert PoolOk(e, s) && EntryOk(e, s, e.pools[s][i]);
    }
    forall s, i, j | IsEntry(e, a, s, i) && IsEntry(e, a, s, j)
      ensures i == j
    {
      assert PoolOk(e, s);
    }
    if a in e.mapped {
      OwnerShown(e, a);
    }
  }

  lemma OwnerShown(h: Heap, a: int)
    requires Inv(h) && a in h.mapped
    ensures (exists t :: IsStackOf(h, a, t)) || (exists s, i :: IsEntry(h, a, s, i))
  {
    assert OwnerHas(h, a);
    match h.owner[a]
    case OfThread(t) => assert IsStackOf(h, a, t);
    case InPool(s) =>
      var i :| 0 <= i < |h.pools[s]| && h.pools[s][i].mem == a;
      assert IsEntry(h, a, s, i);
  }

  /** A pool hit hands out the smallest region that is large enough. */
  lemma HitIsSmallest(h: Heap, s: Step)
    requires Inv(h) && Legal(h, s) && s.Alloc? && s.stacksize > 0 && HitAt(h, s).Some?
    ensures s.sched.Some? && s.sched.value in h.pools && s.t in Apply(h, s).tcbs
    ensures var k := Apply(h, s).tcbs[s.t];
            && k.guardsize == Guard(s) && k.stacksize >= Need(s)
            && Cached(k.mem, k.Total()) in h.pools[s.sched.value]
            && forall c :: c in h.pools[s.sched.value] && Need(s) + Guard(s) <= c.size ==> k.Total() <= c.size
  {
    var pool := h.PoolOf(s.sched);
    forall c | c in pool && Need(s) + Guard(s) <= c.size
      ensures pool[HitAt(h, s).value].size <= c.size
    {
      var j :| 0 <= j < |pool| && pool[j] == c;
      assert Fits(pool, j, Need(s) + Guard(s));
    }
  }

  // Guards

  /** The thread's guard is really protected, and nothing else of its stack is. */
  predicate Guarded(h: Heap, t: Tid) {
    t in h.tcbs && h.tcbs[t].mem in h.mapped && h.mapped[h.tcbs[t].mem].guard == h.tcbs[t].guardsize
  }

  /** The allocation that got each region from mmap, and the one that gave each thread its stack, the latest of each. */
  datatype Calls = Calls(mapping: map<int, Step>, alloc: map<Tid, Step>)

  const NO_CALLS := Calls(map[], map[])

  predicate Maps(h: Heap, s: Step) {
    s.Alloc? && s.stacksize > 0 && HitAt(h, s).None? && s.mmap.Some?
  }

  predicate Reuses(h: Heap, s: Step) {
    s.Alloc? && s.stacksize > 0 && HitAt(h, s).Some?
  }

  function Noted(h: Heap, s: Step, c: Calls): Calls {
    if Maps(h, s) then Calls(c.mapping[s.mmap.value := s], c.alloc[s.t := s])
    else if Reuses(h, s) then c.(alloc := c.alloc[s.t := s])
    else c
  }

  function CallsOf(h: Heap, run: seq<Step>, c: Calls): Calls
    decreases |run|
  {
    if run == [] then c else CallsOf(Apply(h, run[0]), run[1..], Noted(h, run[0], c))
  }

  /** What the call protected. */
  function Protects(s: Step): int
    requires s.Alloc?
  {
    if s.protect then Guard(s) else 0
  }

  ghost predicate Accounted(h: Heap, c: Calls) {
    && (forall a :: a in h.mapped ==>
          a in c.mapping && c.mapping[a].Alloc? && h.mapped[a].guard == Protects(c.mapping[a]))
    && forall t :: t in h.tcbs ==> t in c.alloc && c.alloc[t].Alloc? && h.tcbs[t].guardsize == Guard(c.alloc[t])
  }

  lemma StepAccounted(h: Heap, s: Step, c: Calls)
    requires Legal(h, s) && Accounted(h, c)
    ensures Accounted(Apply(h, s), Noted(h, s, c))
  {
    hide Best, SwapRemove, Rounded;
  }

  lemma {:induction false} RunAccounted(h: Heap, run: seq<Step>, c: Calls)
    requires LegalRun(h, run) && Accounted(h, c)
    ensures Accounted(After(h, run), CallsOf(h, run, c))
    ensures forall a :: a in CallsOf(h, run, c).mapping ==>
              CallsOf(h, run, c).mapping[a] in run || (a in c.mapping && CallsOf(h, run, c).mapping[a] == c.mapping[a])
    ensures forall t :: t in CallsOf(h, run, c).alloc ==>
              CallsOf(h, run, c).alloc[t] in run || (t in c.alloc && CallsOf(h, run, c).alloc[t] == c.alloc[t])
    decreases |run|
  {
    hide Apply, Legal, Accounted, Best;
    if run != [] {
      StepAccounted(h, run[0], c);
      RunAccounted(Apply(h, run[0]), run[1..], Noted(h, run[0], c));
      assert forall s :: s in run[1..] ==> s in run;
    }
  }

  /** A live thread has the guard it asked for exactly when the call that mapped its region, however long ago and for
      whatever thread, asked for a guard of the same size in pages and protected it; a thread that asked for none has
      none exactly when that call protected nothing. */
  lemma GuardedIff(h: Heap, run: seq<Step>, t: Tid)
    requires Initial(h) && LegalRun(h, run) && t in After(h, run).tcbs
    ensures var e, c := After(h, run), CallsOf(h, run, NO_CALLS);
            && e.tcbs[t].mem in c.mapping && t in c.alloc
            && var first, last := c.mapping[e.tcbs[t].mem], c.alloc[t];
            && first in run && last in run && first.Alloc? && last.Alloc?
            && (Guarded(e, t) <==>
                if Guard(last) > 0 then first.protect && Guard(first) == Guard(last)
                else !first.protect || Guard(first) == 0)
  {
    hide Guard;
    assert Inv(h);
    RunKeepsInv(h, run);
    assert ThreadOk(After(h, run), t);
    hide Inv;
    RunAccounted(h, run, NO_CALLS);
    var c := CallsOf(h, run, NO_CALLS);
    GuardNotNegative(c.mapping[After(h, run).tcbs[t].mem]);
    GuardNotNegative(c.alloc[t]);
  }

  lemma GuardNotNegative(s: Step)
    requires s.Alloc?
    ensures Guard(s) >= 0
  {
  }

  /** If every allocation asks for the same guard and mprotect never fails, every live thread has its guard. */
  lemma OneGuardSize(h: Heap, run: seq<Step>, g: int, t: Tid)
    requires Initial(h) && LegalRun(h, run) && t in After(h, run).tcbs
    requires forall s :: s in run && s.Alloc? ==> s.protect && Guard(s) == g
    ensures Guarded(After(h, run), t)
  {
    GuardedIff(h, run, t);
  }

  lemma ThreeSteps(h: Heap, s0: Step, s1: Step, s2: Step)
    requires Legal(h, s0) && Legal(Apply(h, s0), s1) && Legal(Apply(Apply(h, s0), s1), s2)
    ensures LegalRun(h, [s0, s1, s2]) && After(h, [s0, s1, s2]) == Apply(Apply(Apply(h, s0), s1), s2)
  {
    hide Apply, Legal;
    var h1 := Apply(h, s0);
    var h2 := Apply(h1, s1);
    assert [s0, s1, s2][1..] == [s1, s2] && [s1, s2][1..] == [s2] && [s2][1..] == [];
    assert After(h2, [s2]) == Apply(h2, s2) && LegalRun(h2, [s2]);
    assert After(h1, [s1, s2]) == Apply(h2, s2) && LegalRun(h1, [s1, s2]);
  }

  /** A guard that is asked for may be missing: the region of a thread without a guard is reused as it is. */
  lemma GuardMissing() returns (h: Heap, run: seq<Step>, t: Tid)
    ensures Initial(h) && LegalRun(h, run)
    ensures t in After(h, run).tcbs && After(h, run).tcbs[t].guardsize == 4096 && !Guarded(After(h, run), t)
  {
    h := Heap(map[], map[0 := []], map[], map[]);
    t := 2;
    var s0 := Alloc(1, Some(0), 65536, 0, 4096, Some(4096), true);
    var s1 := Free(1, Some(0));
    var s2 := Alloc(2, Some(0), 16384, 4096, 4096, None, true);
    run := [s0, s1, s2];
    var h1 := FromSystem(h, 1, 4096, 65536, 0, true);
    assert Apply(h, s0) == h1;
    var h2 := ToPool(h1, 1, 0);
    assert Apply(h1, s1) == h2;
    assert h2.pools[0] == [Cached(4096, 65536)];
    assert BestFit(h2.pools[0], 20480, 1, 0);
    BestIsUnique(h2.pools[0], 20480, 0);
    assert Apply(h2, s2) == FromPool(h2, 2, 0, 0, 4096);
    ThreeSteps(h, s0, s1, s2);
  }

  // In place

  /** The mappings, the pools and the stack fields of the TCBs. */
  class Stacks {
    var mapped: map<int, Mapping>
    var pools: map<nat, seq<Cached>>
    var tcbs: map<Tid, Stack>
    ghost var owner: map<int, Owner>

    ghost function H(): Heap
      reads this
    {
      Heap(mapped, pools, tcbs, owner)
    }

    constructor (schedulers: set<nat>)
      ensures Initial(H()) && pools.Keys == schedulers
    {
      mapped, pools, tcbs, owner := map[], map s | s in schedulers :: [], map[], map[];
    }

    method TakeCached(t: Tid, sched: nat, i: nat, guard: int)
      requires sched in pools && i < |pools[sched]|
      modifies this
      ensures H() == FromPool(old(H()), t, sched, i, guard) && t in tcbs
    {
      var c := pools[sched][i];
      pools := pools[sched := SwapRemove(pools[sched], i)];
      tcbs := tcbs[t := Stack(c.mem, c.size - guard, guard)];
      owner := owner[c.mem := OfThread(t)];
    }

    method MapFresh(t: Tid, a: int, need: int, guard: int, protect: bool)
      requires guard >= 0
      modifies this
      ensures H() == FromSystem(old(H()), t, a, need, guard, protect) && t in tcbs
    {
      mapped := mapped[a := Mapping(need + guard, if guard > 0 && protect then guard else 0)];
      tcbs := tcbs[t := Stack(a, need, guard)];
      owner := owner[a := OfThread(t)];
    }

    /** apth_tcb_alloc for a stack of the library's own. */
    method TcbAlloc(t: Tid, sched: Option<nat>, stacksize: nat, guardsize: nat, page: nat, mmap: Option<int>,
                    protect: bool)
      returns (ok: bool)
      requires Inv(H()) && Legal(H(), Alloc(t, sched, stacksize, guardsize, page, mmap, protect))
      modifies this
      ensures Inv(H()) && H() == Apply(old(H()), Alloc(t, sched, stacksize, guardsize, page, mmap, protect))
      ensures ok == (t in tcbs)
    {
      hide Inv, Best, SwapRemove, Rounded, Guard, Legal, FromPool, FromSystem;
      ghost var s := Alloc(t, sched, stacksize, guardsize, page, mmap, protect);
      GuardIs(H(), s);
      StepKeepsInv(H(), s);
      if stacksize == 0 {
        return false;
      }
      var need := if stacksize < MIN_STACK then MIN_STACK else stacksize;
      var guard, total := 0, need;
      if guardsize > 0 {
        guard := Rounded(guardsize, page);
        total := total + guard;
      }
      if sched.Some? && sched.value in pools {
        var pool := pools[sched.value];
        var best := Best(pool, total, |pool|);
        if best.Some? {
          TakeCached(t, sched.value, best.value, guard);
          return true;
        }
      }
      if mmap.None? {
        return false;
      }
      MapFresh(t, mmap.value, need, guard, protect);
      ok := true;
    }

    /** apth_tcb_free. */
    method TcbFree(t: Tid, sched: Option<nat>)
      requires Inv(H()) && t in tcbs
      modifies this
      ensures Inv(H()) && H() == Apply(old(H()), Free(t, sched))
    {
      hide Inv;
      StepKeepsInv(H(), Free(t, sched));
      var c := Cached(tcbs[t].mem, tcbs[t].stacksize + tcbs[t].guardsize);
      tcbs := tcbs - {t};
      if sched.Some? && sched.value in pools && |pools[sched.value]| < STACK_POOL_MAX {
        pools := pools[sched.value := pools[sched.value] + [c]];
        owner := owner[c.mem := InPool(sched.value)];
      } else {
        mapped := mapped - {c.mem};
        owner := owner - {c.mem};
      }
    }
  }

  lemma GuardIs(h: Heap, s: Step)
    requires s.Alloc? && Legal(h, s)
    ensures s.page > 0 && s.t !in h.tcbs && Guard(s) == if s.guardsize > 0 then Rounded(s.guardsize, s.page) else 0
    ensures Guard(s) >= 0
  {
  }

  // The first frame

  /** The registers that apth_ctx_switch_asm restores, where it returns to and the stack pointer it leaves. */
  datatype Entry = Entry(r15: int, r14: int, r13: int, r12: int, rbx: int, rbp: int, rip: int, rsp: int)

  /** Six pops and a ret from sp. */
  function Restored(cells: map<int, int>, sp: int): Option<Entry> {
    if forall k :: 0 <= k < 7 ==> sp + 8 * k in cells
    then Some(Entry(cells[sp + 8 * 0], cells[sp + 8 * 1], cells[sp + 8 * 2], cells[sp + 8 * 3], cells[sp + 8 * 4],
                    cells[sp + 8 * 5], cells[sp + 8 * 6], sp + 8 * 7))
    else None
  }

  /** Memory, by the addresses of its 8-byte words. */
  class Memory {
    var cells: map<int, int>

    constructor ()
      ensures cells == map[]
    {
      cells := map[];
    }

    /** apth_ctx_set: the first switch to sp enters func with rsp congruent to 8 modulo 16 (section 3.2.2 of the
        System V AMD64 psABI), the other registers zero and the address of abort to return to; only the frame, which
        lies inside the stack, is written. */
    method CtxSet(func: int, abort: int, start: int, stacksize: int) returns (sp: Option<int>)
      requires start >= 0
      modifies this
      ensures sp.Some? <==> start != 0 && stacksize >= 128
      ensures sp.None? ==> cells == old(cells)
      ensures sp.Some? ==>
                && start <= sp.value && start + stacksize - 16 < sp.value + 64 <= start + stacksize
                && sp.value % 16 == 0
                && Restored(cells, sp.value) == Some(Entry(0, 0, 0, 0, 0, 0, func, sp.value + 56))
                && (sp.value + 56) % 16 == 8
                && sp.value + 56 in cells && cells[sp.value + 56] == abort
                && (forall a :: a in old(cells) && !(sp.value <= a < sp.value + 64) ==>
                      a in cells && cells[a] == old(cells)[a])
                && forall a :: a in cells && a !in old(cells) ==> sp.value <= a < sp.value + 64
    {
      if start == 0 || stacksize < 128 {
        return None;
      }
      var top := start + stacksize;
      top := top - top % 16;
      cells := cells[top - 8 := abort][top - 16 := func][top - 24 := 0][top - 32 := 0][top - 40 := 0][top - 48 := 0]
               [top - 56 := 0][top - 64 := 0];
      sp := Some(top - 64);
    }
  }

  /** apth_tcb_get_usable_stack_start. */
  function UsableStart(k: Stack): int {
    k.mem + k.guardsize
  }

  /** Wherever a thread's stack came from, apth_ctx_set accepts it, and the frame it writes (of which sp is the foot)
      lies in the thread's own region, clear of its guard and of whatever part of the region is protected. */
  lemma FrameInside(h: Heap, run: seq<Step>, t: Tid, sp: int)
    requires Initial(h) && LegalRun(h, run) && t in After(h, run).tcbs
    requires var k := After(h, run).tcbs[t];
             sp % 16 == 0 && UsableStart(k) + k.stacksize - 16 < sp + 64 <= UsableStart(k) + k.stacksize
    ensures var e := After(h, run); var k := e.tcbs[t];
            && UsableStart(k) != 0 && k.stacksize >= 128 && k.mem in e.mapped
            && UsableStart(k) <= sp && k.mem + e.mapped[k.mem].guard <= sp
            && sp + 64 <= k.mem + e.mapped[k.mem].size
            && forall u :: u in e.tcbs && u != t ==> Apart(sp, 64, e.tcbs[u].mem, e.tcbs[u].Total())
  {
    assert Inv(h);
    RunKeepsInv(h, run);
    var e := After(h, run);
    var k := e.tcbs[t];
    assert ThreadOk(e, t) && RegionOk(e, k.mem);
    forall u | u in e.tcbs && u != t
      ensures Apart(sp, 64, e.tcbs[u].mem, e.tcbs[u].Total())
    {
      assert ThreadOk(e, u) && RegionOk(e, k.mem);
    }
  }

  // What an allocation and a free do

  lemma RoundedUp(guardsize: nat, page: nat)
    requires page > 0
    ensures guardsize <= Rounded(guardsize, page) < guardsize + page && Rounded(guardsize, page) % page == 0
  {
    var q := (guardsize + page - 1) / page;
    assert guardsize + page - 1 == q * page + (guardsize + page - 1) % page;
    ModIs(q * page, page, q, 0);
  }

  /** A thread gets a stack exactly if it asks for one that is not empty and the pool has a sufficient region or mmap
      gives one; it is at least as large as asked and as the minimum, with a guard of whole pages that is at least as
      large as asked; and mmap is used only if the pool has none. */
  lemma AllocExact(h: Heap, s: Step)
    requires Inv(h) && Legal(h, s) && s.Alloc?
    ensures var h' := Apply(h, s);
            && (s.t in h'.tcbs <==> s.stacksize > 0 && (HitAt(h, s).Some? || s.mmap.Some?))
            && (s.t !in h'.tcbs ==> h' == h)
            && (s.t in h'.tcbs ==>
                  && var k := h'.tcbs[s.t];
                  && h'.tcbs == h.tcbs[s.t := k]
                  && k.stacksize >= s.stacksize && k.stacksize >= MIN_STACK
                  && s.guardsize <= k.guardsize < s.guardsize + s.page && k.guardsize % s.page == 0
                  && if HitAt(h, s).Some? then h'.mapped == h.mapped
                     else k.mem == s.mmap.value && h'.mapped.Keys == h.mapped.Keys + {k.mem} && h'.pools == h.pools)
    ensures HitAt(h, s).Some? <==> exists c :: c in h.PoolOf(s.sched) && Need(s) + Guard(s) <= c.size
  {
    hide Rounded, Inv;
    RoundedUp(s.guardsize, s.page);
    var pool := h.PoolOf(s.sched);
    if c :| c in pool && Need(s) + Guard(s) <= c.size {
      var j :| 0 <= j < |pool| && pool[j] == c;
      assert Fits(pool, j, Need(s) + Guard(s));
    }
    if HitAt(h, s).Some? {
      assert Fits(pool, HitAt(h, s).value, Need(s) + Guard(s));
      assert pool[HitAt(h, s).value] in pool;
    }
  }

  /** A freed thread's whole region goes to the end of the pool of the scheduler that frees it, unless there is none
      or 64 regions are there already; then it is unmapped. Nothing else changes. */
  lemma FreeExact(h: Heap, t: Tid, sched: Option<nat>)
    requires Inv(h) && t in h.tcbs && (sched.Some? ==> sched.value in h.pools)
    ensures var h', k := Apply(h, Free(t, sched)), h.tcbs[t];
            && h'.tcbs == h.tcbs - {t}
            && if sched.Some? && |h.pools[sched.value]| < STACK_POOL_MAX then
                 && h'.mapped == h.mapped && k.mem in h.mapped
                 && h'.pools == h.pools[sched.value := h.pools[sched.value] + [Cached(k.mem, h.mapped[k.mem].size)]]
               else h'.mapped == h.mapped - {k.mem} && h'.pools == h.pools
  {
    assert ThreadOk(h, t);
    hide Inv;
  }
}
