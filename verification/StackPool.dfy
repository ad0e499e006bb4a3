/** internal/apth_tcb.c and internal/apth_ctx.c: who owns which stack, and what a fresh stack holds. */
module StackPool {
  import opened Basics

  const STACK_POOL_MAX := 64
  const MIN_STACK := 16384
  const SIZE_MAX := 0xffff_ffff_ffff_ffff

  /** An entry of `stack_pool`. */
  datatype Cached = Cached(mem: int, size: int)

  // Best fit

  predicate Fits(pool: seq<Cached>, i: nat, total: int) {
    i < |pool| && total <= pool[i].size
  }

  /** Among the first n entries, i is sufficient, none is smaller, and none before it is as small. */
  ghost predicate BestFit(pool: seq<Cached>, total: int, n: nat, i: nat) {
    && Fits(pool, i, total)
    && (forall j :: 0 <= j < n && Fits(pool, j, total) ==> pool[i].size <= pool[j].size)
    && forall j :: 0 <= j < i && Fits(pool, j, total) ==> pool[i].size < pool[j].size
  }

  /** The entry that the search finds among the first n. */
  function Best(pool: seq<Cached>, total: int, n: nat): (r: Option<nat>)
    requires n <= |pool|
    ensures r.Some? ==> r.value < n && BestFit(pool, total, n, r.value)
    ensures r.None? <==> forall j :: 0 <= j < n ==> !Fits(pool, j, total)
  {
    if n == 0 then None else
      var r := Best(pool, total, n - 1);
      if Fits(pool, n - 1, total) && (r.None? || pool[n - 1].size < pool[r.value].size) then Some(n - 1) else r
  }

  lemma BestIsUnique(pool: seq<Cached>, total: int, i: nat)
    requires BestFit(pool, total, |pool|, i)
    ensures Best(pool, total, |pool|) == Some(i)
  {
    var r := Best(pool, total, |pool|);
    assert Fits(pool, i, total);
    assert r.Some? && BestFit(pool, total, |pool|, r.value);
  }

  /** The last entry takes the place of entry i. */
  function SwapRemove(pool: seq<Cached>, i: nat): (r: seq<Cached>)
    requires i < |pool|
    ensures multiset(r) == multiset(pool) - multiset{pool[i]}
  {
    var last := |pool| - 1;
    assert pool == pool[..last] + [pool[last]];
    assert i < last ==> pool[..last] == pool[..i] + [pool[i]] + pool[i + 1..last];
    assert i < last ==> pool[..last][i := pool[last]] == pool[..i] + [pool[last]] + pool[i + 1..last];
    if i < last then pool[..last][i := pool[last]] else pool[..last]
  }

  /** A scheduler's `stack_pool` and `stack_pool_count`. */
  class Pool {
    var entries: array<Cached>
    var count: nat

    ghost predicate Valid()
      reads this, entries
    {
      && entries.Length == STACK_POOL_MAX && count <= STACK_POOL_MAX
      && forall i :: 0 <= i < count ==> entries[i].size < SIZE_MAX
    }

    ghost function Contents(): seq<Cached>
      reads this, entries
      requires Valid()
    {
      entries[..count]
    }

    constructor ()
      ensures Valid() && fresh(entries) && Contents() == []
    {
      entries := new Cached[STACK_POOL_MAX](_ => Cached(0, 0));
      count := 0;
    }

    /** The search of stack_pool_get, which stops early at an exact fit. */
    method FindBest(total: int) returns (best: int)
      requires Valid()
      ensures -1 <= best < count
      ensures Best(Contents(), total, count) == if best == -1 then None else Some(best)
    {
      best := -1;
      var bestSize := SIZE_MAX;
      ghost var pool := Contents();
      for i := 0 to count
        invariant -1 <= best < i
        invariant best == -1 ==> bestSize == SIZE_MAX && forall j :: 0 <= j < i ==> !Fits(pool, j, total)
        invariant best != -1 ==> bestSize == pool[best].size && BestFit(pool, total, i, best)
      {
        var sz := entries[i].size;
        assert pool[i] == entries[i];
        if total <= sz < bestSize {
          assert forall j :: 0 <= j < i && Fits(pool, j, total) ==> sz < pool[j].size;
          best := i;
          bestSize := sz;
          if sz == total {
            assert BestFit(pool, total, count, i);
            break;
          }
        }
      }
      if best != -1 {
        BestIsUnique(pool, total, best);
      }
    }

    /** stack_pool_get: the smallest sufficient entry is taken out, if there is one. */
    method Get(total: int) returns (hit: Option<Cached>)
      requires Valid()
      modifies this`count, entries
      ensures Valid()
      ensures var was := old(Contents());
              match Best(was, total, |was|)
              case None => hit.None? && Contents() == was
              case Some(i) => hit == Some(was[i]) && Contents() == SwapRemove(was, i)
    {
      var best := FindBest(total);
      if best < 0 {
        return None;
      }
      ghost var was := entries[..count];
      hit := Some(entries[best]);
      count := count - 1;
      if best < count {
        entries[best] := entries[count];
      }
      assert entries[..count] == SwapRemove(was, best);
    }

    /** stack_pool_put: cached unless the pool is full, in which case the caller unmaps. */
    method Put(c: Cached) returns (kept: bool)
      requires Valid() && c.size < SIZE_MAX
      modifies this`count, entries
      ensures Valid() && kept == (|old(Contents())| < STACK_POOL_MAX)
      ensures Contents() == if kept then old(Contents()) + [c] else old(Contents())
    {
      if count >= STACK_POOL_MAX {
        return false;
      }
      entries[count] := c;
      count := count + 1;
      kept := true;
    }
  }
}
