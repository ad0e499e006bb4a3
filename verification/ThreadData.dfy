/** core/apth_data.c and internal/apth_data.c: thread-specific data in a two-level table whose entries carry the
    sequence number of the key they were stored under. */
module ThreadData {
  import opened Basics

  const KEYS_MAX := 1024
  const BLOCK := 32
  const UINTPTR_RANGE := 0x1_0000_0000_0000_0000

  /** A `struct apth_key_data`; 0 is NULL. */
  datatype Entry = Entry(sqn: nat, data: int)

  /** A `struct apth_keytab_st`; even sequence numbers mark vacant keys. */
  datatype Key = Key(sqn: nat, destr: bool)

  predicate Unused(k: Key) {
    k.sqn % 2 == 0
  }

  predicate Usable(k: Key) {
    k.sqn < (k.sqn + 2) % UINTPTR_RANGE
  }

  /** The thread's part: the first block inline, the others allocated on demand; [] is a block not allocated. */
  datatype Tsd = Tsd(first: seq<Entry>, blocks: seq<seq<Entry>>, used: bool) {
    predicate Shaped() {
      |first| == BLOCK && |blocks| == KEYS_MAX / BLOCK && forall b :: b in blocks ==> b == [] || |b| == BLOCK
    }

    predicate Has(key: nat)
      requires Shaped() && key < KEYS_MAX
    {
      key < BLOCK || blocks[key / BLOCK] != []
    }

    function At(key: nat): Entry
      requires Shaped() && key < KEYS_MAX && Has(key)
    {
      if key < BLOCK then first[key] else
        assert blocks[key / BLOCK] in blocks;
        blocks[key / BLOCK][key % BLOCK]
    }

    function Store(key: nat, e: Entry): (d: Tsd)
      requires Shaped() && key < KEYS_MAX && Has(key)
      ensures d.Shaped() && d.used == used
      ensures forall k :: 0 <= k < KEYS_MAX ==> d.Has(k) == Has(k)
      ensures forall k :: 0 <= k < KEYS_MAX && Has(k) ==> d.At(k) == if k == key then e else At(k)
    {
      if key < BLOCK then this.(first := first[key := e]) else
        assert blocks[key / BLOCK] in blocks;
        this.(blocks := blocks[key / BLOCK := blocks[key / BLOCK][key % BLOCK := e]])
    }

    /** calloc of one second-level block. */
    function Alloc(i: nat): (d: Tsd)
      requires Shaped() && 1 <= i < KEYS_MAX / BLOCK && blocks[i] == []
      ensures d.Shaped() && d.used == used
      ensures forall k :: 0 <= k < KEYS_MAX ==> d.Has(k) == (Has(k) || k / BLOCK == i)
      ensures forall k :: 0 <= k < KEYS_MAX && d.Has(k) ==> d.At(k) == if Has(k) then At(k) else Entry(0, 0)
    {
      this.(blocks := blocks[i := seq(BLOCK, _ => Entry(0, 0))])
    }

    /** The second-level blocks are given back. */
    function Freed(): (d: Tsd)
      ensures !d.used && forall b :: b in d.blocks ==> b == []
    {
      this.(blocks := seq(KEYS_MAX / BLOCK, _ => []), used := false)
    }
  }

  /** What apth_getspecific finds under a key. */
  function Visible(keys: seq<Key>, d: Tsd, key: nat): int
    requires d.Shaped() && key < KEYS_MAX && |keys| == KEYS_MAX
  {
    if d.Has(key) && d.At(key).sqn == keys[key].sqn then d.At(key).data else 0
  }

  datatype Ret = Ok | EINVAL | ENOMEM

  /** A destructor call: its pass, its key, the value handed to it, and what the thread then still sees there. */
  datatype Call = Call(pass: nat, key: nat, value: int, left: int)

  const DESTRUCTOR_ITERATIONS := 4

  /** What one thread's table stands for. `shown` is what the thread sees; `model` is what it should see, the values it
      has set since each key's latest creation; `since` is how often each key had been created or deleted when the
      thread last stored under it. */
  datatype View = View(shown: map<nat, int>, model: map<nat, int>, since: map<nat, nat>)

  function Value(m: map<nat, int>, key: nat): int {
    if key in m then m[key] else 0
  }

  function Put(m: map<nat, int>, key: nat, value: int): map<nat, int> {
    m[key := value]
  }

  /** The entry holds a value, under whatever number. */
  predicate Live(d: Tsd, key: nat) {
    d.Shaped() && key < KEYS_MAX && d.Has(key) && d.At(key).data != 0
  }

  /** Values are stored under the number of a key in use, and `used` is set if there are any. */
  ghost predicate Tagged(d: Tsd)
    requires d.Shaped()
  {
    forall k :: 0 <= k < KEYS_MAX && Live(d, k) ==> d.At(k).sqn % 2 == 1 && d.used
  }

  ghost predicate Shows(keys: seq<Key>, d: Tsd, m: map<nat, int>)
    requires d.Shaped() && |keys| == KEYS_MAX
  {
    forall k :: 0 <= k < KEYS_MAX ==> Visible(keys, d, k) == Value(m, k)
  }

  /** Every value was stored when its key had been moved `since` times, and counts if the key has not moved again. */
  ghost predicate Dated(moves: seq<nat>, d: Tsd, v: View, k: nat)
    requires d.Shaped() && k < KEYS_MAX && |moves| == KEYS_MAX
  {
    if Live(d, k) then
      && k in v.since && v.since[k] <= moves[k] && d.At(k).sqn == Wrapped(v.since[k])
      && Value(v.model, k) == if v.since[k] == moves[k] then d.At(k).data else 0
    else Value(v.model, k) == 0
  }

  function Wrapped(n: nat): nat {
    n % UINT_RANGE
  }

  ghost predicate RefinesOne(keys: seq<Key>, moves: seq<nat>, d: Tsd, v: View)
    requires |keys| == KEYS_MAX && |moves| == KEYS_MAX
  {
    && d.Shaped() && Tagged(d) && Shows(keys, d, v.shown)
    && forall k :: 0 <= k < KEYS_MAX ==> Dated(moves, d, v, k)
  }

  /** The tables stand for the views. */
  ghost predicate Refines(keys: seq<Key>, moves: seq<nat>, threads: map<Tid, Tsd>, views: map<Tid, View>) {
    && |keys| == KEYS_MAX && |moves| == KEYS_MAX
    && (forall k :: 0 <= k < KEYS_MAX ==> keys[k].sqn == Wrapped(moves[k]))
    && views.Keys == threads.Keys
    && forall t :: t in threads ==> RefinesOne(keys, moves, threads[t], views[t])
  }

  // What the thread sees and what it should see

  /** The value was stored before the key was deleted and created again, a multiple of 2^31 times. */
  ghost predicate Stale(moves: seq<nat>, d: Tsd, v: View, k: nat) {
    && k < |moves| && Live(d, k) && k in v.since && v.since[k] < moves[k]
    && Wrapped(moves[k] - v.since[k]) == 0
  }

  ghost predicate NoneStale(moves: seq<nat>, d: Tsd, v: View) {
    forall k :: 0 <= k < KEYS_MAX ==> !Stale(moves, d, v, k)
  }

  lemma WrapsTogether(a: nat, b: nat)
    requires a <= b
    ensures Wrapped(a) == Wrapped(b) <==> Wrapped(b - a) == 0
    ensures Wrapped(Wrapped(a) + 1) == Wrapped(a + 1)
    ensures Wrapped(a) % 2 == a % 2
  {
  }

  /** A thread sees what it should exactly when the value it holds is not stale. */
  lemma SeesRightIff(keys: seq<Key>, moves: seq<nat>, d: Tsd, v: View, k: nat)
    requires |keys| == KEYS_MAX && |moves| == KEYS_MAX && k < KEYS_MAX && keys[k].sqn == Wrapped(moves[k])
    requires RefinesOne(keys, moves, d, v)
    ensures Value(v.shown, k) == Value(v.model, k) <==> !Stale(moves, d, v, k)
    ensures Stale(moves, d, v, k) ==> Value(v.shown, k) == d.At(k).data && Value(v.model, k) == 0
  {
    hide Wrapped;
    assert Dated(moves, d, v, k);
    assert Visible(keys, d, k) == Value(v.shown, k);
    if Live(d, k) {
      WrapsTogether(v.since[k], moves[k]);
    }
  }

  /** Until a key has been created 2^31 times, no value under it is stale. */
  lemma FirstLap(moves: seq<nat>, d: Tsd, v: View, k: nat)
    requires k < |moves| && moves[k] < UINT_RANGE
    ensures !Stale(moves, d, v, k)
  {
  }

  /** The entry holds a value tagged with this number. */
  predicate Holds(d: Tsd, key: nat, sqn: nat) {
    Live(d, key) && d.At(key).sqn == sqn
  }

  /** In a key's first 2^31 lives: after a delete and the next create the thread has a stale value exactly when the
      number deleted is 2^32 - 1 and the thread holds a value tagged with the number that is used again. */
  lemma RecycledIff(keys: seq<Key>, moves: seq<nat>, d: Tsd, v: View, k: nat)
    requires |keys| == KEYS_MAX && |moves| == KEYS_MAX && k < KEYS_MAX && keys[k].sqn == Wrapped(moves[k])
    requires RefinesOne(keys, moves, d, v) && moves[k] < UINT_RANGE && !Unused(keys[k])
    ensures Stale(moves[k := moves[k] + 2], d, v, k) <==>
            keys[k].sqn == UINT_RANGE - 1 && Holds(d, k, Wrapped(moves[k] + 2))
  {
    assert Dated(moves, d, v, k);
  }

  // What each operation does to one thread's table

  lemma KeyMovesOn(keys: seq<Key>, moves: seq<nat>, key: nat, k': Key, d: Tsd, v: View)
    requires |keys| == KEYS_MAX && |moves| == KEYS_MAX && key < KEYS_MAX && RefinesOne(keys, moves, d, v)
    ensures RefinesOne(keys[key := k'], moves[key := moves[key] + 1], d, Moved(keys[key := k'], d, v, key))
  {
    var keys', moves', v' := keys[key := k'], moves[key := moves[key] + 1], Moved(keys[key := k'], d, v, key);
    forall k | 0 <= k < KEYS_MAX
      ensures Visible(keys', d, k) == Value(v'.shown, k)
    {
      assert Visible(keys, d, k) == Value(v.shown, k);
    }
    forall k | 0 <= k < KEYS_MAX
      ensures Dated(moves', d, v', k)
    {
      assert Dated(moves, d, v, k);
    }
  }

  /** The view once a key has been created or deleted. */
  function Moved(keys: seq<Key>, d: Tsd, v: View, key: nat): View {
    v.(shown := Put(v.shown, key, if d.Shaped() && key < KEYS_MAX == |keys| then Visible(keys, d, key) else 0),
       model := Put(v.model, key, 0))
  }

  /** Every thread should now see nothing under the key; nobody has stored anything. */
  ghost predicate Renewed(before: map<Tid, View>, after: map<Tid, View>, key: nat) {
    && after.Keys == before.Keys
    && forall t :: t in before ==> after[t].since == before[t].since && Value(after[t].model, key) == 0
  }

  /** The view once a value has been stored. */
  function Stored(v: View, key: nat, value: int, moves: nat): View {
    View(Put(v.shown, key, value), Put(v.model, key, value), v.since[key := moves])
  }

  /** The view once an entry has been cleared that was visible, or was not. */
  function Cleared(v: View, key: nat, visible: bool): View {
    if visible then v.(shown := Put(v.shown, key, 0), model := Put(v.model, key, 0)) else v
  }

  lemma StoreShows(keys: seq<Key>, moves: seq<nat>, d: Tsd, v: View, key: nat, value: int, used: bool)
    requires |keys| == KEYS_MAX && |moves| == KEYS_MAX && key < KEYS_MAX && RefinesOne(keys, moves, d, v) && d.Has(key)
    requires keys[key].sqn == Wrapped(moves[key]) && !Unused(keys[key]) && (d.used || value != 0 ==> used)
    ensures RefinesOne(keys, moves, d.Store(key, Entry(keys[key].sqn, value)).(used := used),
                       Stored(v, key, value, moves[key]))
    ensures var d' := d.Store(key, Entry(keys[key].sqn, value)).(used := used);
            value != 0 ==> Holds(d', key, keys[key].sqn) && d'.At(key).data == value
  {
    hide Wrapped;
    var d' := d.Store(key, Entry(keys[key].sqn, value)).(used := used);
    var v' := Stored(v, key, value, moves[key]);
    assert forall k :: 0 <= k < KEYS_MAX ==> d'.Has(k) == d.Has(k);
    assert forall k :: 0 <= k < KEYS_MAX && d.Has(k) && k != key ==> d'.At(k) == d.At(k);
    assert d'.At(key) == Entry(keys[key].sqn, value);
    forall k | 0 <= k < KEYS_MAX
      ensures Visible(keys, d', k) == Value(v'.shown, k)
    {
      assert Visible(keys, d, k) == Value(v.shown, k);
    }
    forall k | 0 <= k < KEYS_MAX
      ensures Dated(moves, d', v', k)
    {
      assert Dated(moves, d, v, k);
    }
  }

  lemma ClearShows(keys: seq<Key>, moves: seq<nat>, d: Tsd, v: View, key: nat)
    requires |keys| == KEYS_MAX && |moves| == KEYS_MAX && key < KEYS_MAX && RefinesOne(keys, moves, d, v) && d.Has(key)
    requires keys[key].sqn == Wrapped(moves[key])
    ensures RefinesOne(keys, moves, d.Store(key, Entry(d.At(key).sqn, 0)),
                       Cleared(v, key, d.At(key).sqn == keys[key].sqn))
  {
    hide Wrapped;
    var d' := d.Store(key, Entry(d.At(key).sqn, 0));
    var v' := Cleared(v, key, d.At(key).sqn == keys[key].sqn);
    assert forall k :: 0 <= k < KEYS_MAX ==> d'.Has(k) == d.Has(k);
    assert forall k :: 0 <= k < KEYS_MAX && d.Has(k) && k != key ==> d'.At(k) == d.At(k);
    assert d'.At(key) == Entry(d.At(key).sqn, 0);
    forall k | 0 <= k < KEYS_MAX
      ensures Visible(keys, d', k) == Value(v'.shown, k)
    {
      assert Visible(keys, d, k) == Value(v.shown, k);
    }
    forall k | 0 <= k < KEYS_MAX
      ensures Dated(moves, d', v', k)
    {
      assert Dated(moves, d, v, k);
    }
  }

  lemma AllocShows(keys: seq<Key>, moves: seq<nat>, d: Tsd, v: View, i: nat)
    requires |keys| == KEYS_MAX && |moves| == KEYS_MAX && RefinesOne(keys, moves, d, v)
    requires 1 <= i < KEYS_MAX / BLOCK && d.blocks[i] == []
    ensures RefinesOne(keys, moves, d.Alloc(i), v)
  {
    forall k | 0 <= k < KEYS_MAX
      ensures Visible(keys, d.Alloc(i), k) == Value(v.shown, k)
    {
      assert Visible(keys, d, k) == Value(v.shown, k);
    }
    forall k | 0 <= k < KEYS_MAX
      ensures Dated(moves, d.Alloc(i), v, k)
    {
      assert Dated(moves, d, v, k);
    }
  }

  // What each operation does to all of them

  lemma RefinesAt(keys: seq<Key>, moves: seq<nat>, threads: map<Tid, Tsd>, views: map<Tid, View>, t: Tid, key: nat)
    requires Refines(keys, moves, threads, views) && t in threads && key < KEYS_MAX
    ensures t in views && |keys| == |moves| == KEYS_MAX && RefinesOne(keys, moves, threads[t], views[t])
    ensures keys[key].sqn == Wrapped(moves[key]) && threads[t].Shaped()
  {
  }

  lemma RefinesAfter(keys: seq<Key>, moves: seq<nat>, threads: map<Tid, Tsd>, views: map<Tid, View>, t: Tid, d: Tsd,
                     v: View)
    requires Refines(keys, moves, threads, views) && RefinesOne(keys, moves, d, v)
    ensures Refines(keys, moves, threads[t := d], views[t := v])
  {
  }

  lemma RefinesMovedOn(keys: seq<Key>, moves: seq<nat>, threads: map<Tid, Tsd>, views: map<Tid, View>, key: nat,
                       k': Key)
    requires Refines(keys, moves, threads, views) && key < KEYS_MAX && k'.sqn == Wrapped(moves[key] + 1)
    ensures Refines(keys[key := k'], moves[key := moves[key] + 1], threads,
                    map t | t in views :: Moved(keys[key := k'], threads[t], views[t], key))
  {
    hide Wrapped, RefinesOne;
    forall t | t in threads
      ensures RefinesOne(keys[key := k'], moves[key := moves[key] + 1], threads[t],
                         Moved(keys[key := k'], threads[t], views[t], key))
    {
      KeyMovesOn(keys, moves, key, k', threads[t], views[t]);
    }
  }

  /** The global key table and the thread-specific part of every TCB. `views` is what they stand for, and `moves` counts
      the creations and deletions of each key. */
  class KeyTable {
    var keys: seq<Key>
    var threads: map<Tid, Tsd>
    ghost var moves: seq<nat>
    ghost var views: map<Tid, View>

    ghost predicate Valid()
      reads this
    {
      |keys| == |moves| == KEYS_MAX && views.Keys == threads.Keys && Refines(keys, moves, threads, views)
    }

    constructor ()
      ensures Valid() && threads == map[] && moves == seq(KEYS_MAX, _ => 0)
      ensures forall k :: 0 <= k < KEYS_MAX ==> Unused(keys[k])
    {
      keys, threads := seq(KEYS_MAX, _ => Key(0, false)), map[];
      moves, views := seq(KEYS_MAX, _ => 0), map[];
    }

    /** A new TCB, which apth_tcb_alloc has cleared. */
    method NewThread(t: Tid)
      requires Valid() && t !in threads
      modifies this`threads, this`views
      ensures Valid() && threads.Keys == old(threads.Keys) + {t} && views == old(views)[t := View(map[], map[], map[])]
      ensures forall u :: u in old(threads) ==> threads[u] == old(threads)[u]
    {
      hide Refines;
      var d := Tsd(seq(BLOCK, _ => Entry(0, 0)), seq(KEYS_MAX / BLOCK, _ => []), false);
      EmptyShows(keys, moves, threads, views, d);
      RefinesAfter(keys, moves, threads, views, t, d, View(map[], map[], map[]));
      threads := threads[t := d];
      views := views[t := View(map[], map[], map[])];
    }

    /** apth_key_create takes the first vacant key; its threads see nothing under it exactly if none of them holds a
        value tagged with the number that the key now has. */
    method KeyCreate(destr: bool) returns (r: Option<nat>)
      requires Valid()
      modifies this
      ensures Valid() && threads == old(threads)
      ensures r.Some? ==>
                && r.value < KEYS_MAX && Unused(old(keys)[r.value])
                && (forall k :: 0 <= k < r.value ==> !Unused(old(keys)[k]))
                && keys == old(keys)[r.value := Key(old(keys)[r.value].sqn + 1, destr)]
                && moves == old(moves)[r.value := old(moves)[r.value] + 1]
                && views == (map t | t in old(views) :: Moved(keys, threads[t], old(views)[t], r.value))
                && Renewed(old(views), views, r.value)
      ensures r.Some? ==>
                ((forall t :: t in threads ==> Value(views[t].shown, r.value) == 0) <==>
                 (forall t :: t in threads ==> !Holds(threads[t], r.value, old(keys)[r.value].sqn + 1)))
      ensures r.None? ==>
                && (forall k :: 0 <= k < KEYS_MAX ==> !Unused(old(keys)[k]))
                && keys == old(keys) && moves == old(moves) && views == old(views)
    {
      hide Refines, Wrapped;
      var cnt := 0;
      while cnt < KEYS_MAX
        invariant 0 <= cnt <= KEYS_MAX && keys == old(keys) && threads == old(threads)
        invariant moves == old(moves) && views == old(views)
        invariant forall k :: 0 <= k < cnt ==> !Unused(keys[k])
      {
        AlwaysUsable(keys, moves, threads, views, cnt);
        if Unused(keys[cnt]) && Usable(keys[cnt]) {
          MoveOn(cnt, Key(keys[cnt].sqn + 1, destr));
          HoldsSeen(keys, moves, threads, views, cnt);
          return Some(cnt);
        }
        cnt := cnt + 1;
      }
      r := None;
    }

    /** A key takes its next sequence number. */
    method MoveOn(key: nat, k': Key)
      requires Valid() && key < KEYS_MAX && k'.sqn == Wrapped(moves[key] + 1)
      modifies this
      ensures Valid() && threads == old(threads) && keys == old(keys)[key := k']
      ensures moves == old(moves)[key := old(moves)[key] + 1]
      ensures views == (map t | t in old(views) :: Moved(keys, threads[t], old(views)[t], key))
      ensures Renewed(old(views), views, key)
    {
      hide Refines, Wrapped;
      RefinesMovedOn(keys, moves, threads, views, key, k');
      keys := keys[key := k'];
      moves := moves[key := moves[key] + 1];
      views := map t | t in views :: Moved(keys, threads[t], views[t], key);
    }

    /** apth_key_delete computes the next sequence number in an unsigned int: 2^32 - 1 is followed by 0. No thread sees
        anything under the key afterwards. */
    method KeyDelete(key: nat) returns (ret: Ret)
      requires Valid()
      modifies this
      ensures Valid() && threads == old(threads)
      ensures ret == if key < KEYS_MAX && !Unused(old(keys)[key]) then Ok else EINVAL
      ensures ret == Ok ==>
                && keys == old(keys)[key := old(keys)[key].(sqn := (old(keys)[key].sqn + 1) % UINT_RANGE)]
                && moves == old(moves)[key := old(moves)[key] + 1]
                && views == (map t | t in old(views) :: Moved(keys, threads[t], old(views)[t], key))
                && Renewed(old(views), views, key)
                && forall t :: t in threads ==> Value(views[t].shown, key) == 0
      ensures ret != Ok ==> keys == old(keys) && moves == old(moves) && views == old(views)
    {
      hide Refines;
      if key < KEYS_MAX {
        NumberFits(keys, moves, threads, views, key);
        hide Wrapped;
        var sqn := keys[key].sqn % UINT_RANGE;
        if sqn % 2 != 0 && keys[key].sqn == sqn {
          MoveOn(key, keys[key].(sqn := (sqn + 1) % UINT_RANGE));
          GoneFromSight(keys, moves, threads, views, key);
          return Ok;
        }
      }
      ret := EINVAL;
    }

    /** apth_getspecific returns the last value that this thread set since the key's latest creation, else NULL, exactly
        if the value the thread holds is not stale; a stale value is returned as it is. */
    method GetSpecific(t: Tid, key: nat) returns (value: int)
      requires Valid() && t in threads
      modifies this`threads
      ensures Valid() && threads.Keys == old(threads.Keys)
      ensures value == if key < KEYS_MAX then Value(views[t].shown, key) else 0
      ensures key < KEYS_MAX ==>
                (value == Value(views[t].model, key) <==> !Stale(moves, old(threads)[t], views[t], key))
      ensures Stale(moves, old(threads)[t], views[t], key) ==>
                Holds(old(threads)[t], key, keys[key].sqn) && value == old(threads)[t].At(key).data
    {
      hide Refines, RefinesOne, Wrapped;
      if key >= KEYS_MAX {
        return 0;
      }
      var d := threads[t];
      ghost var v := views[t];
      RefinesAt(keys, moves, threads, views, t, key);
      SeesRightIff(keys, moves, d, v, key);
      SeenAt(keys, moves, d, v, key);
      if !d.Has(key) {
        return 0;
      }
      value := d.At(key).data;
      if value != 0 && d.At(key).sqn != keys[key].sqn {
        value := 0;
        var e := Entry(d.At(key).sqn, 0);
        ClearShows(keys, moves, d, v, key);
        RefinesAfter(keys, moves, threads, views, t, d.Store(key, e), v);
        threads := threads[t := d.Store(key, e)];
        assert views[t := v] == views;
      }
    }

    /** apth_setspecific: from now on the thread sees the value, and no other thread notices. */
    method SetSpecific(t: Tid, key: nat, value: int, outOfMemory: bool) returns (ret: Ret)
      requires Valid() && t in threads
      modifies this`threads, this`views
      ensures Valid() && Elsewhere(t, old(threads), threads) && Elsewhere(t, old(views), views)
      ensures ret == EINVAL <==> key >= KEYS_MAX || Unused(keys[key])
      ensures ret == ENOMEM <==> key < KEYS_MAX && !Unused(keys[key]) && old(threads)[t].Shaped()
                                 && !old(threads)[t].Has(key) && outOfMemory && value != 0
      ensures ret != Ok ==> views == old(views) && threads == old(threads)
      ensures ret == Ok ==>
                && Value(views[t].shown, key) == Value(views[t].model, key) == value
                && !Stale(moves, threads[t], views[t], key)
                && views[t].shown == Put(old(views)[t].shown, key, value)
                && views[t].model == Put(old(views)[t].model, key, value)
      ensures ret == Ok && value != 0 ==>
                && Holds(threads[t], key, keys[key].sqn) && threads[t].At(key).data == value
                && views[t] == Stored(old(views)[t], key, value, moves[key])
    {
      hide Refines, RefinesOne, Tsd.Shaped, Wrapped;
      if key >= KEYS_MAX || Unused(keys[key]) {
        return EINVAL;
      }
      ghost var v := views[t];
      var d := threads[t];
      RefinesAt(keys, moves, threads, views, t, key);
      var used := d.used || value != 0 || key >= BLOCK;
      if !d.Has(key) {
        if value == 0 {
          NothingThere(keys, moves, d, v, key);
          ghost var v' := v.(shown := Put(v.shown, key, 0), model := Put(v.model, key, 0));
          RefinesAfter(keys, moves, threads, views, t, d, v');
          assert threads[t := d] == threads;
          views := views[t := v'];
          return Ok;
        }
        if outOfMemory {
          return ENOMEM;
        }
        BlockMissing(d, key);
        AllocShows(keys, moves, d, v, key / BLOCK);
        d := d.Alloc(key / BLOCK);
      }
      FitsUint(moves[key]);
      StoreShows(keys, moves, d, v, key, value, used);
      d := d.Store(key, Entry(keys[key].sqn % UINT_RANGE, value)).(used := used);
      v := Stored(v, key, value, moves[key]);
      RefinesAfter(keys, moves, threads, views, t, d, v);
      threads := threads[t := d];
      views := views[t := v];
      ret := Ok;
    }

    /** The body of a destructor, as far as this table goes: it may set keys of its own thread. */
    method RunDestructor(t: Tid, sets: seq<(nat, int)>)
      requires Valid() && t in threads
      modifies this`threads, this`views
      ensures Valid() && Elsewhere(t, old(threads), threads) && Elsewhere(t, old(views), views)
      ensures sets == [] ==> threads == old(threads) && views == old(views)
    {
      hide Refines;
      for i := 0 to |sets|
        invariant Valid() && Elsewhere(t, old(threads), threads) && Elsewhere(t, old(views), views)
        invariant i == 0 ==> threads == old(threads) && views == old(views)
      {
        var ret := SetSpecific(t, sets[i].0, sets[i].1, false);
      }
    }

    /** One key of one pass: a visible value of a key with a destructor is cleared, then handed to it. */
    method DestroyKey(t: Tid, pass: nat, key: nat, sets: seq<(nat, int)>) returns (call: Option<Call>)
      requires Valid() && t in threads && key < KEYS_MAX
      modifies this`threads, this`views
      ensures Valid() && Elsewhere(t, old(threads), threads) && Elsewhere(t, old(views), views)
      ensures call.Some? <==> keys[key].destr && Value(old(views)[t].shown, key) != 0
      ensures call.Some? ==> call.value == Call(pass, key, Value(old(views)[t].shown, key), 0)
      ensures call.None? ==> threads == old(threads) && views == old(views)
      ensures call.Some? && sets == [] ==> views == old(views)[t := Cleared(old(views)[t], key, true)]
    {
      hide Refines, RefinesOne, Tsd.Shaped, Value, Wrapped;
      var d := threads[t];
      ghost var v := views[t];
      RefinesAt(keys, moves, threads, views, t, key);
      SeenAt(keys, moves, d, v, key);
      if Unused(keys[key]) || !keys[key].destr || !d.Has(key) {
        return None;
      }
      var e := d.At(key);
      if e.data == 0 || e.sqn != keys[key].sqn {
        return None;
      }
      ClearShows(keys, moves, d, v, key);
      d := d.Store(key, Entry(e.sqn, 0));
      RefinesAfter(keys, moves, threads, views, t, d, Cleared(v, key, true));
      threads := threads[t := d];
      views := views[t := Cleared(v, key, true)];
      call := Some(Call(pass, key, e.data, Visible(keys, d, key)));
      RunDestructor(t, sets);
    }

    /** One pass over all keys; `sets` gives what each destructor call will set. */
    method DestroyPass(t: Tid, pass: nat, sets: seq<seq<(nat, int)>>) returns (calls: seq<Call>)
      requires Valid() && t in threads
      modifies this`threads, this`views
      ensures Valid() && threads.Keys == old(threads.Keys)
      ensures InPass(calls, pass, KEYS_MAX)
      ensures Elsewhere(t, old(threads), threads) && Elsewhere(t, old(views), views)
      ensures Quiet(sets) ==> calls == Doomed(keys, old(views)[t].shown, pass, KEYS_MAX)
      ensures Quiet(sets) ==> Swept(keys, old(views)[t].shown, views[t].shown, KEYS_MAX)
      ensures calls == [] ==> NothingLeft(keys, views[t].shown, KEYS_MAX)
    {
      hide Refines, Doomed, InPass, Swept, Value, Quiet, NothingLeft;
      calls := [];
      PassBegins(keys, views[t].shown, pass);
      for key := 0 to KEYS_MAX
        invariant Valid() && threads.Keys == old(threads.Keys)
        invariant InPass(calls, pass, key)
        invariant Elsewhere(t, old(threads), threads) && Elsewhere(t, old(views), views)
        invariant Quiet(sets) ==> calls == Doomed(keys, old(views)[t].shown, pass, key)
        invariant Quiet(sets) ==> Swept(keys, old(views)[t].shown, views[t].shown, key)
        invariant calls == [] ==> NothingLeft(keys, views[t].shown, key)
      {
        ghost var m := views[t].shown;
        var stores := if |calls| < |sets| then sets[|calls|] else [];
        var call := DestroyKey(t, pass, key, stores);
        CallInPass(calls, pass, key, call);
        if Quiet(sets) {
          assert stores == [] by {
            QuietMeans(sets, |calls|);
          }
          SweptOne(keys, old(views)[t].shown, m, views[t].shown, pass, key, call);
        }
        if call.Some? {
          calls := calls + [call.value];
        } else if calls == [] {
          NothingLeftAt(keys, m, key);
        }
      }
    }

    /** The passes, at most four, until one finds nothing. */
    method DestroyPasses(t: Tid, sets: nat -> seq<seq<(nat, int)>>) returns (calls: seq<Call>)
      requires Valid() && t in threads
      modifies this`threads, this`views
      ensures Valid() && Elsewhere(t, old(threads), threads) && Elsewhere(t, old(views), views)
      ensures InPasses(calls, DESTRUCTOR_ITERATIONS)
      ensures (forall p :: Quiet(sets(p))) ==> calls == Doomed(keys, old(views)[t].shown, 0, KEYS_MAX)
      ensures CalledBelow(calls, DESTRUCTOR_ITERATIONS) || NothingLeft(keys, views[t].shown, KEYS_MAX)
    {
      hide Refines, Doomed, InPass, InPasses, Swept, NothingLeft, Quiet, CalledBelow;
      ghost var quiet := forall p :: Quiet(sets(p));
      calls := [];
      var pass := 0;
      PassesBegin();
      while pass < DESTRUCTOR_ITERATIONS
        invariant 0 <= pass <= DESTRUCTOR_ITERATIONS
        invariant Valid() && Elsewhere(t, old(threads), threads) && Elsewhere(t, old(views), views)
        invariant InPasses(calls, pass)
        invariant pass == 0 ==> calls == [] && views[t].shown == old(views)[t].shown
        invariant quiet && pass > 0 ==> calls == Doomed(keys, old(views)[t].shown, 0, KEYS_MAX)
        invariant quiet && pass > 0 ==> NothingLeft(keys, views[t].shown, KEYS_MAX)
        invariant CalledBelow(calls, pass)
      {
        ghost var m := views[t].shown;
        var found := DestroyPass(t, pass, sets(pass));
        PassAdds(calls, found, pass);
        CalledMore(calls, found, pass);
        if quiet {
          PassSweeps(keys, m, views[t].shown, pass);
        }
        calls := calls + found;
        if found == [] {
          PassesSoFar(calls, pass + 1);
          return;
        }
        pass := pass + 1;
      }
    }

    /** apth_key_destroydata, after which the thread's table is done with: at most four passes, each value cleared
        before its destructor runs, every second-level block freed; if no destructor sets anything, each visible value
        of a key with a destructor is destroyed exactly once. Unless each of four passes made a call, no such value is
        left in the table when its blocks are freed. */
    method DestroyData(t: Tid, sets: nat -> seq<seq<(nat, int)>>)
      returns (calls: seq<Call>, ghost left: Tsd, last: Tsd)
      requires Valid() && t in threads
      modifies this`threads, this`views
      ensures Valid() && threads == old(threads) - {t} && views == old(views) - {t}
      ensures !last.used && last == if old(threads)[t].used then left.Freed() else left
      ensures CalledBelow(calls, DESTRUCTOR_ITERATIONS) || NothingVisible(keys, left)
      ensures InPasses(calls, DESTRUCTOR_ITERATIONS)
      ensures (forall p :: Quiet(sets(p))) ==> calls == Doomed(keys, old(views)[t].shown, 0, KEYS_MAX)
      ensures (forall p :: Quiet(sets(p))) && NoneStale(moves, old(threads)[t], old(views)[t]) ==>
                calls == Doomed(keys, old(views)[t].model, 0, KEYS_MAX)
    {
      hide Refines, Doomed, InPasses, Quiet, Elsewhere, Tsd.Freed, NoneStale, CalledBelow, NothingLeft, NothingVisible;
      NothingToDestroy(keys, moves, threads, views, t);
      if NoneStale(moves, threads[t], views[t]) {
        DoomedRight(keys, moves, threads, views, t);
      }
      PassesBegin();
      PassesSoFar([], 0);
      calls := [];
      last := threads[t];
      if last.used {
        calls := DestroyPasses(t, sets);
        ElsewhereWithout(t, old(threads), threads);
        ElsewhereWithout(t, old(views), views);
        last := threads[t].Freed();
      }
      left := threads[t];
      NothingLeftIs(keys, moves, threads, views, t);
      Drop(t);
    }

    /** The TCB is about to be freed. */
    method Drop(t: Tid)
      requires Valid()
      modifies this`threads, this`views
      ensures Valid() && threads == old(threads) - {t} && views == old(views) - {t}
    {
      hide Refines;
      RefinesWithout(keys, moves, threads, views, t);
      threads := threads - {t};
      views := views - {t};
    }
  }

  /** Key 0 is deleted and created again. */
  method NextLife(table: KeyTable)
    requires table.Valid() && !Unused(table.keys[0])
    modifies table
    ensures table.Valid() && !Unused(table.keys[0]) && table.threads == old(table.threads)
    ensures table.moves[0] == old(table.moves[0]) + 2
    ensures Renewed(old(table.views), table.views, 0)
  {
    hide Refines, Tsd.Shaped, Wrapped, Holds, Moved, Value, Renewed;
    var r := table.KeyDelete(0);
    assert Unused(table.keys[0]);
    ghost var between := table.views;
    var k := table.KeyCreate(false);
    RenewedTwice(old(table.views), between, table.views, 0);
  }

  lemma RenewedTwice(a: map<Tid, View>, b: map<Tid, View>, c: map<Tid, View>, key: nat)
    requires Renewed(a, b, key) && Renewed(b, c, key)
    ensures Renewed(a, c, key)
  {
  }

  method ManyLives(table: KeyTable)
    requires table.Valid() && !Unused(table.keys[0])
    modifies table
    ensures table.Valid() && table.threads == old(table.threads) && Renewed(old(table.views), table.views, 0)
    ensures table.moves[0] == old(table.moves[0]) + UINT_RANGE
  {
    hide Refines, Value;
    NextLife(table);
    for i := 1 to UINT_RANGE / 2
      invariant table.Valid() && !Unused(table.keys[0]) && table.moves[0] == old(table.moves[0]) + 2 * i
      invariant table.threads == old(table.threads) && Renewed(old(table.views), table.views, 0)
    {
      NextLife(table);
    }
  }

  /** Thread 0 has set v under key 0, which is in its first life. */
  method FirstValue(v: int) returns (table: KeyTable)
    requires v != 0
    ensures fresh(table) && table.Valid() && table.moves[0] == 1 && !Unused(table.keys[0]) && 0 in table.threads
    ensures Live(table.threads[0], 0) && table.threads[0].At(0).data == v
    ensures 0 in table.views[0].since && table.views[0].since[0] == 1
  {
    hide Refines, Tsd.Shaped, Wrapped, Moved, Renewed;
    table := new KeyTable();
    table.NewThread(0);
    var k := table.KeyCreate(false);
    var r := table.SetSpecific(0, 0, v, false);
  }

  /** The wrap can be reached: a thread that set a value in a key's first life sees it again 2^31 lives later, when it
      has set nothing since the key's creation. */
  method StaleValue(v: int) returns (seen: int, ghost expected: int)
    requires v != 0
    ensures seen == v && expected == 0
  {
    hide Refines, Tsd.Shaped, Wrapped, Value;
    var table := FirstValue(v);
    ManyLives(table);
    expected := Value(table.views[0].model, 0);
    Laps();
    seen := table.GetSpecific(0, 0);
  }

  lemma Laps()
    ensures Wrapped(UINT_RANGE) == 0
  {
  }

  /** Only t's own part may have changed. */
  ghost predicate Elsewhere<T(!new)>(t: Tid, before: map<Tid, T>, after: map<Tid, T>) {
    after.Keys == before.Keys && forall u :: u in before && u != t ==> after[u] == before[u]
  }

  lemma ElsewhereWithout<T(!new)>(t: Tid, before: map<Tid, T>, after: map<Tid, T>)
    requires Elsewhere(t, before, after) || before == after
    ensures after - {t} == before - {t} && after.Keys == before.Keys
  {
  }

  /** No destructor call of the pass sets anything. */
  ghost predicate Quiet(sets: seq<seq<(nat, int)>>) {
    forall x :: x in sets ==> x == []
  }

  lemma QuietMeans(sets: seq<seq<(nat, int)>>, i: nat)
    requires Quiet(sets)
    ensures i < |sets| ==> sets[i] == []
  {
    if i < |sets| {
      assert sets[i] in sets;
    }
  }

  /** The values below n with a destructor are gone, the others are as they were. */
  ghost predicate Swept(keys: seq<Key>, m0: map<nat, int>, m: map<nat, int>, n: nat)
    requires |keys| == KEYS_MAX
  {
    forall k :: 0 <= k < KEYS_MAX ==> Value(m, k) == if k < n && keys[k].destr then 0 else Value(m0, k)
  }

  /** No key below n has a destructor and a value. */
  ghost predicate NothingLeft(keys: seq<Key>, m: map<nat, int>, n: nat)
    requires n <= |keys|
  {
    forall k :: 0 <= k < n ==> !keys[k].destr || Value(m, k) == 0
  }

  lemma NothingLeftAt(keys: seq<Key>, m: map<nat, int>, key: nat)
    requires key < |keys| && NothingLeft(keys, m, key) && !(keys[key].destr && Value(m, key) != 0)
    ensures NothingLeft(keys, m, key + 1)
  {
  }

  lemma PassBegins(keys: seq<Key>, m: map<nat, int>, pass: nat)
    requires |keys| == KEYS_MAX
    ensures Swept(keys, m, m, 0) && Doomed(keys, m, pass, 0) == [] && InPass([], pass, 0) && NothingLeft(keys, m, 0)
  {
  }

  lemma CallInPass(calls: seq<Call>, pass: nat, key: nat, call: Option<Call>)
    requires InPass(calls, pass, key) && key < KEYS_MAX
    requires call.Some? ==>
               && call.value.pass == pass && call.value.key == key
               && call.value.value != 0 && call.value.left == 0
    ensures InPass(calls + if call.Some? then [call.value] else [], pass, key + 1)
    ensures InPass(calls, pass, key + 1)
  {
    var all := calls + if call.Some? then [call.value] else [];
    forall i, j | 0 <= i < j < |all|
      ensures all[i].key < all[j].key
    {
      assert all[i] in calls;
    }
  }

  lemma SweptOne(keys: seq<Key>, m0: map<nat, int>, m: map<nat, int>, m': map<nat, int>, pass: nat, key: nat,
                 call: Option<Call>)
    requires |keys| == KEYS_MAX && key < KEYS_MAX && Swept(keys, m0, m, key)
    requires call.Some? <==> keys[key].destr && Value(m, key) != 0
    requires call.Some? ==> call.value == Call(pass, key, Value(m, key), 0) && m' == Put(m, key, 0)
    requires call.None? ==> m' == m
    ensures Swept(keys, m0, m', key + 1)
    ensures Doomed(keys, m0, pass, key + 1) == Doomed(keys, m0, pass, key) + if call.Some? then [call.value] else []
  {
    assert Value(m, key) == Value(m0, key);
    forall k | 0 <= k < KEYS_MAX
      ensures Value(m', k) == if k < key + 1 && keys[k].destr then 0 else Value(m0, k)
    {
      assert Value(m, k) == if k < key && keys[k].destr then 0 else Value(m0, k);
    }
  }

  lemma PassSweeps(keys: seq<Key>, m: map<nat, int>, m': map<nat, int>, pass: nat)
    requires |keys| == KEYS_MAX && Swept(keys, m, m', KEYS_MAX)
    ensures NothingLeft(keys, m', KEYS_MAX)
    ensures NothingLeft(keys, m, KEYS_MAX) ==> Doomed(keys, m, pass, KEYS_MAX) == []
  {
    if NothingLeft(keys, m, KEYS_MAX) {
      NothingDoomed(keys, m, pass, KEYS_MAX);
    }
  }

  lemma NothingToDestroy(keys: seq<Key>, moves: seq<nat>, threads: map<Tid, Tsd>, views: map<Tid, View>, t: Tid)
    requires Refines(keys, moves, threads, views) && t in threads
    ensures t in views && |keys| == KEYS_MAX
    ensures !threads[t].used ==>
              Doomed(keys, views[t].shown, 0, KEYS_MAX) == [] && NothingLeft(keys, views[t].shown, KEYS_MAX)
  {
    assert RefinesOne(keys, moves, threads[t], views[t]);
    if !threads[t].used {
      forall k | 0 <= k < KEYS_MAX
        ensures Value(views[t].shown, k) == 0
      {
        assert Visible(keys, threads[t], k) == Value(views[t].shown, k);
      }
      NothingDoomed(keys, views[t].shown, 0, KEYS_MAX);
    }
  }

  /** The thread sees no value of a key with a destructor. */
  ghost predicate NothingVisible(keys: seq<Key>, d: Tsd) {
    |keys| == KEYS_MAX && d.Shaped() && forall k :: 0 <= k < KEYS_MAX && keys[k].destr ==> Visible(keys, d, k) == 0
  }

  lemma NothingLeftIs(keys: seq<Key>, moves: seq<nat>, threads: map<Tid, Tsd>, views: map<Tid, View>, t: Tid)
    requires Refines(keys, moves, threads, views) && t in threads
    ensures t in views && |keys| == KEYS_MAX
    ensures NothingLeft(keys, views[t].shown, KEYS_MAX) ==> NothingVisible(keys, threads[t])
  {
    assert RefinesOne(keys, moves, threads[t], views[t]);
  }

  /** Without stale values, what is destroyed is what the thread should see. */
  lemma DoomedRight(keys: seq<Key>, moves: seq<nat>, threads: map<Tid, Tsd>, views: map<Tid, View>, t: Tid)
    requires Refines(keys, moves, threads, views) && t in threads && NoneStale(moves, threads[t], views[t])
    ensures Doomed(keys, views[t].shown, 0, KEYS_MAX) == Doomed(keys, views[t].model, 0, KEYS_MAX)
  {
    forall k | 0 <= k < KEYS_MAX
      ensures Value(views[t].shown, k) == Value(views[t].model, k)
    {
      SeesRightIff(keys, moves, threads[t], views[t], k);
    }
    DoomedSame(keys, views[t].shown, views[t].model, 0, KEYS_MAX);
  }

  lemma {:induction false} DoomedSame(keys: seq<Key>, m: map<nat, int>, m': map<nat, int>, pass: nat, n: nat)
    requires n <= |keys| && forall k :: 0 <= k < n ==> Value(m, k) == Value(m', k)
    ensures Doomed(keys, m, pass, n) == Doomed(keys, m', pass, n)
  {
    if n > 0 {
      DoomedSame(keys, m, m', pass, n - 1);
    }
  }

  lemma RefinesWithout(keys: seq<Key>, moves: seq<nat>, threads: map<Tid, Tsd>, views: map<Tid, View>, t: Tid)
    requires Refines(keys, moves, threads, views)
    ensures Refines(keys, moves, threads - {t}, views - {t})
  {
  }

  lemma PassesBegin()
    ensures InPasses([], 0) && CalledBelow([], 0)
  {
  }

  /** Each of the first n passes made a call. */
  ghost predicate CalledBelow(calls: seq<Call>, n: nat) {
    forall p :: 0 <= p < n ==> CalledIn(calls, p)
  }

  ghost predicate CalledIn(calls: seq<Call>, pass: nat) {
    exists c :: c in calls && c.pass == pass
  }

  lemma CalledMore(calls: seq<Call>, found: seq<Call>, pass: nat)
    requires CalledBelow(calls, pass) && InPass(found, pass, KEYS_MAX)
    ensures found != [] ==> CalledBelow(calls + found, pass + 1)
  {
    forall p | 0 <= p < pass + 1 && found != []
      ensures CalledIn(calls + found, p)
    {
      if p < pass {
        assert CalledIn(calls, p);
        var c :| c in calls && c.pass == p;
        assert c in calls + found;
      } else {
        assert found[0] in found && found[0] in calls + found;
      }
    }
  }

  lemma PassesSoFar(calls: seq<Call>, pass: nat)
    requires InPasses(calls, pass) && pass <= DESTRUCTOR_ITERATIONS
    ensures InPasses(calls, DESTRUCTOR_ITERATIONS)
  {
  }

  /** The calls that one pass makes when destructors set nothing: the visible values of the keys below n that have a
      destructor, in key order. */
  ghost function Doomed(keys: seq<Key>, m: map<nat, int>, pass: nat, n: nat): seq<Call>
    requires n <= |keys|
  {
    if n == 0 then []
    else Doomed(keys, m, pass, n - 1)
         + if keys[n - 1].destr && Value(m, n - 1) != 0 then [Call(pass, n - 1, Value(m, n - 1), 0)] else []
  }

  lemma {:induction false} NothingDoomed(keys: seq<Key>, m: map<nat, int>, pass: nat, n: nat)
    requires n <= |keys| && forall k :: 0 <= k < n ==> !keys[k].destr || Value(m, k) == 0
    ensures Doomed(keys, m, pass, n) == []
  {
    if n > 0 {
      NothingDoomed(keys, m, pass, n - 1);
    }
  }

  ghost predicate Proper(c: Call) {
    c.key < KEYS_MAX && c.value != 0 && c.left == 0
  }

  ghost predicate InPass(calls: seq<Call>, pass: nat, n: nat) {
    && (forall c :: c in calls ==> Proper(c) && c.pass == pass && c.key < n)
    && forall i, j :: 0 <= i < j < |calls| ==> calls[i].key < calls[j].key
  }

  ghost predicate InPasses(calls: seq<Call>, pass: nat) {
    && (forall c :: c in calls ==> Proper(c) && c.pass < pass)
    && forall i, j :: 0 <= i < j < |calls| ==>
         calls[i].pass < calls[j].pass || (calls[i].pass == calls[j].pass && calls[i].key < calls[j].key)
  }

  lemma PassAdds(calls: seq<Call>, found: seq<Call>, pass: nat)
    requires InPasses(calls, pass) && InPass(found, pass, KEYS_MAX)
    ensures InPasses(calls + found, pass + 1)
  {
    var all := calls + found;
    forall i, j | 0 <= i < j < |all|
      ensures all[i].pass < all[j].pass || (all[i].pass == all[j].pass && all[i].key < all[j].key)
    {
      assert i < |calls| ==> all[i] in calls;
      assert j >= |calls| ==> all[j] in found;
    }
  }

  lemma SeenAt(keys: seq<Key>, moves: seq<nat>, d: Tsd, v: View, key: nat)
    requires |keys| == KEYS_MAX && |moves| == KEYS_MAX && key < KEYS_MAX && RefinesOne(keys, moves, d, v)
    ensures Value(v.shown, key) == if d.Has(key) && d.At(key).sqn == keys[key].sqn then d.At(key).data else 0
    ensures Value(v.shown, key) != 0 ==> !Unused(keys[key]) && Holds(d, key, keys[key].sqn)
  {
    assert Visible(keys, d, key) == Value(v.shown, key);
  }

  lemma NothingThere(keys: seq<Key>, moves: seq<nat>, d: Tsd, v: View, key: nat)
    requires |keys| == KEYS_MAX && |moves| == KEYS_MAX && RefinesOne(keys, moves, d, v) && key < KEYS_MAX && !d.Has(key)
    ensures RefinesOne(keys, moves, d, v.(shown := Put(v.shown, key, 0), model := Put(v.model, key, 0)))
    ensures !Live(d, key)
  {
    var v' := v.(shown := Put(v.shown, key, 0), model := Put(v.model, key, 0));
    assert forall k :: 0 <= k < KEYS_MAX ==> Visible(keys, d, k) == Value(v.shown, k);
    forall k | 0 <= k < KEYS_MAX
      ensures Dated(moves, d, v', k)
    {
      assert Dated(moves, d, v, k);
    }
  }

  lemma BlockMissing(d: Tsd, key: nat)
    requires d.Shaped() && key < KEYS_MAX && !d.Has(key)
    ensures 1 <= key / BLOCK < KEYS_MAX / BLOCK && |d.blocks| == KEYS_MAX / BLOCK && d.blocks[key / BLOCK] == []
  {
  }

  lemma FitsUint(n: nat)
    ensures Wrapped(n) % UINT_RANGE == Wrapped(n) < UINT_RANGE && Wrapped(n) % 2 == n % 2
  {
  }

  lemma EmptyShows(keys: seq<Key>, moves: seq<nat>, threads: map<Tid, Tsd>, views: map<Tid, View>, d: Tsd)
    requires Refines(keys, moves, threads, views)
    requires d == Tsd(seq(BLOCK, _ => Entry(0, 0)), seq(KEYS_MAX / BLOCK, _ => []), false)
    ensures RefinesOne(keys, moves, d, View(map[], map[], map[]))
  {
  }

  /** The number of a vacant key stays far from the end of its type. */
  lemma AlwaysUsable(keys: seq<Key>, moves: seq<nat>, threads: map<Tid, Tsd>, views: map<Tid, View>, key: nat)
    requires Refines(keys, moves, threads, views) && key < KEYS_MAX
    ensures |keys| == |moves| == KEYS_MAX && Usable(keys[key])
    ensures Unused(keys[key]) ==> keys[key].sqn + 1 == Wrapped(moves[key] + 1)
  {
  }

  lemma NumberFits(keys: seq<Key>, moves: seq<nat>, threads: map<Tid, Tsd>, views: map<Tid, View>, key: nat)
    requires Refines(keys, moves, threads, views) && key < KEYS_MAX
    ensures |keys| == |moves| == KEYS_MAX && keys[key].sqn % UINT_RANGE == keys[key].sqn
    ensures (keys[key].sqn + 1) % UINT_RANGE == Wrapped(moves[key] + 1)
    ensures !Unused(keys[key]) ==> (keys[key].sqn + 1) % UINT_RANGE % 2 == 0
  {
    WrapsTogether(moves[key], moves[key]);
  }

  lemma HoldsSeen(keys: seq<Key>, moves: seq<nat>, threads: map<Tid, Tsd>, views: map<Tid, View>, key: nat)
    requires Refines(keys, moves, threads, views) && key < KEYS_MAX
    ensures forall t :: t in threads ==> (Value(views[t].shown, key) != 0 <==> Holds(threads[t], key, keys[key].sqn))
  {
    forall t | t in threads
      ensures Value(views[t].shown, key) != 0 <==> Holds(threads[t], key, keys[key].sqn)
    {
      SeenAt(keys, moves, threads[t], views[t], key);
    }
  }

  lemma GoneFromSight(keys: seq<Key>, moves: seq<nat>, threads: map<Tid, Tsd>, views: map<Tid, View>, key: nat)
    requires Refines(keys, moves, threads, views) && key < KEYS_MAX && Unused(keys[key])
    ensures forall t :: t in threads ==> Value(views[t].shown, key) == 0
  {
    forall t | t in threads
      ensures Value(views[t].shown, key) == 0
    {
      SeenAt(keys, moves, threads[t], views[t], key);
    }
  }

  /** The calls of a pass in which destructors set nothing: one for each visible value of a key with a destructor, in
      the order of the keys. */
  lemma {:induction false} DoomedExact(keys: seq<Key>, m: map<nat, int>, pass: nat, n: nat)
    requires n <= |keys|
    ensures forall c :: c in Doomed(keys, m, pass, n) <==>
              c.key < n && keys[c.key].destr && Value(m, c.key) != 0 && c == Call(pass, c.key, Value(m, c.key), 0)
    ensures forall i, j :: 0 <= i < j < |Doomed(keys, m, pass, n)| ==>
              Doomed(keys, m, pass, n)[i].key < Doomed(keys, m, pass, n)[j].key
  {
    if n > 0 {
      DoomedExact(keys, m, pass, n - 1);
      var before := Doomed(keys, m, pass, n - 1);
      assert forall i :: 0 <= i < |before| ==> before[i] in before;
    }
  }
}
