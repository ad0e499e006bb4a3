/** internal/apth_fd.c and hook_lowlevel_io/select_poll.c: fd_set operations a word at a time, against their bit-by-bit
    twins. */
module FdSets {
  import opened Basics

  const NFDBITS := 64
  const FD_SETSIZE := 1024

  /** An `__fd_mask`, bit 0 first. */
  type Word = w: seq<bool> | |w| == NFDBITS witness seq(NFDBITS, _ => false)

  /** The words of an `fd_set`. */
  type FdSet = f: seq<Word> | |f| * NFDBITS == FD_SETSIZE
    witness seq(FD_SETSIZE / NFDBITS, _ => seq(NFDBITS, _ => false))

  // The C operators

  function Or(v: Word, w: Word): Word {
    seq(NFDBITS, i requires 0 <= i < NFDBITS => v[i] || w[i])
  }

  function And(v: Word, w: Word): Word {
    seq(NFDBITS, i requires 0 <= i < NFDBITS => v[i] && w[i])
  }

  function Not(w: Word): Word {
    seq(NFDBITS, i requires 0 <= i < NFDBITS => !w[i])
  }

  /** The number of set bits among the lowest b. */
  function Ones(w: Word, b: nat): nat
    requires b <= NFDBITS
  {
    if b == 0 then 0 else Ones(w, b - 1) + if w[b - 1] then 1 else 0
  }

  function PopCount(w: Word): nat {
    Ones(w, NFDBITS)
  }

  predicate NonZero(w: Word) {
    exists b :: 0 <= b < NFDBITS && w[b]
  }

  /** FD_ISSET. */
  predicate IsSet(s: int, f: seq<Word>)
    requires 0 <= s < |f| * NFDBITS
  {
    f[s / NFDBITS][s % NFDBITS]
  }

  /** FDS_NWORDS. */
  function NWords(nfd: int): int {
    (nfd + NFDBITS - 1) / NFDBITS
  }

  /** The members below n. */
  function Count(f: seq<Word>, n: int): nat
    requires 0 <= n <= |f| * NFDBITS
  {
    if n == 0 then 0 else Count(f, n - 1) + if IsSet(n - 1, f) then 1 else 0
  }

  lemma {:induction false} CountWord(f: seq<Word>, i: nat, b: nat)
    requires i < |f| && b <= NFDBITS
    ensures Count(f, i * NFDBITS + b) == Count(f, i * NFDBITS) + Ones(f[i], b)
  {
    if b > 0 {
      CountWord(f, i, b - 1);
    }
  }

  lemma {:induction false} CountSame(f: seq<Word>, g: seq<Word>, n: int)
    requires |f| == |g| && 0 <= n <= |f| * NFDBITS && forall s :: 0 <= s < n ==> IsSet(s, f) == IsSet(s, g)
    ensures Count(f, n) == Count(g, n)
  {
    if n > 0 {
      CountSame(f, g, n - 1);
    }
  }

  lemma {:induction false} CountGrows(f: seq<Word>, m: int, n: int)
    requires 0 <= m <= n <= |f| * NFDBITS
    ensures Count(f, m) <= Count(f, n)
    ensures Count(f, m) == Count(f, n) <==> forall s :: m <= s < n ==> !IsSet(s, f)
    decreases n - m
  {
    if m < n {
      CountGrows(f, m, n - 1);
    }
  }

  // One pair of sets, a word at a time and a bit at a time

  /** The set bits of g below n, the others of f: what a merge that covers n bits leaves in f. */
  ghost predicate Merged(f: seq<Word>, g: seq<Word>, n: int, r: seq<Word>) {
    && |f| == |g| == |r|
    && forall s :: 0 <= s < |f| * NFDBITS ==> IsSet(s, r) == (IsSet(s, f) || (s < n && IsSet(s, g)))
  }

  ghost predicate Selected(f: seq<Word>, g: seq<Word>, n: int, r: seq<Word>) {
    && |f| == |g| == |r|
    && forall s :: 0 <= s < |f| * NFDBITS ==> IsSet(s, r) == (IsSet(s, f) && (s < n ==> IsSet(s, g)))
  }

  ghost predicate Common(f: seq<Word>, g: seq<Word>, n: int)
    requires |f| == |g|
  {
    exists s :: 0 <= s < n && s < |f| * NFDBITS && IsSet(s, f) && IsSet(s, g)
  }

  method MergeWords(nfd: int, ifds: array<Word>, ofds: array<Word>)
    requires ifds.Length * NFDBITS == ofds.Length * NFDBITS == FD_SETSIZE && 0 <= nfd <= FD_SETSIZE && ifds != ofds
    modifies ofds
    ensures Merged(old(ofds[..]), ifds[..], NWords(nfd) * NFDBITS, ofds[..])
  {
    for i := 0 to NWords(nfd)
      invariant forall k :: 0 <= k < i ==> ofds[k] == Or(old(ofds[k]), ifds[k])
      invariant forall k :: i <= k < ofds.Length ==> ofds[k] == old(ofds[k])
    {
      ofds[i] := Or(ofds[i], ifds[i]);
    }
  }

  method MergeBits(nfd: int, ifds: array<Word>, ofds: array<Word>)
    requires ifds.Length * NFDBITS == ofds.Length * NFDBITS == FD_SETSIZE && 0 <= nfd <= FD_SETSIZE && ifds != ofds
    modifies ofds
    ensures Merged(old(ofds[..]), ifds[..], nfd, ofds[..])
  {
    for s := 0 to nfd
      invariant Merged(old(ofds[..]), ifds[..], s, ofds[..])
    {
      if IsSet(s, ifds[..]) {
        Assign(s, ofds, true);
      }
    }
  }

  /** FD_SET and FD_CLR. */
  method Assign(s: int, fds: array<Word>, on: bool)
    requires 0 <= s < fds.Length * NFDBITS
    modifies fds
    ensures forall t :: 0 <= t < fds.Length * NFDBITS ==>
              IsSet(t, fds[..]) == if t == s then on else IsSet(t, old(fds[..]))
  {
    fds[s / NFDBITS] := fds[s / NFDBITS][s % NFDBITS := on];
  }

  method TestWords(nfd: int, ifds: array<Word>, ofds: array<Word>) returns (found: bool)
    requires ifds.Length * NFDBITS == ofds.Length * NFDBITS == FD_SETSIZE && 0 <= nfd <= FD_SETSIZE
    ensures found == Common(ifds[..], ofds[..], NWords(nfd) * NFDBITS)
  {
    for i := 0 to NWords(nfd)
      invariant !Common(ifds[..], ofds[..], i * NFDBITS)
    {
      if NonZero(And(ifds[i], ofds[i])) {
        ghost var b :| 0 <= b < NFDBITS && And(ifds[i], ofds[i])[b];
        assert IsSet(i * NFDBITS + b, ifds[..]) && IsSet(i * NFDBITS + b, ofds[..]);
        return true;
      }
      assert forall b :: 0 <= b < NFDBITS ==> !And(ifds[i], ofds[i])[b];
      forall s | i * NFDBITS <= s < (i + 1) * NFDBITS
        ensures !(IsSet(s, ifds[..]) && IsSet(s, ofds[..]))
      {
        assert s / NFDBITS == i && !And(ifds[i], ofds[i])[s % NFDBITS];
      }
    }
    found := false;
  }

  method TestBits(nfd: int, ifds: array<Word>, ofds: array<Word>) returns (found: bool)
    requires ifds.Length * NFDBITS == ofds.Length * NFDBITS == FD_SETSIZE && 0 <= nfd <= FD_SETSIZE
    ensures found == Common(ifds[..], ofds[..], nfd)
  {
    for s := 0 to nfd
      invariant !Common(ifds[..], ofds[..], s)
    {
      if IsSet(s, ifds[..]) && IsSet(s, ofds[..]) {
        return true;
      }
    }
    found := false;
  }

  method SelectWords(nfd: int, ifds: array<Word>, ofds: array<Word>) returns (n: nat)
    requires ifds.Length * NFDBITS == ofds.Length * NFDBITS == FD_SETSIZE && 0 <= nfd <= FD_SETSIZE && ifds != ofds
    modifies ifds
    ensures Selected(old(ifds[..]), ofds[..], NWords(nfd) * NFDBITS, ifds[..])
    ensures n == Count(ifds[..], NWords(nfd) * NFDBITS)
  {
    n := 0;
    for i := 0 to NWords(nfd)
      invariant forall k :: 0 <= k < i ==> ifds[k] == And(old(ifds[k]), ofds[k])
      invariant forall k :: i <= k < ifds.Length ==> ifds[k] == old(ifds[k])
      invariant n == Count(ifds[..], i * NFDBITS)
    {
      ghost var before := ifds[..];
      var kept := And(ifds[i], ofds[i]);
      var cleared := And(ifds[i], Not(kept));
      ifds[i] := And(ifds[i], Not(cleared));
      assert ifds[i] == kept;
      n := n + PopCount(kept);
      CountSame(before, ifds[..], i * NFDBITS);
      CountWord(ifds[..], i, NFDBITS);
    }
  }

  method SelectBits(nfd: int, ifds: array<Word>, ofds: array<Word>) returns (n: nat)
    requires ifds.Length * NFDBITS == ofds.Length * NFDBITS == FD_SETSIZE && 0 <= nfd <= FD_SETSIZE && ifds != ofds
    modifies ifds
    ensures Selected(old(ifds[..]), ofds[..], nfd, ifds[..])
    ensures n == Count(ifds[..], nfd)
  {
    n := 0;
    for s := 0 to nfd
      invariant Selected(old(ifds[..]), ofds[..], s, ifds[..])
      invariant n == Count(ifds[..], s)
    {
      ghost var before := ifds[..];
      if IsSet(s, ifds[..]) {
        if !IsSet(s, ofds[..]) {
          Assign(s, ifds, false);
        } else {
          n := n + 1;
        }
      }
      CountSame(before, ifds[..], s);
    }
  }

  // The three pairs that the functions take

  ghost predicate Pair(i: array?<Word>, o: array?<Word>) {
    i != null ==> o != null && i != o && i.Length * NFDBITS == o.Length * NFDBITS == FD_SETSIZE
  }

  /** No set of the pair is a set of the other pair. */
  ghost predicate Unrelated(i: array?<Word>, o: array?<Word>, j: array?<Word>, p: array?<Word>) {
    i != null && j != null ==> i != j && i != p && o != j && o != p
  }

  /** apth_util_fds_merge. */
  method FdsMerge(nfd: int, i1: array?<Word>, o1: array?<Word>, i2: array?<Word>, o2: array?<Word>,
                  i3: array?<Word>, o3: array?<Word>)
    requires 0 <= nfd <= FD_SETSIZE && Pair(i1, o1) && Pair(i2, o2) && Pair(i3, o3)
    requires Unrelated(i1, o1, i2, o2) && Unrelated(i1, o1, i3, o3) && Unrelated(i2, o2, i3, o3)
    modifies if i1 != null then {o1} else {}, if i2 != null then {o2} else {}, if i3 != null then {o3} else {}
    ensures i1 != null ==> Merged(old(o1[..]), i1[..], NWords(nfd) * NFDBITS, o1[..])
    ensures i2 != null ==> Merged(old(o2[..]), i2[..], NWords(nfd) * NFDBITS, o2[..])
    ensures i3 != null ==> Merged(old(o3[..]), i3[..], NWords(nfd) * NFDBITS, o3[..])
  {
    hide Merged;
    if i1 != null {
      MergeWords(nfd, i1, o1);
    }
    if i2 != null {
      MergeWords(nfd, i2, o2);
    }
    if i3 != null {
      MergeWords(nfd, i3, o3);
    }
  }

  /** apth_util_fds_test. */
  method FdsTest(nfd: int, i1: array?<Word>, o1: array?<Word>, i2: array?<Word>, o2: array?<Word>,
                 i3: array?<Word>, o3: array?<Word>)
    returns (found: bool)
    requires 0 <= nfd <= FD_SETSIZE && Pair(i1, o1) && Pair(i2, o2) && Pair(i3, o3)
    ensures found <==>
              || (i1 != null && Common(i1[..], o1[..], NWords(nfd) * NFDBITS))
              || (i2 != null && Common(i2[..], o2[..], NWords(nfd) * NFDBITS))
              || (i3 != null && Common(i3[..], o3[..], NWords(nfd) * NFDBITS))
  {
    hide Common;
    found := false;
    if i1 != null {
      found := TestWords(nfd, i1, o1);
    }
    if !found && i2 != null {
      found := TestWords(nfd, i2, o2);
    }
    if !found && i3 != null {
      found := TestWords(nfd, i3, o3);
    }
  }

  /** apth_util_fds_select. */
  method FdsSelect(nfd: int, i1: array?<Word>, o1: array?<Word>, i2: array?<Word>, o2: array?<Word>,
                   i3: array?<Word>, o3: array?<Word>)
    returns (n: nat)
    requires 0 <= nfd <= FD_SETSIZE && Pair(i1, o1) && Pair(i2, o2) && Pair(i3, o3)
    requires Unrelated(i1, o1, i2, o2) && Unrelated(i1, o1, i3, o3) && Unrelated(i2, o2, i3, o3)
    modifies if i1 != null then {i1} else {}, if i2 != null then {i2} else {}, if i3 != null then {i3} else {}
    ensures i1 != null ==> Selected(old(i1[..]), o1[..], NWords(nfd) * NFDBITS, i1[..])
    ensures i2 != null ==> Selected(old(i2[..]), o2[..], NWords(nfd) * NFDBITS, i2[..])
    ensures i3 != null ==> Selected(old(i3[..]), o3[..], NWords(nfd) * NFDBITS, i3[..])
    ensures n == (if i1 != null then Count(i1[..], NWords(nfd) * NFDBITS) else 0)
               + (if i2 != null then Count(i2[..], NWords(nfd) * NFDBITS) else 0)
               + (if i3 != null then Count(i3[..], NWords(nfd) * NFDBITS) else 0)
  {
    hide Selected, Count;
    n := 0;
    if i1 != null {
      n := SelectWords(nfd, i1, o1);
    }
    if i2 != null {
      var m := SelectWords(nfd, i2, o2);
      n := n + m;
    }
    if i3 != null {
      var m := SelectWords(nfd, i3, o3);
      n := n + m;
    }
  }

  // When the two forms agree

  lemma SameBits(f: seq<Word>, g: seq<Word>)
    requires |f| == |g| && forall s :: 0 <= s < |f| * NFDBITS ==> IsSet(s, f) == IsSet(s, g)
    ensures f == g
  {
    forall i | 0 <= i < |f|
      ensures f[i] == g[i]
    {
      forall b | 0 <= b < NFDBITS
        ensures f[i][b] == g[i][b]
      {
        assert IsSet(i * NFDBITS + b, f) == IsSet(i * NFDBITS + b, g);
      }
    }
  }

  /** The bits that only the word form looks at. */
  predicate Beyond(nfd: int, s: int) {
    nfd <= s < NWords(nfd) * NFDBITS
  }

  /** The word-wise merge leaves the set that the bit-wise merge leaves exactly when it adds no bit at or above nfd; in
      particular when the input has none. */
  lemma MergeAgreesIff(f: FdSet, g: FdSet, nfd: int, byWord: FdSet, byBit: FdSet)
    requires 0 <= nfd <= FD_SETSIZE && Merged(f, g, NWords(nfd) * NFDBITS, byWord) && Merged(f, g, nfd, byBit)
    ensures byWord == byBit <==> forall s :: Beyond(nfd, s) ==> IsSet(s, g) ==> IsSet(s, f)
  {
    if forall s :: Beyond(nfd, s) ==> IsSet(s, g) ==> IsSet(s, f) {
      forall s | 0 <= s < FD_SETSIZE
        ensures IsSet(s, byWord) == IsSet(s, byBit)
      {
        assert nfd <= s < NWords(nfd) * NFDBITS ==> Beyond(nfd, s);
      }
      SameBits(byWord, byBit);
    }
  }

  lemma TestAgreesIff(f: FdSet, g: FdSet, nfd: int)
    requires 0 <= nfd <= FD_SETSIZE
    ensures Common(f, g, NWords(nfd) * NFDBITS) == Common(f, g, nfd) <==>
            (Common(f, g, nfd) || forall s :: Beyond(nfd, s) ==> !(IsSet(s, f) && IsSet(s, g)))
  {
    assert forall s :: nfd <= s < NWords(nfd) * NFDBITS ==> Beyond(nfd, s);
  }

  /** The two select forms leave the same set and return the same count exactly when the input has no bit at or above
      nfd in its last word. */
  lemma SelectAgreesIff(f: FdSet, g: FdSet, nfd: int, byWord: FdSet, byBit: FdSet)
    requires 0 <= nfd <= FD_SETSIZE && Selected(f, g, NWords(nfd) * NFDBITS, byWord) && Selected(f, g, nfd, byBit)
    ensures byWord == byBit && Count(byWord, NWords(nfd) * NFDBITS) == Count(byBit, nfd) <==>
            forall s :: Beyond(nfd, s) ==> !IsSet(s, f)
  {
    CountGrows(byWord, nfd, NWords(nfd) * NFDBITS);
    if forall s :: Beyond(nfd, s) ==> !IsSet(s, f) {
      forall s | 0 <= s < FD_SETSIZE
        ensures IsSet(s, byWord) == IsSet(s, byBit)
      {
        assert nfd <= s < NWords(nfd) * NFDBITS ==> Beyond(nfd, s);
      }
      SameBits(byWord, byBit);
      assert forall s :: nfd <= s < NWords(nfd) * NFDBITS ==> Beyond(nfd, s);
    } else if byWord == byBit {
      var s :| Beyond(nfd, s) && IsSet(s, f);
      assert IsSet(s, byWord);
    }
  }

  const NONE: FdSet := seq(FD_SETSIZE / NFDBITS, _ => seq(NFDBITS, _ => false))

  const FIVE: FdSet := NONE[0 := NONE[0][5 := true]]

  lemma FiveHas(s: int)
    requires 0 <= s < FD_SETSIZE
    ensures IsSet(s, FIVE) <==> s == 5
    ensures !IsSet(s, NONE)
  {
  }

  /** With nfd = 1 and a member 5, the word form of a merge adds it, that of a test finds it, and that of a select
      clears it, or counts it; the bit forms do none of this. */
  lemma WordFormsDiffer()
    ensures Merged(NONE, FIVE, NWords(1) * NFDBITS, FIVE) && Merged(NONE, FIVE, 1, NONE) && FIVE != NONE
    ensures Common(FIVE, FIVE, NWords(1) * NFDBITS) && !Common(FIVE, FIVE, 1)
    ensures Selected(FIVE, NONE, NWords(1) * NFDBITS, NONE) && Selected(FIVE, NONE, 1, FIVE)
    ensures Selected(FIVE, FIVE, NWords(1) * NFDBITS, FIVE) && Selected(FIVE, FIVE, 1, FIVE)
    ensures Count(FIVE, 1) < Count(FIVE, NWords(1) * NFDBITS)
  {
    forall s | 0 <= s < FD_SETSIZE
      ensures (IsSet(s, FIVE) <==> s == 5) && !IsSet(s, NONE)
    {
      FiveHas(s);
    }
    assert IsSet(5, FIVE);
    CountGrows(FIVE, 1, NWords(1) * NFDBITS);
  }

  // Decomposition into events

  datatype Want = Readable | Writeable | Exceptional

  datatype FdEvent = FdEvent(fd: int, want: Want)

  predicate In(s: int, f: Option<FdSet>)
    requires 0 <= s < FD_SETSIZE
  {
    f.Some? && IsSet(s, f.value)
  }

  /** The members of the sets below n, one event for each. */
  function Events(r: Option<FdSet>, w: Option<FdSet>, e: Option<FdSet>, n: int): seq<FdEvent>
    requires 0 <= n <= FD_SETSIZE
  {
    if n == 0 then [] else Events(r, w, e, n - 1) + EventsAt(r, w, e, n - 1)
  }

  function EventsAt(r: Option<FdSet>, w: Option<FdSet>, e: Option<FdSet>, s: int): seq<FdEvent>
    requires 0 <= s < FD_SETSIZE
  {
    Only(In(s, r), FdEvent(s, Readable))
    + Only(In(s, w), FdEvent(s, Writeable))
    + Only(In(s, e), FdEvent(s, Exceptional))
  }

  function Only(on: bool, x: FdEvent): seq<FdEvent> {
    if on then [x] else []
  }

  function Wanted(r: Option<FdSet>, w: Option<FdSet>, e: Option<FdSet>, want: Want): Option<FdSet> {
    match want
    case Readable => r
    case Writeable => w
    case Exceptional => e
  }

  lemma EventsAtExact(r: Option<FdSet>, w: Option<FdSet>, e: Option<FdSet>, s: int)
    requires 0 <= s < FD_SETSIZE
    ensures forall x :: x in EventsAt(r, w, e, s) <==> x.fd == s && In(s, Wanted(r, w, e, x.want))
    ensures NoRepeats(EventsAt(r, w, e, s))
  {
    var a := Only(In(s, r), FdEvent(s, Readable));
    var b := Only(In(s, w), FdEvent(s, Writeable));
    var c := Only(In(s, e), FdEvent(s, Exceptional));
    NoRepeatsBoth(a, b);
    NoRepeatsBoth(a + b, c);
    forall x
      ensures x in EventsAt(r, w, e, s) <==> x in a || x in b || x in c
    {
    }
  }

  /** There is exactly one event for each member below n of each set. */
  lemma {:induction false} EventsExact(r: Option<FdSet>, w: Option<FdSet>, e: Option<FdSet>, n: int)
    requires 0 <= n <= FD_SETSIZE
    ensures forall x :: x in Events(r, w, e, n) <==> 0 <= x.fd < n && In(x.fd, Wanted(r, w, e, x.want))
    ensures NoRepeats(Events(r, w, e, n))
  {
    hide EventsAt, In, Wanted;
    if n > 0 {
      EventsExact(r, w, e, n - 1);
      EventsAtExact(r, w, e, n - 1);
      NoRepeatsBoth(Events(r, w, e, n - 1), EventsAt(r, w, e, n - 1));
    }
  }

  function CountIn(f: Option<FdSet>, n: int): nat
    requires 0 <= n <= FD_SETSIZE
  {
    if f.None? then 0 else Count(f.value, n)
  }

  function OneIf(b: bool): nat {
    if b then 1 else 0
  }

  lemma CountInMore(f: Option<FdSet>, s: int)
    requires 0 <= s < FD_SETSIZE
    ensures CountIn(f, s + 1) == CountIn(f, s) + OneIf(In(s, f))
  {
  }

  lemma CountInNone(f: Option<FdSet>)
    ensures CountIn(f, 0) == 0
  {
  }

  lemma EventsAtCounted(r: Option<FdSet>, w: Option<FdSet>, e: Option<FdSet>, s: int)
    requires 0 <= s < FD_SETSIZE
    ensures |EventsAt(r, w, e, s)| == OneIf(In(s, r)) + OneIf(In(s, w)) + OneIf(In(s, e))
  {
  }

  lemma {:induction false} EventsCounted(r: Option<FdSet>, w: Option<FdSet>, e: Option<FdSet>, n: int)
    requires 0 <= n <= FD_SETSIZE
    ensures |Events(r, w, e, n)| == CountIn(r, n) + CountIn(w, n) + CountIn(e, n)
  {
    hide EventsAt, In, CountIn;
    if n > 0 {
      EventsCounted(r, w, e, n - 1);
      CountInMore(r, n - 1);
      CountInMore(w, n - 1);
      CountInMore(e, n - 1);
      EventsAtCounted(r, w, e, n - 1);
    } else {
      CountInNone(r);
      CountInNone(w);
      CountInNone(e);
    }
  }

  lemma {:induction false} EventsExtend(r: Option<FdSet>, w: Option<FdSet>, e: Option<FdSet>, m: int, n: int)
    requires 0 <= m <= n <= FD_SETSIZE
    ensures Events(r, w, e, m) <= Events(r, w, e, n)
    decreases n - m
  {
    hide EventsAt;
    if m < n {
      EventsExtend(r, w, e, m, n - 1);
    }
  }

  function WordCount(f: Option<FdSet>, i: int): nat
    requires 0 <= i < FD_SETSIZE / NFDBITS
  {
    if f.Some? then PopCount(f.value[i]) else 0
  }

  lemma CountInWord(f: Option<FdSet>, i: int)
    requires 0 <= i < FD_SETSIZE / NFDBITS
    ensures CountIn(f, (i + 1) * NFDBITS) == CountIn(f, i * NFDBITS) + WordCount(f, i)
  {
    if f.Some? {
      CountWord(f.value, i, NFDBITS);
    }
  }

  /** select_count_fds counts whole words, so it may count too many but never too few. */
  method CountFds(nfd: int, r: Option<FdSet>, w: Option<FdSet>, e: Option<FdSet>) returns (count: nat)
    requires 0 <= nfd <= FD_SETSIZE
    ensures count == |Events(r, w, e, NWords(nfd) * NFDBITS)|
  {
    count := 0;
    for i := 0 to NWords(nfd)
      invariant count == CountIn(r, i * NFDBITS) + CountIn(w, i * NFDBITS) + CountIn(e, i * NFDBITS)
    {
      CountInWord(r, i);
      CountInWord(w, i);
      CountInWord(e, i);
      count := count + WordCount(r, i) + WordCount(w, i) + WordCount(e, i);
    }
    EventsCounted(r, w, e, NWords(nfd) * NFDBITS);
  }

  /** As much of a sequence as there is room for. */
  function Fitting(xs: seq<FdEvent>, max: nat): seq<FdEvent> {
    if |xs| <= max then xs else xs[..max]
  }

  /** Stores one more event if it is wanted and there is room. */
  method Emit(evs: array<FdEvent>, idx: nat, max: nat, on: bool, x: FdEvent, ghost so: seq<FdEvent>) returns (idx': nat)
    requires idx <= max <= evs.Length && evs[..idx] == Fitting(so, max)
    modifies evs
    ensures idx <= idx' <= max && evs[..idx'] == Fitting(so + Only(on, x), max)
    ensures forall k :: idx' <= k < evs.Length ==> evs[k] == old(evs[k])
  {
    idx' := idx;
    if on && idx < max {
      evs[idx] := x;
      idx' := idx + 1;
    }
  }

  /** The events of fd s. */
  method EmitAt(evs: array<FdEvent>, start: nat, max: nat, r: Option<FdSet>, w: Option<FdSet>, e: Option<FdSet>, s: int)
    returns (idx: nat)
    requires start <= max <= evs.Length && 0 <= s < FD_SETSIZE && evs[..start] == Fitting(Events(r, w, e, s), max)
    modifies evs
    ensures start <= idx <= max && evs[..idx] == Fitting(Events(r, w, e, s + 1), max)
    ensures forall k :: idx <= k < evs.Length ==> evs[k] == old(evs[k])
  {
    hide In, Fitting, Only;
    ghost var so := Events(r, w, e, s);
    idx := Emit(evs, start, max, In(s, r), FdEvent(s, Readable), so);
    so := so + Only(In(s, r), FdEvent(s, Readable));
    idx := Emit(evs, idx, max, In(s, w), FdEvent(s, Writeable), so);
    so := so + Only(In(s, w), FdEvent(s, Writeable));
    idx := Emit(evs, idx, max, In(s, e), FdEvent(s, Exceptional), so);
    so := so + Only(In(s, e), FdEvent(s, Exceptional));
    assert so == Events(r, w, e, s + 1);
  }

  lemma FittingAll(xs: seq<FdEvent>, max: nat)
    requires |xs| <= max
    ensures Fitting(xs, max) == xs
  {
  }

  lemma FittingNone(max: nat)
    ensures Fitting([], max) == []
  {
  }

  /** A full array stays full. */
  lemma FittingFull(xs: seq<FdEvent>, ys: seq<FdEvent>, max: nat)
    requires xs <= ys && (|Fitting(xs, max)| == max || xs == ys)
    ensures Fitting(xs, max) == Fitting(ys, max)
  {
  }

  /** select_decompose_events fills evs with the first events, as many as it may. */
  method DecomposeEvents(nfd: int, r: Option<FdSet>, w: Option<FdSet>, e: Option<FdSet>, evs: array<FdEvent>, max: int)
    returns (idx: nat)
    requires 0 <= nfd <= FD_SETSIZE && 0 <= max <= evs.Length
    modifies evs
    ensures idx <= max && evs[..idx] == Fitting(Events(r, w, e, nfd), max)
    ensures forall k :: idx <= k < evs.Length ==> evs[k] == old(evs[k])
  {
    hide In, EventsAt, Fitting;
    FittingNone(max);
    idx := 0;
    var s := 0;
    while s < nfd && idx < max
      invariant 0 <= s <= nfd && idx <= max
      invariant evs[..idx] == Fitting(Events(r, w, e, s), max)
      invariant forall k :: idx <= k < evs.Length ==> evs[k] == old(evs[k])
    {
      idx := EmitAt(evs, idx, max, r, w, e, s);
      s := s + 1;
    }
    EventsExtend(r, w, e, s, nfd);
    FittingFull(Events(r, w, e, s), Events(r, w, e, nfd), max);
  }

  const SELECT_DECOMPOSE_MAX := 128

  /** How select() uses the two: the decomposition is never truncated. */
  method SelectEvents(nfd: int, r: Option<FdSet>, w: Option<FdSet>, e: Option<FdSet>)
    returns (found: Option<seq<FdEvent>>)
    requires 0 <= nfd <= FD_SETSIZE
    ensures found.Some? ==> found.value == Events(r, w, e, nfd)
    ensures found.Some? <==> 0 < |Events(r, w, e, NWords(nfd) * NFDBITS)| <= SELECT_DECOMPOSE_MAX
  {
    hide Events, Fitting;
    var count := CountFds(nfd, r, w, e);
    if 0 < count <= SELECT_DECOMPOSE_MAX {
      var evs := new FdEvent[count](_ => FdEvent(0, Readable));
      var n := DecomposeEvents(nfd, r, w, e, evs, count);
      EventsExtend(r, w, e, nfd, NWords(nfd) * NFDBITS);
      FittingAll(Events(r, w, e, nfd), count);
      found := Some(evs[..n]);
    } else {
      found := None;
    }
  }
}
