/** hook_libc/hook_lowlevel_io/scatter_gather_io.c: writing an iovec array through a kernel that may take any part of
    it. */
module ScatterGather {

  const UIO_MAXIOV := 1024
  const TIOV_STACK_SIZE := 32

  /** A `struct iovec`: len bytes at address base. */
  datatype Iov = Iov(base: int, len: nat)

  /** The caller's memory. */
  type Memory = int -> int

  ghost function Bytes(mem: Memory, v: Iov): seq<int> {
    seq(v.len, i => mem(v.base + i))
  }

  /** The bytes an iovec array denotes. */
  ghost function Denote(mem: Memory, vs: seq<Iov>): seq<int> {
    if vs == [] then [] else Bytes(mem, vs[0]) + Denote(mem, vs[1..])
  }

  /** `*liov`: not set yet, the caller's own array, or a position in the scratch copy. */
  datatype Cursor = Unset | Real | Scratch(pos: nat)

  predicate CursorOk(c: Cursor, liovcnt: nat, riovcnt: nat) {
    match c
    case Unset => liovcnt == 0
    case Real => liovcnt == riovcnt
    case Scratch(pos) => pos + liovcnt == riovcnt
  }

  /** The iovecs the next kernel call will be given. */
  ghost function View(c: Cursor, liovcnt: nat, riov: seq<Iov>, tiov: seq<Iov>): seq<Iov>
    requires CursorOk(c, liovcnt, |riov|) && |riov| <= |tiov|
  {
    match c
    case Unset => riov
    case Real => riov
    case Scratch(pos) => tiov[pos..pos + liovcnt]
  }

  /** apth_writev_iov_bytes. */
  method IovBytes(iov: array<Iov>, iovcnt: nat, ghost mem: Memory) returns (bytes: nat)
    requires iovcnt <= iov.Length
    ensures bytes == |Denote(mem, iov[..iovcnt])|
  {
    bytes := 0;
    for i := 0 to iovcnt
      invariant bytes == |Denote(mem, iov[..i])|
    {
      DenoteSnoc(mem, iov[..i], iov[i]);
      assert iov[..i] + [iov[i]] == iov[..i + 1];
      if iov[i].len <= 0 {
        continue;
      }
      bytes := bytes + iov[i].len;
    }
  }

  lemma {:induction false} DenoteConcat(mem: Memory, s: seq<Iov>, t: seq<Iov>)
    ensures Denote(mem, s + t) == Denote(mem, s) + Denote(mem, t)
  {
    hide Bytes;
    if s == [] {
      assert s + t == t;
    } else {
      DenoteConcat(mem, s[1..], t);
      assert (s + t)[1..] == s[1..] + t && (s + t)[0] == s[0];
      Associates(Bytes(mem, s[0]), Denote(mem, s[1..]), Denote(mem, t));
    }
  }

  lemma Associates<T>(a: seq<T>, b: seq<T>, c: seq<T>)
    ensures (a + b) + c == a + (b + c)
  {
  }

  lemma DenoteSnoc(mem: Memory, s: seq<Iov>, v: Iov)
    ensures Denote(mem, s + [v]) == Denote(mem, s) + Bytes(mem, v)
  {
    DenoteConcat(mem, s, [v]);
    assert Denote(mem, [v]) == Bytes(mem, v);
  }

  lemma AdvanceInside(mem: Memory, v: Iov, rest: seq<Iov>, k: nat)
    requires k < v.len
    ensures k <= |Denote(mem, [v] + rest)|
    ensures Denote(mem, [Iov(v.base + k, v.len - k)] + rest) == Denote(mem, [v] + rest)[k..]
  {
    var v' := Iov(v.base + k, v.len - k);
    assert Bytes(mem, v') == Bytes(mem, v)[k..];
    assert ([v] + rest)[1..] == rest && ([v'] + rest)[1..] == rest;
  }

  lemma AdvancePast(mem: Memory, v: Iov, rest: seq<Iov>, k: nat)
    requires v.len <= k <= |Denote(mem, [v] + rest)|
    ensures k - v.len <= |Denote(mem, rest)|
    ensures Denote(mem, rest)[k - v.len..] == Denote(mem, [v] + rest)[k..]
  {
    assert ([v] + rest)[1..] == rest;
  }

  /** The first `left` bytes of what vs denotes are all that separates it from `goal`. */
  ghost predicate Leads(mem: Memory, vs: seq<Iov>, left: nat, goal: seq<int>) {
    left <= |Denote(mem, vs)| && Denote(mem, vs)[left..] == goal
  }

  /** The copy of the caller's iovecs into the scratch array. */
  method CopyIovs(riov: array<Iov>, riovcnt: nat, tiov: array<Iov>)
    requires riov != tiov && riovcnt <= riov.Length && riovcnt <= tiov.Length
    modifies tiov
    ensures tiov[..riovcnt] == riov[..riovcnt]
  {
    for i := 0 to riovcnt
      invariant tiov[..i] == riov[..i]
    {
      tiov[i] := riov[i];
    }
  }

  /** The loop that advances the virtual pointer within the scratch array. */
  method AdvanceScratch(tiov: array<Iov>, riovcnt: nat, first: nat, advance: nat, ghost mem: Memory) returns (pos: nat)
    requires first <= riovcnt <= tiov.Length && advance <= |Denote(mem, tiov[first..riovcnt])|
    modifies tiov
    ensures first <= pos <= riovcnt
    ensures Denote(mem, tiov[pos..riovcnt]) == old(Denote(mem, tiov[first..riovcnt]))[advance..]
  {
    ghost var goal := Denote(mem, tiov[first..riovcnt])[advance..];
    pos := first;
    var left: nat := advance;
    while riovcnt - pos > 0 && left > 0
      invariant first <= pos <= riovcnt
      invariant Leads(mem, tiov[pos..riovcnt], left, goal)
    {
      ghost var rest := tiov[pos + 1..riovcnt];
      var v := tiov[pos];
      assert tiov[pos..riovcnt] == [v] + rest;
      if v.len > left {
        AdvanceInside(mem, v, rest, left);
        tiov[pos] := Iov(v.base + left, v.len - left);
        assert tiov[pos..riovcnt] == [Iov(v.base + left, v.len - left)] + rest;
        return;
      } else {
        AdvancePast(mem, v, rest, left);
        left := left - v.len;
        pos := pos + 1;
      }
    }
  }

  /** apth_writev_iov_advance: afterwards the view denotes what it denoted before, less its first `advance` bytes; the
      caller's array is only read, and the scratch array is written inside its bounds. */
  method IovAdvance(riov: array<Iov>, riovcnt: nat, advance: nat, c: Cursor, liovcnt: nat, tiov: array<Iov>,
                    ghost mem: Memory)
    returns (c': Cursor, liovcnt': nat)
    requires riov != tiov && riovcnt <= riov.Length && riovcnt <= tiov.Length
    requires CursorOk(c, liovcnt, riovcnt)
    requires advance <= |Denote(mem, View(c, liovcnt, riov[..riovcnt], tiov[..]))|
    modifies tiov
    ensures !c'.Unset? && CursorOk(c', liovcnt', riovcnt)
    ensures Denote(mem, View(c', liovcnt', riov[..riovcnt], tiov[..]))
         == old(Denote(mem, View(c, liovcnt, riov[..riovcnt], tiov[..])))[advance..]
  {
    c', liovcnt' := c, liovcnt;
    if c' == Unset && liovcnt' == 0 {
      c', liovcnt' := Real, riovcnt;
    }
    if advance > 0 {
      if c' == Real && liovcnt' == riovcnt {
        CopyIovs(riov, riovcnt, tiov);
        c' := Scratch(0);
      }
      assert tiov[..][c'.pos..c'.pos + liovcnt'] == tiov[c'.pos..riovcnt];
      var pos := AdvanceScratch(tiov, riovcnt, c'.pos, advance, mem);
      c', liovcnt' := Scratch(pos), riovcnt - pos;
      assert tiov[..][pos..pos + liovcnt'] == tiov[pos..riovcnt];
    }
  }

  /** What the kernel answers to one call: interrupted, would block, a real error, or ready to take up to max bytes. */
  datatype Reply = Interrupted | WouldBlock | Fails | Takes(max: nat)

  datatype Outcome = Invalid | Waiting(written: nat) | Returned(rv: int)

  /** The reference: writing one flat buffer of `total` bytes, `written` of them already accepted. */
  function FlatWrite(total: nat, written: nat, replies: seq<Reply>): Outcome
    requires written <= total
    decreases |replies|
  {
    if replies == [] then Waiting(written)
    else match replies[0]
      case Interrupted => FlatWrite(total, written, replies[1..])
      case WouldBlock => FlatWrite(total, written, replies[1..])
      case Fails => Returned(if written == 0 then -1 else written)
      case Takes(max) =>
        var s := if max < total - written then max else total - written;
        if 0 < s < total - written then FlatWrite(total, written + s, replies[1..]) else Returned(written + s)
  }

  /** How many bytes a file has received when the call stands like this. */
  function Accepted(o: Outcome): nat {
    match o
    case Invalid => 0
    case Waiting(written) => written
    case Returned(rv) => if rv < 0 then 0 else rv
  }

  /** The retry loops are exhausted by a short write only: they return at the end of the data, at an error, or when the
      kernel takes nothing. */
  lemma {:induction false} FlatWriteStopsWhen(total: nat, written: nat, replies: seq<Reply>)
    requires written <= total
    ensures var o := FlatWrite(total, written, replies);
            && written <= (if Accepted(o) == 0 then written else Accepted(o)) <= total
            && (o.Returned? ==> replies != [])
            && (o.Returned? && o.rv == -1 ==> written == 0 && Fails in replies)
            && (o.Returned? && Accepted(o) < total ==> Fails in replies || Takes(0) in replies)
    decreases |replies|
  {
    if replies != [] {
      var rest := replies[1..];
      match replies[0]
      case Interrupted => FlatWriteStopsWhen(total, written, rest);
      case WouldBlock => FlatWriteStopsWhen(total, written, rest);
      case Fails =>
      case Takes(max) =>
        var s := if max < total - written then max else total - written;
        if 0 < s < total - written {
          FlatWriteStopsWhen(total, written + s, rest);
        }
    }
  }

  /** A byte as the file receives it. */
  datatype Placed = Placed(offset: int, byte: int)

  ghost function PlacedAt(offset: int, bytes: seq<int>): seq<Placed> {
    seq(|bytes|, i requires 0 <= i < |bytes| => Placed(offset + i, bytes[i]))
  }

  lemma FirstView(riov: seq<Iov>, tiov: seq<Iov>)
    requires |riov| <= |tiov|
    ensures View(Unset, 0, riov, tiov) == riov
  {
  }

  lemma NothingPlaced(offset: int)
    ensures PlacedAt(offset, []) == []
  {
  }

  lemma TakenNext(offset: int, all: seq<int>, rv: nat, s: nat)
    requires rv + s <= |all|
    ensures PlacedAt(offset, all[..rv]) + PlacedAt(offset + rv, all[rv..][..s]) == PlacedAt(offset, all[..rv + s])
    ensures all[rv..][s..] == all[rv + s..]
  {
  }

  /** writev and pwritev: for every iovec array and every sequence of kernel replies they return what writing the
      concatenated buffers as one flat buffer would, and the file receives exactly the accepted prefix, in order and at
      matching offsets. */
  method Writev(iov: array<Iov>, iovcnt: int, offset: int, replies: seq<Reply>, ghost mem: Memory)
    returns (o: Outcome, ghost received: seq<Placed>)
    requires iovcnt <= iov.Length
    ensures o == Invalid <==> (iovcnt <= 0 || iovcnt > UIO_MAXIOV)
    ensures o == Invalid ==> received == []
    ensures o != Invalid ==>
              var all := Denote(mem, iov[..iovcnt]);
              && o == FlatWrite(|all|, 0, replies)
              && Accepted(o) <= |all|
              && received == PlacedAt(offset, all[..Accepted(o)])
  {
    hide PlacedAt, Denote, View;
    received := [];
    if iovcnt <= 0 || iovcnt > UIO_MAXIOV {
      return Invalid, received;
    }
    var tiov := new Iov[if iovcnt > TIOV_STACK_SIZE then UIO_MAXIOV else TIOV_STACK_SIZE];
    var rv: nat := 0;
    var nbytes: nat := IovBytes(iov, iovcnt, mem);
    ghost var all := Denote(mem, iov[..iovcnt]);
    FirstView(iov[..iovcnt], tiov[..]);
    var liov, liovcnt := IovAdvance(iov, iovcnt, 0, Unset, 0, tiov, mem);
    var current := offset;
    assert all[0..] == all && all[..0] == [];
    NothingPlaced(offset);
    var k := 0;
    while k < |replies|
      invariant 0 <= k <= |replies|
      invariant !liov.Unset? && CursorOk(liov, liovcnt, iovcnt)
      invariant rv + nbytes == |all| && rv <= |all| && current == offset + rv
      invariant Denote(mem, View(liov, liovcnt, iov[..iovcnt], tiov[..])) == all[rv..]
      invariant received == PlacedAt(offset, all[..rv])
      invariant FlatWrite(|all|, 0, replies) == FlatWrite(|all|, rv, replies[k..])
    {
      var reply := replies[k];
      assert replies[k..][1..] == replies[k + 1..];
      k := k + 1;
      if reply == Interrupted || reply == WouldBlock {
        continue;
      }
      if reply == Fails {
        return Returned(if rv == 0 then -1 else rv), received;
      }
      var s := if reply.max < nbytes then reply.max else nbytes;
      TakenNext(offset, all, rv, s);
      ghost var given := Denote(mem, View(liov, liovcnt, iov[..iovcnt], tiov[..]));
      assert given[..s] == all[rv..][..s];
      received := received + PlacedAt(current, given[..s]);
      if 0 < s < nbytes {
        rv, current, nbytes := rv + s, current + s, nbytes - s;
        liov, liovcnt := IovAdvance(iov, iovcnt, s, liov, liovcnt, tiov, mem);
        continue;
      }
      return Returned(rv + s), received;
    }
    o := Waiting(rv);
  }

  // The reference without its loop

  /** What the kernel was ready to take in all. */
  ghost function Offered(replies: seq<Reply>): nat {
    if replies == [] then 0
    else Offered(replies[1..]) + if replies[0].Takes? then replies[0].max else 0
  }

  /** The i-th reply ends a write of total bytes: an error, a write of nothing, or the last of the data. */
  ghost predicate Ends(total: nat, replies: seq<Reply>, i: nat)
    requires i < |replies|
  {
    || replies[i].Fails?
    || (replies[i].Takes? && (replies[i].max == 0 || total <= Offered(replies[..i + 1])))
  }

  /** No reply before the i-th ends the write. */
  ghost predicate GoesOn(total: nat, replies: seq<Reply>, i: nat)
    requires i <= |replies|
  {
    forall j :: 0 <= j < i ==> !Ends(total, replies, j)
  }

  lemma OfferedFirst(replies: seq<Reply>, j: nat)
    requires 0 < j <= |replies|
    ensures Offered(replies[..j]) ==
            (if replies[0].Takes? then replies[0].max else 0) + Offered(replies[1..][..j - 1])
  {
    assert replies[..j][1..] == replies[1..][..j - 1];
  }

  lemma GoesOnLater(left: nat, replies: seq<Reply>, i: nat)
    requires 0 < i <= |replies| && GoesOn(left, replies, i)
    ensures var took := if replies[0].Takes? then replies[0].max else 0;
            && !replies[0].Fails? && (replies[0].Takes? ==> 0 < took < left) && took <= left
            && GoesOn(left - took, replies[1..], i - 1)
  {
    var took := if replies[0].Takes? then replies[0].max else 0;
    assert !Ends(left, replies, 0);
    OfferedFirst(replies, 1);
    var after, rest: seq<Reply> := left - took, replies[1..];
    forall j | 0 <= j < i - 1
      ensures !Ends(after, rest, j)
    {
      assert !Ends(left, replies, j + 1);
      OfferedFirst(replies, j + 2);
    }
  }

  /** The result in terms of the first reply that ends the write: with an error, -1 if nothing was taken before and
      otherwise what was; without, everything taken, but never more than the data. As long as no reply ends it, the
      write goes on. */
  lemma {:induction false} FlatWriteIs(total: nat, written: nat, left: nat, replies: seq<Reply>, i: nat)
    requires written + left == total && i <= |replies| && GoesOn(left, replies, i)
    ensures i == |replies| ==>
              && FlatWrite(total, written, replies) == Waiting(written + Offered(replies))
              && written + Offered(replies) <= total
    ensures i < |replies| && replies[i].Fails? ==>
              var taken := written + Offered(replies[..i]);
              FlatWrite(total, written, replies) == Returned(if taken == 0 then -1 else taken)
    ensures i < |replies| && replies[i].Takes? && Ends(left, replies, i) ==>
              var taken := written + Offered(replies[..i + 1]);
              FlatWrite(total, written, replies) == Returned(if taken < total then taken else total)
    decreases |replies|
  {
    hide GoesOn;
    if i > 0 {
      var rest, took := replies[1..], if replies[0].Takes? then replies[0].max else 0;
      GoesOnLater(left, replies, i);
      FlatWriteIs(total, written + took, left - took, rest, i - 1);
      OfferedFirst(replies, i);
      if i < |replies| {
        OfferedFirst(replies, i + 1);
      } else {
        assert replies[..i] == replies && rest[..i - 1] == rest;
      }
    } else if replies != [] {
      OfferedFirst(replies, 1);
    }
  }
}
