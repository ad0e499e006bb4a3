/** What the other modules share. */
module Basics {

  /** An `apth_t`. */
  type Tid = nat

  datatype Option<+T> = None | Some(value: T)

  /** Number of values of an `unsigned int`. */
  const UINT_RANGE := 0x1_0000_0000

  ghost predicate NoRepeats<T>(s: seq<T>) {
    forall i, j :: 0 <= i < j < |s| ==> s[i] != s[j]
  }

  lemma NoRepeatsBoth<T>(s: seq<T>, t: seq<T>)
    requires NoRepeats(s) && NoRepeats(t) && forall i :: 0 <= i < |s| ==> s[i] !in t
    ensures NoRepeats(s + t)
  {
  }

  /** list_remove: s without x. */
  function Minus<T(==)>(s: seq<T>, x: T): seq<T> {
    if s == [] then [] else if s[0] == x then s[1..] else [s[0]] + Minus(s[1..], x)
  }

  lemma {:induction false} MinusOne<T>(s: seq<T>, x: T)
    requires NoRepeats(s) && x in s
    ensures NoRepeats(Minus(s, x)) && |Minus(s, x)| == |s| - 1
    ensures forall y :: y in Minus(s, x) <==> y in s && y != x
  {
    if s[0] == x {
      assert forall i :: 0 < i < |s| ==> s[i] != x;
    } else {
      MinusOne(s[1..], x);
      assert s[0] !in s[1..];
      assert forall y :: y in s <==> y == s[0] || y in s[1..];
    }
  }

  lemma {:induction false} MinusWithin<T>(s: seq<T>, x: T)
    ensures forall y :: y in Minus(s, x) ==> y in s
  {
    if s != [] {
      MinusWithin(s[1..], x);
    }
  }

  lemma {:induction false} MinusNothing<T>(s: seq<T>, x: T)
    requires x !in s
    ensures Minus(s, x) == s
  {
    if s != [] {
      MinusNothing(s[1..], x);
    }
  }

  lemma {:induction false} MinusIs<T>(s: seq<T>, x: T) returns (i: nat)
    requires x in s
    ensures i < |s| && s[i] == x && Minus(s, x) == s[..i] + s[i + 1..]
  {
    if s[0] == x {
      i := 0;
    } else {
      var j := MinusIs(s[1..], x);
      i := j + 1;
      assert [s[0]] + (s[1..][..j] + s[1..][j + 1..]) == s[..i] + s[i + 1..];
    }
  }

  lemma MinusAt<T>(s: seq<T>, i: nat)
    requires NoRepeats(s) && i < |s|
    ensures Minus(s, s[i]) == s[..i] + s[i + 1..]
  {
    var j := MinusIs(s, s[i]);
  }

  lemma MultiplesAreBig(e: int, n: int)
    requires n > 0
    ensures e >= 1 ==> e * n >= n
    ensures e <= -1 ==> e * n <= -n
  {
    if e >= 1 {
      assert (e - 1) * n >= 0;
    } else if e <= -1 {
      assert (-1 - e) * n >= 0;
    }
  }

  lemma ModIs(x: int, n: int, q: int, r: int)
    requires n > 0 && x == q * n + r && 0 <= r < n
    ensures x % n == r
  {
    var d := x / n;
    assert x == d * n + x % n;
    assert (q - d) * n == q * n - d * n;
    MultiplesAreBig(q - d, n);
  }

  lemma DivIs(x: int, n: int, q: int, r: int)
    requires n > 0 && x == q * n + r && 0 <= r < n
    ensures x / n == q
  {
    ModIs(x, n, q, r);
    var d := x / n;
    assert (q - d) * n == q * n - d * n == 0;
    MultiplesAreBig(q - d, n);
  }
}
