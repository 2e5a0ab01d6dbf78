/** What a checksum that goes on byte by byte detects, whatever its states are. */
module Checksums {
  type Byte = bv8

  /** What n steps make of c. */
  function Iterate<S>(step: S -> S, n: nat, c: S): S
    decreases n, c
  {
    if n == 0 then c else step(Iterate(step, n - 1, c))
  }

  lemma EightTimes<S>(step: S -> S, c: S)
    ensures Iterate(step, 8, c) == step(step(step(step(step(step(step(step(c))))))))
  {
    assert Iterate(step, 1, c) == step(Iterate(step, 0, c));
    assert Iterate(step, 3, c) == step(step(Iterate(step, 1, c)));
    assert Iterate(step, 5, c) == step(step(Iterate(step, 3, c)));
    assert Iterate(step, 7, c) == step(step(Iterate(step, 5, c)));
  }

  /** Steps that take sums to sums can be taken of the parts of a sum. */
  lemma {:induction false} IterateSum<S(!new)>(step: S -> S, plus: (S, S) -> S, n: nat, a: S, b: S)
    requires forall x, y :: step(plus(x, y)) == plus(step(x), step(y))
    ensures Iterate(step, n, plus(a, b)) == plus(Iterate(step, n, a), Iterate(step, n, b))
  {
    if n == 0 {
    } else {
      IterateSum(step, plus, n - 1, a, b);
    }
  }

  lemma {:induction false} IterateZero<S(!new)>(step: S -> S, zero: S, n: nat, c: S)
    requires forall x :: step(x) == zero <==> x == zero
    ensures Iterate(step, n, c) == zero <==> c == zero
  {
    if n == 0 {
    } else {
      IterateZero(step, zero, n - 1, c);
    }
  }

  /** The state after the bytes m. */
  function Fold<S>(next: (S, Byte) -> S, c: S, m: seq<Byte>): S {
    if m == [] then c else next(Fold(next, c, m[..|m| - 1]), m[|m| - 1])
  }

  lemma {:induction false} FoldJoin<S>(next: (S, Byte) -> S, c: S, m: seq<Byte>, n: seq<Byte>)
    ensures Fold(next, c, m + n) == Fold(next, Fold(next, c, m), n)
  {
    if n == [] {
      assert m + n == m;
    } else {
      var front, last := n[..|n| - 1], n[|n| - 1];
      assert (m + n)[..|m + n| - 1] == m + front && (m + n)[|m + n| - 1] == last;
      FoldJoin(next, c, m, front);
    }
  }

  /** Frames that begin alike, as far as the states tell, go on alike. */
  lemma FoldGoesOn<S>(next: (S, Byte) -> S, c: S, m: seq<Byte>, d: S, n: seq<Byte>, rest: seq<Byte>)
    requires Fold(next, c, m) == Fold(next, d, n)
    ensures Fold(next, c, m + rest) == Fold(next, d, n + rest)
  {
    FoldJoin(next, c, m, rest);
    FoldJoin(next, d, n, rest);
  }

  lemma FoldTwo<S>(next: (S, Byte) -> S, c: S, m: seq<Byte>)
    requires |m| == 2
    ensures Fold(next, c, m) == next(next(c, m[0]), m[1])
  {
    assert Fold(next, c, m[..1]) == next(Fold(next, c, m[..1][..0]), m[0]);
  }

  lemma FoldThree<S>(next: (S, Byte) -> S, c: S, m: seq<Byte>)
    requires |m| == 3
    ensures Fold(next, c, m) == next(next(next(c, m[0]), m[1]), m[2])
  {
    FoldTwo(next, c, m[..2]);
  }

  /** Two frames that go on alike after their first byte. */
  lemma FoldFromOne<S>(next: (S, Byte) -> S, c: S, m: seq<Byte>, d: S, n: seq<Byte>)
    requires |m| == |n| >= 1 && m[1..] == n[1..] && next(c, m[0]) == next(d, n[0])
    ensures Fold(next, c, m) == Fold(next, d, n)
  {
    assert Fold(next, c, m[..1]) == next(c, m[0]) && Fold(next, d, n[..1]) == next(d, n[0]);
    FoldGoesOn(next, c, m[..1], d, n[..1], m[1..]);
    assert m == m[..1] + m[1..] && n == n[..1] + n[1..];
  }

  /** Two frames that go on alike after their first two bytes. */
  lemma FoldFromTwo<S>(next: (S, Byte) -> S, c: S, m: seq<Byte>, d: S, n: seq<Byte>)
    requires |m| == |n| >= 2 && m[2..] == n[2..]
    requires next(next(c, m[0]), m[1]) == next(next(d, n[0]), n[1])
    ensures Fold(next, c, m) == Fold(next, d, n)
  {
    FoldTwo(next, c, m[..2]);
    FoldTwo(next, d, n[..2]);
    FoldGoesOn(next, c, m[..2], d, n[..2], m[2..]);
    assert m == m[..2] + m[2..] && n == n[..2] + n[2..];
  }

  /** Checksums add: the state of a sum of frames is the sum of their states. */
  ghost predicate Adds<S(!new)>(next: (S, Byte) -> S, plus: (S, S) -> S) {
    forall s, t, b, e :: next(plus(s, t), b ^ e) == plus(next(s, b), next(t, e))
  }

  /** The bytes in which two frames of one length differ. */
  function Sum(m: seq<Byte>, n: seq<Byte>): (d: seq<Byte>)
    requires |m| == |n|
    ensures |d| == |m| && forall i | 0 <= i < |d| :: d[i] == m[i] ^ n[i]
  {
    if m == [] then [] else Sum(m[..|m| - 1], n[..|n| - 1]) + [m[|m| - 1] ^ n[|n| - 1]]
  }

  lemma {:induction false} FoldSum<S(!new)>(next: (S, Byte) -> S, plus: (S, S) -> S, c: S, d: S,
                                            m: seq<Byte>, n: seq<Byte>)
    requires Adds(next, plus) && |m| == |n|
    ensures Fold(next, plus(c, d), Sum(m, n)) == plus(Fold(next, c, m), Fold(next, d, n))
  {
    if m == [] {
    } else {
      var k := |m| - 1;
      assert Sum(m, n)[..k] == Sum(m[..k], n[..k]);
      FoldSum(next, plus, c, d, m[..k], n[..k]);
    }
  }

  /** The zero state stays on zero bytes, and no other state comes to it on them. */
  ghost predicate ZeroStays<S(!new)>(next: (S, Byte) -> S, zero: S) {
    forall s :: next(s, 0) == zero <==> s == zero
  }

  predicate AllZero(d: seq<Byte>) {
    forall i | 0 <= i < |d| :: d[i] == 0
  }

  lemma {:induction false} Zeros<S(!new)>(next: (S, Byte) -> S, zero: S, s: S, d: seq<Byte>)
    requires ZeroStays(next, zero) && AllZero(d)
    ensures Fold(next, s, d) == zero <==> s == zero
  {
    if d == [] {
    } else {
      Zeros(next, zero, s, d[..|d| - 1]);
    }
  }

  /** The bits of d below k are zero. */
  predicate From(d: Byte, k: bv8)
    requires k < 8
  {
    d & ((1 << k) - 1) == 0
  }

  /** The bits of d from k on are zero. */
  predicate Below(d: Byte, k: bv8)
    requires k < 8
  {
    d >> k == 0
  }

  /** All ones of d are within a run of 8 * width bits, counted with the lowest bit of a
      byte first, that begins at bit k of the byte p. The run may pass the end. */
  predicate Burst(d: seq<Byte>, p: nat, k: bv8, width: nat)
    requires k < 8
  {
    && (forall i | 0 <= i < |d| && !(p <= i <= p + width) :: d[i] == 0)
    && (p < |d| ==> From(d[p], k)) && (p + width < |d| ==> Below(d[p + width], k))
  }

  /** No such run that fills d leads from the zero state back to it. */
  ghost predicate BurstsShow<S(!new)>(next: (S, Byte) -> S, zero: S, width: nat) {
    forall d, k: bv8 | |d| == width + 1 && k < 8 && Burst(d, 0, k, width) && Fold(next, zero, d) == zero :: AllZero(d)
  }

  lemma BurstWithin<S(!new)>(next: (S, Byte) -> S, zero: S, d: seq<Byte>, p: nat, k: bv8, width: nat)
    requires ZeroStays(next, zero) && BurstsShow(next, zero, width) && k < 8
    requires Burst(d, p, k, width) && p + width < |d| && Fold(next, zero, d) == zero
    ensures AllZero(d)
  {
    var q := p + width + 1;
    var u := d[p..q];
    assert d == d[..q] + d[q..] && d[..q] == d[..p] + u;
    FoldJoin(next, zero, d[..q], d[q..]);
    FoldJoin(next, zero, d[..p], u);
    Zeros(next, zero, zero, d[..p]);
    Zeros(next, zero, Fold(next, zero, u), d[q..]);
    assert Burst(u, 0, k, width);
    forall i | 0 <= i < |d|
      ensures d[i] == 0
    {
      assert p <= i < q ==> d[i] == u[i - p];
    }
  }

  function Padding(n: nat): (z: seq<Byte>)
    ensures |z| == n && AllZero(z)
  {
    if n == 0 then [] else Padding(n - 1) + [0]
  }

  lemma BurstShows<S(!new)>(next: (S, Byte) -> S, zero: S, d: seq<Byte>, p: nat, k: bv8, width: nat)
    requires ZeroStays(next, zero) && BurstsShow(next, zero, width) && k < 8
    requires Burst(d, p, k, width) && Fold(next, zero, d) == zero
    ensures AllZero(d)
  {
    var z := Padding(p + width + 1);
    FoldJoin(next, zero, d, z);
    Zeros(next, zero, zero, z);
    ZeroBits(k);
    assert Burst(d + z, p, k, width);
    BurstWithin(next, zero, d + z, p, k, width);
    assert forall i | 0 <= i < |d| :: d[i] == (d + z)[i];
  }

  lemma ZeroBits(k: bv8)
    requires k < 8
    ensures From(0, k) && Below(0, k)
  {
  }

  lemma SameByte(a: Byte, b: Byte)
    ensures a ^ b == 0 <==> a == b
  {
  }

  /** Two frames of one length that lead from one state to the same state do not differ
      within such a run only, wherever it lies. */
  lemma BurstTold<S(!new)>(next: (S, Byte) -> S, plus: (S, S) -> S, zero: S, c: S,
                           m: seq<Byte>, n: seq<Byte>, p: nat, k: bv8, width: nat)
    requires Adds(next, plus) && (forall s :: plus(s, s) == zero)
    requires ZeroStays(next, zero) && BurstsShow(next, zero, width) && k < 8
    requires |m| == |n| && Burst(Sum(m, n), p, k, width) && Fold(next, c, m) == Fold(next, c, n)
    ensures m == n
  {
    FoldSum(next, plus, c, c, m, n);
    BurstShows(next, zero, Sum(m, n), p, k, width);
    forall i | 0 <= i < |m|
      ensures m[i] == n[i]
    {
      SameByte(m[i], n[i]);
    }
  }

  /** The frames m and n are the same but for some of the bytes from p on. */
  predicate SameBut(m: seq<Byte>, n: seq<Byte>, p: nat, width: nat) {
    |m| == |n| && forall i | 0 <= i < |m| && !(p <= i < p + width) :: m[i] == n[i]
  }

  /** Whole bytes are such a run. */
  lemma WholeBytes(m: seq<Byte>, n: seq<Byte>, p: nat, width: nat)
    requires SameBut(m, n, p, width)
    ensures Burst(Sum(m, n), p, 0, width)
  {
    forall i | 0 <= i < |m| && !(p <= i < p + width)
      ensures Sum(m, n)[i] == 0
    {
      SameByte(m[i], n[i]);
    }
    ZeroBits(0);
    AllBits();
  }

  lemma AllBits()
    ensures forall d: Byte :: From(d, 0)
  {
  }

  /** A frame that ends in the checksum of what comes before, in one byte. */
  predicate EndsInOne(next: (Byte, Byte) -> Byte, c: Byte, f: seq<Byte>) {
    |f| > 2 && Fold(next, c, f[..|f| - 1]) == f[|f| - 1]
  }

  /** A frame that ends in the two bytes of a checksum. */
  predicate EndsInTwo<S>(next: (S, Byte) -> S, low: S -> Byte, high: S -> Byte, c: S, f: seq<Byte>) {
    && |f| > 2 && low(Fold(next, c, f[..|f| - 2])) == f[|f| - 2]
    && high(Fold(next, c, f[..|f| - 2])) == f[|f| - 1]
  }
}
