/**
 * The Cantor pairing function and its inverse, as `CantorPair` (64-bit, Go
 * `int64` arithmetic) and `cantorPairInverse` (arbitrary precision, `big.Int`)
 * compute them, with the mathematical bijection between pairs of naturals and
 * naturals that they implement.
 */
module Cantor {
  import opened Numbers

  /** The n-th triangular number 0 + 1 + ... + n. */
  function Triangle(n: nat): nat
    decreases n
  {
    if n == 0 then 0 else Triangle(n - 1) + n
  }

  /** The closed form `CantorPair` computes with: twice T(n) is n(n+1). */
  lemma {:induction false} TriangleDouble(n: nat)
    ensures 2 * Triangle(n) == n * (n + 1)
    decreases n
  {
    if n > 0 {
      TriangleDouble(n - 1);
      assert n * (n + 1) == (n - 1) * n + 2 * n;
    }
  }

  lemma {:induction false} TriangleMonotonic(a: nat, b: nat)
    requires a <= b
    ensures Triangle(a) <= Triangle(b)
    ensures a < b ==> Triangle(a) < Triangle(b)
    decreases b - a
  {
    if a < b {
      TriangleMonotonic(a, b - 1);
    }
  }

  /** Every natural lies in exactly one band [T(w), T(w+1)). */
  lemma TriangleBandUnique(a: nat, b: nat, z: int)
    requires Triangle(a) <= z < Triangle(a + 1)
    requires Triangle(b) <= z < Triangle(b + 1)
    ensures a == b
  {
    if a < b {
      TriangleMonotonic(a + 1, b);
    } else if b < a {
      TriangleMonotonic(b + 1, a);
    }
  }

  /** The mathematical Cantor pairing: z = (x+y)(x+y+1)/2 + y. */
  function Pair(x: nat, y: nat): nat
  {
    Triangle(x + y) + y
  }

  /**
   * `CantorPair` exactly as Go evaluates it on int64 operands: every `+` and
   * `*` wraps modulo 2^64 and `/ 2` truncates toward zero.
   */
  function CantorPair(x: int, y: int): (z: int)
    requires InInt64(x) && InInt64(y)
    ensures InInt64(z)
  {
    var s := Wrap64(x + y);
    var w := TruncDiv2(Wrap64(s * Wrap64(s + 1)));
    Wrap64(w + y)
  }

  /** Without overflow the 64-bit function is the Cantor pairing. */
  lemma CantorPairAgrees(x: nat, y: nat)
    requires x + y <= MaxInt64
    requires (x + y) * (x + y + 1) <= MaxInt64
    ensures CantorPair(x, y) == Pair(x, y)
  {
    var s := x + y;
    TriangleDouble(s);
    if s > 0 {
      assert s * (s + 1) == s * s + s;
      assert s + 1 <= s * (s + 1);
      assert Triangle(s) >= s;
    }
    assert Wrap64(s + 1) == s + 1;
    assert Wrap64(s * (s + 1)) == s * (s + 1);
    assert TruncDiv2(s * (s + 1)) == Triangle(s);
  }

  /** Floor square root, as `big.Int.Sqrt` computes it for non-negative operands. */
  function ISqrt(n: nat): (r: nat)
    ensures r * r <= n < (r + 1) * (r + 1)
    ensures n >= 1 ==> r >= 1
    decreases n
  {
    if n < 4 then (if n == 0 then 0 else 1)
    else
      var q := ISqrt(n / 4);
      ISqrtStep(n, q);
      if (2 * q + 1) * (2 * q + 1) <= n then 2 * q + 1 else 2 * q
  }

  /** From the root q of n/4, the root of n is 2q or 2q+1. */
  lemma ISqrtStep(n: nat, q: nat)
    requires q * q <= n / 4 < (q + 1) * (q + 1)
    ensures (2 * q) * (2 * q) <= n < (2 * q + 2) * (2 * q + 2)
  {
    assert (2 * q) * (2 * q) == 4 * (q * q);
    assert (2 * q + 2) * (2 * q + 2) == 4 * ((q + 1) * (q + 1));
  }

  lemma SquareMonotonic(a: nat, b: nat)
    requires a <= b
    ensures a * a <= b * b
  {
    assert b * b - a * a == (b - a) * (b + a);
  }

  /** 8 T(w) + 1 is the odd square (2w+1)^2. */
  lemma TriangleOddSquare(w: nat)
    ensures 8 * Triangle(w) + 1 == (2 * w + 1) * (2 * w + 1)
  {
    TriangleDouble(w);
    assert (2 * w + 1) * (2 * w + 1) == 4 * (w * (w + 1)) + 1;
  }

  /** The w computed by the inverse is the band of z: T(w) <= z < T(w+1). */
  lemma InverseBand(z: nat, r: nat, w: int)
    requires r == ISqrt(8 * z + 1) && w == (r - 1) / 2
    ensures w >= 0 && Triangle(w) <= z < Triangle(w + 1)
  {
    assert r == 2 * w + 1 || r == 2 * w + 2;
    TriangleOddSquare(w);
    TriangleOddSquare(w + 1);
    assert 2 * (w + 1) + 1 == 2 * w + 3;
    SquareMonotonic(2 * w + 1, r);
    SquareMonotonic(r + 1, 2 * w + 3);
  }

  /**
   * `cantorPairInverse` on a non-negative z (big.Int.Sqrt panics on the
   * negative ones): both components are natural and pair back to z.
   */
  function CantorPairInverse(z: nat): (xy: (int, int))
    ensures xy.0 >= 0 && xy.1 >= 0
    ensures Pair(xy.0, xy.1) == z
  {
    var w := (ISqrt(8 * z + 1) - 1) / 2;
    var t := (w * w + w) / 2;
    var y := z - t;
    var x := w - y;
    InverseBand(z, ISqrt(8 * z + 1), w);
    TriangleFormula(w);
    assert x + y == w;
    (x, y)
  }

  /** `cantorPairInverse` computes T(w) as (w*w + w)/2. */
  lemma TriangleFormula(w: nat)
    ensures (w * w + w) / 2 == Triangle(w)
  {
    TriangleDouble(w);
    assert w * w + w == w * (w + 1);
  }

  /** Pair is one-to-one: distinct pairs of naturals get distinct codes. */
  lemma PairInjective(x1: nat, y1: nat, x2: nat, y2: nat)
    requires Pair(x1, y1) == Pair(x2, y2)
    ensures x1 == x2 && y1 == y2
  {
    var z := Pair(x1, y1);
    assert Triangle(x1 + y1 + 1) == Triangle(x1 + y1) + x1 + y1 + 1;
    assert Triangle(x2 + y2 + 1) == Triangle(x2 + y2) + x2 + y2 + 1;
    TriangleBandUnique(x1 + y1, x2 + y2, z);
  }

  /** Unpairing a pair of naturals gives that pair back. */
  lemma InversePair(x: nat, y: nat)
    ensures CantorPairInverse(Pair(x, y)) == (x, y)
  {
    var xy := CantorPairInverse(Pair(x, y));
    PairInjective(x, y, xy.0, xy.1);
  }

  /** Pair is onto: every natural is the code of the pair the inverse returns. */
  lemma PairSurjective(z: nat)
    ensures exists x: nat, y: nat :: Pair(x, y) == z
  {
    var (x, y) := CantorPairInverse(z);
    assert Pair(x, y) == z;
  }

  /** Small codes; the pairing is sensitive to argument order. */
  lemma PairExamples()
    ensures Pair(1, 0) == 1
    ensures Pair(0, 1) == 2
    ensures Pair(2, 3) == 18
  {
    assert Triangle(5) == 15;
  }

  lemma InverseExample()
    ensures CantorPairInverse(18) == (2, 3)
  {
    assert Pair(2, 3) == 18 by { assert Triangle(5) == 15; }
    InversePair(2, 3);
  }
}
