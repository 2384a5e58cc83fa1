/** The flat-index codec of an N-dimensional grid: the pure, state-free part of
    class World (ravel, unravel and contains), parameterised by the dimensions. */
module Indexing {

  /** Every extent is positive. The engine never validates its dimensions, so
      this is a precondition wherever an extent is divided by or multiplied in. */
  predicate ValidDims(dims: seq<int>) {
    forall i :: 0 <= i < |dims| ==> dims[i] > 0
  }

  /** The number of cells: a left fold of `*` over the extents, starting at 1. */
  function Product(dims: seq<int>): (n: int)
    ensures ValidDims(dims) ==> n >= 1
  {
    if |dims| == 0 then 1
    else
      var k := |dims| - 1;
      assert ValidDims(dims) ==> ValidDims(dims[..k]);
      PositiveProduct(Product(dims[..k]), dims[k]);
      Product(dims[..k]) * dims[k]
  }

  /** The bounds check, a short-circuiting `every` over the components of `p`:
      a component whose axis does not exist compares against `undefined` and
      fails, while a position shorter than the dimensions passes. */
  function Contains(dims: seq<int>, p: seq<int>): (b: bool)
    ensures b <==> |p| <= |dims| && forall i :: 0 <= i < |p| ==> 0 <= p[i] < dims[i]
  {
    |p| == 0 || (|dims| > 0 && 0 <= p[0] < dims[0] && Contains(dims[1..], p[1..]))
  }

  /** A position of the grid: one in-range component per axis. */
  predicate IsPosition(dims: seq<int>, p: seq<int>) {
    |p| == |dims| && Contains(dims, p)
  }

  /** Mixed-radix encoding, folding left to right: `acc * dims[i] + p[i]`. */
  function Ravel(dims: seq<int>, p: seq<int>): (index: int)
    requires |p| == |dims|
    ensures ValidDims(dims) && Contains(dims, p) ==> 0 <= index < Product(dims)
  {
    if |p| == 0 then 0
    else
      var k := |p| - 1;
      assert ValidDims(dims) ==> ValidDims(dims[..k]);
      assert Contains(dims, p) ==> Contains(dims[..k], p[..k]);
      DigitBound(Ravel(dims[..k], p[..k]), Product(dims[..k]), dims[k], p[k]);
      Ravel(dims[..k], p[..k]) * dims[k] + p[k]
  }

  /** Mixed-radix decoding, last axis first: the last component is the
      remainder by the last extent and the quotient decodes the rest. */
  function Unravel(dims: seq<int>, index: int): (p: seq<int>)
    requires ValidDims(dims) && index >= 0
    ensures |p| == |dims|
    ensures index < Product(dims) ==> Contains(dims, p) && Ravel(dims, p) == index
  {
    if |dims| == 0 then []
    else
      var k := |dims| - 1;
      assert ValidDims(dims[..k]);
      DivMod(index, dims[k]);
      QuotientBound(index, Product(dims[..k]), dims[k]);
      var q := Unravel(dims[..k], index / dims[k]);
      var p := q + [index % dims[k]];
      assert p[..k] == q;
      p
  }

  /** The position `p + o`, component by component. */
  function Shift(p: seq<int>, o: seq<int>): (q: seq<int>)
    requires |o| == |p|
  {
    seq(|p|, i requires 0 <= i < |p| => p[i] + o[i])
  }

  /** Two positions with the same index share their last component and the
      index of the rest. */
  lemma SameLastDigit(dims: seq<int>, p: seq<int>, q: seq<int>)
    requires ValidDims(dims) && IsPosition(dims, p) && IsPosition(dims, q) && |p| > 0
    requires Ravel(dims, p) == Ravel(dims, q)
    ensures ValidDims(dims[..|p| - 1])
    ensures IsPosition(dims[..|p| - 1], p[..|p| - 1]) && IsPosition(dims[..|p| - 1], q[..|p| - 1])
    ensures p[|p| - 1] == q[|p| - 1]
    ensures Ravel(dims[..|p| - 1], p[..|p| - 1]) == Ravel(dims[..|p| - 1], q[..|p| - 1])
  {
    var k, d := |p| - 1, dims[|p| - 1];
    assert ValidDims(dims[..k]) && IsPosition(dims[..k], p[..k]) && IsPosition(dims[..k], q[..k]);
    var rp, rq := Ravel(dims[..k], p[..k]), Ravel(dims[..k], q[..k]);
    assert Ravel(dims, p) == rp * d + p[k] && Ravel(dims, q) == rq * d + q[k];
    SameDigits(rp, rq, d, p[k], q[k]);
  }

  /** Two positions with the same index are equal: the last components are
      the remainders by the last extent and the leading ones share a quotient. */
  lemma {:induction false} RavelInjective(dims: seq<int>, p: seq<int>, q: seq<int>)
    requires ValidDims(dims) && IsPosition(dims, p) && IsPosition(dims, q)
    requires Ravel(dims, p) == Ravel(dims, q)
    ensures p == q
  {
    if |p| > 0 {
      var k := |p| - 1;
      SameLastDigit(dims, p, q);
      RavelInjective(dims[..k], p[..k], q[..k]);
      Snoc(p);
      Snoc(q);
    }
  }

  /** A non-empty sequence is its prefix followed by its last element. */
  lemma Snoc<T>(s: seq<T>)
    requires |s| > 0
    ensures s == s[..|s| - 1] + [s[|s| - 1]]
  {
  }

  /** Decoding an encoded position gives it back. */
  lemma UnravelRavel(dims: seq<int>, p: seq<int>)
    requires ValidDims(dims) && IsPosition(dims, p)
    ensures Unravel(dims, Ravel(dims, p)) == p
  {
    var q := Unravel(dims, Ravel(dims, p));
    RavelInjective(dims, p, q);
  }

  /** The codec is a bijection between the positions of the grid and
      `[0, Product(dims))`. */
  lemma Bijection(dims: seq<int>)
    requires ValidDims(dims)
    ensures forall p :: IsPosition(dims, p) ==>
      0 <= Ravel(dims, p) < Product(dims) && Unravel(dims, Ravel(dims, p)) == p
    ensures forall i :: 0 <= i < Product(dims) ==>
      IsPosition(dims, Unravel(dims, i)) && Ravel(dims, Unravel(dims, i)) == i
  {
    forall p | IsPosition(dims, p)
      ensures Unravel(dims, Ravel(dims, p)) == p
    {
      UnravelRavel(dims, p);
    }
  }

  /** Encoding is linear: the index of `p + o` is the index of `p` plus the
      index of `o`, for any integers, in the grid or not. */
  lemma {:induction false} RavelShift(dims: seq<int>, p: seq<int>, o: seq<int>)
    requires |p| == |dims| && |o| == |dims|
    ensures Ravel(dims, Shift(p, o)) == Ravel(dims, p) + Ravel(dims, o)
  {
    if |dims| > 0 {
      var k := |dims| - 1;
      assert Shift(p, o)[..k] == Shift(p[..k], o[..k]);
      RavelShift(dims[..k], p[..k], o[..k]);
      Distributes(Ravel(dims[..k], p[..k]), Ravel(dims[..k], o[..k]), dims[k]);
    }
  }

  lemma Distributes(a: int, b: int, d: int)
    ensures (a + b) * d == a * d + b * d
  {
  }

  /** The encoding does not check its input: in a 3 x 3 grid the position
      [0, 3], one past the end of the first row, has index 3, which is the
      index of [1, 0]. */
  lemma RavelPastEdge()
    ensures !Contains([3, 3], [0, 3])
    ensures Ravel([3, 3], [0, 3]) == 3 == Ravel([3, 3], [1, 0])
    ensures Unravel([3, 3], 3) == [1, 0]
  {
    assert [3, 3][..1] == [3] && [3][..0] == [];
    assert [0, 3][..1] == [0] && [1, 0][..1] == [1] && [0][..0] == [] && [1][..0] == [];
    assert Ravel([3], [1]) == 1;
    Bijection([3, 3]);
  }

  /** The worked example of the engine's tests: in a 5 x 3 x 4 grid, position
      [1, 2, 3] has index (1 * 3 + 2) * 4 + 3, which is 23. */
  lemma RavelExample()
    ensures Ravel([5, 3, 4], [1, 2, 3]) == 23
    ensures Unravel([5, 3, 4], 23) == [1, 2, 3]
  {
    assert [5, 3, 4][..2] == [5, 3] && [1, 2, 3][..2] == [1, 2];
    assert [5, 3][..1] == [5] && [1, 2][..1] == [1];
    assert [5][..0] == [] && [1][..0] == [];
    assert Ravel([5], [1]) == 1;
    assert Ravel([5, 3], [1, 2]) == 5;
    UnravelRavel([5, 3, 4], [1, 2, 3]);
  }

  // Arithmetic helpers.

  lemma PositiveProduct(a: int, b: int)
    ensures a >= 1 && b >= 1 ==> a * b >= 1
  {
    if a >= 1 && b >= 1 {
      assert a * b >= a * 1;
    }
  }

  lemma DigitBound(r: int, n: int, d: int, x: int)
    ensures 0 <= r < n && 0 <= x < d ==> 0 <= r * d + x < n * d
  {
    if 0 <= r < n && 0 <= x < d {
      assert r * d <= (n - 1) * d;
    }
  }

  lemma QuotientBound(index: int, n: int, d: int)
    requires d > 0 && index >= 0
    ensures index < n * d ==> index / d < n
  {
    var q := index / d;
    if q >= n {
      MulMonotone(n, q, d);
    }
  }

  lemma DivMod(i: int, d: int)
    requires d > 0
    ensures i == (i / d) * d + i % d && 0 <= i % d < d
  {
  }

  /** A mixed-radix number determines its quotient and its last digit. */
  lemma SameDigits(r: int, s: int, d: int, x: int, y: int)
    requires d > 0 && 0 <= x < d && 0 <= y < d && r * d + x == s * d + y
    ensures r == s && x == y
  {
    DivModOfDigit(r, d, x);
    DivModOfDigit(s, d, y);
  }

  lemma DivModOfDigit(r: int, d: int, x: int)
    requires d > 0 && 0 <= x < d
    ensures (r * d + x) / d == r && (r * d + x) % d == x
  {
    var i := r * d + x;
    var q, m := i / d, i % d;
    assert q * d + m == r * d + x;
    if q > r {
      MulMonotone(r + 1, q, d);
    } else if q < r {
      MulMonotone(q + 1, r, d);
    }
  }

  lemma MulMonotone(a: int, b: int, d: int)
    requires a <= b && d > 0
    ensures a * d <= b * d
  {
    assert b * d - a * d == (b - a) * d;
  }

  /** The exact division of the source: removing the remainder first. */
  lemma ExactQuotient(index: int, d: int)
    requires d > 0 && index >= 0
    ensures (index - index % d) / d == index / d
  {
    DivModOfDigit(index / d, d, 0);
    assert index - index % d == (index / d) * d;
  }
}
