/** One colour plane of a size x size image as a value, and what the engine's
    whole-plane operations do to it: the separable 2D transform (every row, then
    every column), the quadrant swap that moves the zero frequency to the centre,
    and the radial masks and amplifier applied around that centre.

    A plane is a sequence of rows; row y holds the entries of columns 0 .. n - 1.
    The engine stores a plane flat, entry (x, y) at index y * size + x. */
module Planes {
  import opened Host
  import opened Arith
  import opened Spectrum

  type Plane = seq<Channel>

  predicate IsPlane(P: Plane, n: nat)
  {
    |P| == n && forall y :: 0 <= y < n ==> HasLength(P[y], n)
  }

  /** The entry in column x of row y. */
  function Entry(P: Plane, x: nat, y: nat): Complex
    requires y < |P| && x < |P[y].re| && x < |P[y].im|
  {
    At(P[y], x)
  }

  // ---------------------------------------------------------------------------
  // The separable 2D transform

  /** Every row replaced by its 1D transform. */
  function TransformRows(P: Plane, t: seq<nat>, tbl: seq<real>, n: nat, inverse: bool): (r: Plane)
    requires IsBitReversalTable(t, n) && |tbl| == TableLength(n) && IsPlane(P, n)
    ensures IsPlane(r, n)
  {
    seq(n, y requires 0 <= y < n => Transform1d(P[y], t, tbl, n, inverse))
  }

  /** Rows become columns: entry (x, y) of the result is entry (y, x) of P. */
  function Transposed(P: Plane, n: nat): (r: Plane)
    requires IsPlane(P, n)
    ensures IsPlane(r, n)
  {
    seq(n, y requires 0 <= y < n =>
      Channel(seq(n, x requires 0 <= x < n => P[x].re[y]),
              seq(n, x requires 0 <= x < n => P[x].im[y])))
  }

  /** The source's `fft2d`: the x-axis pass transforms every row, then the y-axis
      pass transforms every column of the result. */
  function Transform2d(P: Plane, t: seq<nat>, tbl: seq<real>, n: nat, inverse: bool): (r: Plane)
    requires IsBitReversalTable(t, n) && |tbl| == TableLength(n) && IsPlane(P, n)
    ensures IsPlane(r, n)
  {
    Transposed(TransformRows(Transposed(TransformRows(P, t, tbl, n, inverse), n), t, tbl, n, inverse), n)
  }

  lemma TransposedEntry(P: Plane, n: nat, x: nat, y: nat)
    requires IsPlane(P, n) && x < n && y < n
    ensures Entry(Transposed(P, n), x, y) == Entry(P, y, x)
  {
  }

  /** Transposing twice gives the plane back. */
  lemma TransposedTwice(P: Plane, n: nat)
    requires IsPlane(P, n)
    ensures Transposed(Transposed(P, n), n) == P
  {
    var T := Transposed(Transposed(P, n), n);
    forall y | 0 <= y < n
      ensures T[y] == P[y]
    {
      assert T[y].re == P[y].re;
      assert T[y].im == P[y].im;
    }
  }

  /** Column x of the row-transformed plane, as the y-axis pass reads it, is
      column x of P with each of its entries taken from the transformed rows. */
  lemma ColumnOfTransform2d(P: Plane, t: seq<nat>, tbl: seq<real>, n: nat, inverse: bool, x: nat)
    requires IsBitReversalTable(t, n) && |tbl| == TableLength(n) && IsPlane(P, n) && x < n
    ensures var R := TransformRows(P, t, tbl, n, inverse);
      var C := Transform1d(Transposed(R, n)[x], t, tbl, n, inverse);
      forall y :: 0 <= y < n ==> Entry(Transform2d(P, t, tbl, n, inverse), x, y) == At(C, y)
  {
  }

  /** M is, entry by entry, x * A + y * B. */
  predicate IsPlaneMix(M: Plane, A: Plane, B: Plane, x: real, y: real, n: nat)
  {
    IsPlane(M, n) && IsPlane(A, n) && IsPlane(B, n)
    && forall r :: 0 <= r < n ==> IsMix(M[r], A[r], B[r], x, y)
  }

  lemma TransformRowsLinear(M: Plane, A: Plane, B: Plane, x: real, y: real,
                            t: seq<nat>, tbl: seq<real>, n: nat, inverse: bool)
    requires IsBitReversalTable(t, n) && |tbl| == TableLength(n) && IsPlaneMix(M, A, B, x, y, n)
    ensures IsPlaneMix(TransformRows(M, t, tbl, n, inverse), TransformRows(A, t, tbl, n, inverse),
                       TransformRows(B, t, tbl, n, inverse), x, y, n)
  {
    forall r | 0 <= r < n
      ensures IsMix(TransformRows(M, t, tbl, n, inverse)[r], TransformRows(A, t, tbl, n, inverse)[r],
                    TransformRows(B, t, tbl, n, inverse)[r], x, y)
    {
      Transform1dLinear(M[r], A[r], B[r], x, y, t, tbl, n, inverse);
    }
  }

  lemma TransposedLinear(M: Plane, A: Plane, B: Plane, x: real, y: real, n: nat)
    requires IsPlaneMix(M, A, B, x, y, n)
    ensures IsPlaneMix(Transposed(M, n), Transposed(A, n), Transposed(B, n), x, y, n)
  {
    var TM, TA, TB := Transposed(M, n), Transposed(A, n), Transposed(B, n);
    forall r | 0 <= r < n
      ensures IsMix(TM[r], TA[r], TB[r], x, y)
    {
      forall c | 0 <= c < n
        ensures At(TM[r], c) == MixValue(At(TA[r], c), At(TB[r], c), x, y)
      {
        assert At(TM[r], c) == At(M[c], r) && At(TA[r], c) == At(A[c], r) && At(TB[r], c) == At(B[c], r);
      }
    }
  }

  /** The 2D transform is linear: the transform of x * A + y * B is x times the
      transform of A plus y times that of B, forward and inverse alike. */
  lemma Transform2dLinear(M: Plane, A: Plane, B: Plane, x: real, y: real,
                          t: seq<nat>, tbl: seq<real>, n: nat, inverse: bool)
    requires IsBitReversalTable(t, n) && |tbl| == TableLength(n) && IsPlaneMix(M, A, B, x, y, n)
    ensures IsPlaneMix(Transform2d(M, t, tbl, n, inverse), Transform2d(A, t, tbl, n, inverse),
                       Transform2d(B, t, tbl, n, inverse), x, y, n)
  {
    TransformRowsLinear(M, A, B, x, y, t, tbl, n, inverse);
    var RM, RA, RB := TransformRows(M, t, tbl, n, inverse), TransformRows(A, t, tbl, n, inverse),
                      TransformRows(B, t, tbl, n, inverse);
    TransposedLinear(RM, RA, RB, x, y, n);
    TransformRowsLinear(Transposed(RM, n), Transposed(RA, n), Transposed(RB, n), x, y, t, tbl, n, inverse);
    TransposedLinear(TransformRows(Transposed(RM, n), t, tbl, n, inverse),
                     TransformRows(Transposed(RA, n), t, tbl, n, inverse),
                     TransformRows(Transposed(RB, n), t, tbl, n, inverse), x, y, n);
  }

  // ---------------------------------------------------------------------------
  // The quadrant swap

  /** Where the swap takes coordinate c from: half a side further, wrapping around. */
  function Shift(c: nat, n: nat): nat
    requires c < n
  {
    if c < n / 2 then c + n / 2 else c - n / 2
  }

  lemma ShiftInvolution(c: nat, n: nat)
    requires IsSize(n) && c < n
    ensures Shift(c, n) < n && Shift(Shift(c, n), n) == c
  {
    SizeFractions(n);
  }

  /** The source's `swap`: entry (x, y) of the result is entry
      (Shift(x), Shift(y)) of P. */
  function Swapped(P: Plane, n: nat): (r: Plane)
    requires IsSize(n) && IsPlane(P, n)
    ensures IsPlane(r, n)
  {
    seq(n, y requires 0 <= y < n =>
      ShiftInvolution(y, n);
      Channel(seq(n, x requires 0 <= x < n => ShiftInvolution(x, n); P[Shift(y, n)].re[Shift(x, n)]),
              seq(n, x requires 0 <= x < n => ShiftInvolution(x, n); P[Shift(y, n)].im[Shift(x, n)])))
  }

  /** The four exchanges of the source for x, y < n/2: (x, y) with
      (x + n/2, y + n/2), and (x, y + n/2) with (x + n/2, y). */
  lemma SwappedExchangesQuadrants(P: Plane, n: nat, x: nat, y: nat)
    requires IsSize(n) && IsPlane(P, n) && x < n / 2 && y < n / 2
    ensures var h := n / 2;
      && x + h < n && y + h < n
      && Entry(Swapped(P, n), x, y) == Entry(P, x + h, y + h)
      && Entry(Swapped(P, n), x + h, y + h) == Entry(P, x, y)
      && Entry(Swapped(P, n), x, y + h) == Entry(P, x + h, y)
      && Entry(Swapped(P, n), x + h, y) == Entry(P, x, y + h)
  {
    SizeFractions(n);
  }

  /** Swapping twice restores the plane exactly. */
  lemma SwappedTwice(P: Plane, n: nat)
    requires IsSize(n) && IsPlane(P, n)
    ensures Swapped(Swapped(P, n), n) == P
  {
    var S := Swapped(Swapped(P, n), n);
    forall y | 0 <= y < n
      ensures S[y] == P[y]
    {
      ShiftInvolution(y, n);
      forall x | 0 <= x < n
        ensures S[y].re[x] == P[y].re[x] && S[y].im[x] == P[y].im[x]
      {
        ShiftInvolution(x, n);
      }
      assert S[y].re == P[y].re;
      assert S[y].im == P[y].im;
    }
  }

  // ---------------------------------------------------------------------------
  // Radial masks and the amplifier. The filters walk x and y over
  // [-n/2, n/2); the point (x, y) is entry (x + n/2, y + n/2) of the plane.

  /** Whether the filter loops visit the entry in column x of row y: both
      coordinates lie in [0, 2 * (n / 2)), which is every entry unless n == 1. */
  predicate Covered(x: nat, y: nat, n: nat)
  {
    x < 2 * (n / 2) && y < 2 * (n / 2)
  }

  /** x^2 + y^2 for the centred coordinates of column x, row y. */
  function SquaredDistance(x: nat, y: nat, n: nat): nat
  {
    var dx, dy := x - n / 2, y - n / 2;
    dx * dx + dy * dy
  }

  /** The source's r = Math.sqrt(x ** 2 + y ** 2). */
  function Distance(x: nat, y: nat, n: nat, math: MathLib): real
  {
    math.sqrt(SquaredDistance(x, y, n) as real)
  }

  /** The three masks: which distances each one zeroes. */
  datatype Mask = HighPass(radius: real) | LowPass(radius: real) | BandPass(radius: real, bandwidth: real)

  predicate Zeroes(m: Mask, r: real)
  {
    match m
    case HighPass(radius) => r < radius
    case LowPass(radius) => r > radius
    case BandPass(radius, bandwidth) => r < radius || r > radius + bandwidth
  }

  predicate Cleared(m: Mask, x: nat, y: nat, n: nat, math: MathLib)
  {
    Covered(x, y, n) && Zeroes(m, Distance(x, y, n, math))
  }

  /** The plane after a mask: the entries it selects become 0 + 0i, the rest are kept. */
  function Masked(P: Plane, n: nat, m: Mask, math: MathLib): (r: Plane)
    requires IsPlane(P, n)
    ensures IsPlane(r, n)
  {
    seq(n, y requires 0 <= y < n =>
      Channel(seq(n, x requires 0 <= x < n => if Cleared(m, x, y, n, math) then 0.0 else P[y].re[x]),
              seq(n, x requires 0 <= x < n => if Cleared(m, x, y, n, math) then 0.0 else P[y].im[x])))
  }

  /** Applying a mask a second time changes nothing. */
  lemma MaskedIdempotent(P: Plane, n: nat, m: Mask, math: MathLib)
    requires IsPlane(P, n)
    ensures Masked(Masked(P, n, m, math), n, m, math) == Masked(P, n, m, math)
  {
    var Q := Masked(P, n, m, math);
    var R := Masked(Q, n, m, math);
    forall y | 0 <= y < n
      ensures R[y] == Q[y]
    {
      assert R[y].re == Q[y].re;
      assert R[y].im == Q[y].im;
    }
  }

  /** A band pass is a high pass at its inner radius followed by a low pass at its
      outer radius. */
  lemma BandPassIsHighThenLow(P: Plane, n: nat, radius: real, bandwidth: real, math: MathLib)
    requires IsPlane(P, n)
    ensures Masked(Masked(P, n, HighPass(radius), math), n, LowPass(radius + bandwidth), math)
         == Masked(P, n, BandPass(radius, bandwidth), math)
  {
    var H := Masked(P, n, HighPass(radius), math);
    var L := Masked(H, n, LowPass(radius + bandwidth), math);
    var B := Masked(P, n, BandPass(radius, bandwidth), math);
    forall y | 0 <= y < n
      ensures L[y] == B[y]
    {
      assert L[y].re == B[y].re;
      assert L[y].im == B[y].im;
    }
  }

  /** A square root of a square is the non-negative base. */
  lemma SqrtOfSquare(sqrt: real -> real, v: real)
    requires IsSqrt(sqrt) && v >= 0.0
    ensures sqrt(v * v) == v
  {
    var s := sqrt(v * v);
    assert s >= 0.0 && s * s == v * v;
    if s < v {
      MulStrict(s, v);
    } else if s > v {
      MulStrict(v, s);
    }
  }

  lemma MulStrict(a: real, b: real)
    requires 0.0 <= a < b
    ensures a * a < b * b
  {
    var e := b - a;
    calc {
      b * b;
      (a + e) * (a + e);
      a * a + (2.0 * a + e) * e;
    }
    PositiveProduct(2.0 * a + e, e);
  }

  lemma PositiveProduct(u: real, v: real)
    requires u > 0.0 && v > 0.0
    ensures u * v > 0.0
  {
  }

  /** For a non-negative radius, sqrt(d) < radius is the squared test d < radius^2. */
  lemma SqrtBelow(sqrt: real -> real, d: real, radius: real)
    requires IsSqrt(sqrt) && d >= 0.0 && radius >= 0.0
    ensures sqrt(d) < radius <==> d < radius * radius
  {
    var s := sqrt(d);
    assert s >= 0.0 && s * s == d;
    if s < radius {
      MulStrict(s, radius);
    } else {
      MulLessEqReal(radius, s);
    }
  }

  lemma MulLessEqReal(a: real, b: real)
    requires 0.0 <= a <= b
    ensures a * a <= b * b
  {
    assert a * a <= a * b;
    assert a * b <= b * b;
  }

  /** The high pass zeroes the covered points with x^2 + y^2 < radius^2, and none
      when the radius is negative. */
  lemma HighPassBySquaredDistance(n: nat, radius: real, math: MathLib, x: nat, y: nat)
    requires IsSqrt(math.sqrt)
    ensures var d := SquaredDistance(x, y, n) as real;
      Cleared(HighPass(radius), x, y, n, math)
      <==> Covered(x, y, n) && radius >= 0.0 && d < radius * radius
  {
    var d := SquaredDistance(x, y, n) as real;
    if radius >= 0.0 {
      SqrtBelow(math.sqrt, d, radius);
    }
  }

  /** The low pass zeroes the covered points with x^2 + y^2 > radius^2, and every
      covered point when the radius is negative. */
  lemma LowPassBySquaredDistance(n: nat, radius: real, math: MathLib, x: nat, y: nat)
    requires IsSqrt(math.sqrt)
    ensures var d := SquaredDistance(x, y, n) as real;
      Cleared(LowPass(radius), x, y, n, math)
      <==> Covered(x, y, n) && (radius < 0.0 || d > radius * radius)
  {
    var d := SquaredDistance(x, y, n) as real;
    if radius >= 0.0 {
      var s := math.sqrt(d);
      assert s >= 0.0 && s * s == d;
      if s > radius {
        MulStrict(radius, s);
      } else {
        MulLessEqReal(s, radius);
      }
    }
  }

  /** A band pass of width 0 is not empty: it keeps exactly the points at distance
      equal to the radius. */
  lemma BandPassZeroWidthKeepsRing(n: nat, radius: real, math: MathLib, x: nat, y: nat)
    requires Covered(x, y, n)
    ensures !Cleared(BandPass(radius, 0.0), x, y, n, math) <==> Distance(x, y, n, math) == radius
  {
  }

  /** A high pass of radius n/2 does not clear the plane: the point (-n/2, 0),
      entry (0, n/2), lies at distance exactly n/2 and is kept. */
  lemma HighPassHalfSizeKeepsEdge(n: nat, math: MathLib)
    requires IsSize(n) && n >= 2 && IsSqrt(math.sqrt)
    ensures Covered(0, n / 2, n) && !Cleared(HighPass((n / 2) as real), 0, n / 2, n, math)
  {
    SizeFractions(n);
    var h := (n / 2) as real;
    assert SquaredDistance(0, n / 2, n) as real == h * h;
    SqrtOfSquare(math.sqrt, h);
  }

  /** The gain of `highFrequencyAmplifier` at distance r > radius + radiusSize is
      level; between radius and radius + radiusSize it ramps linearly from 1. */
  function Gain(r: real, radius: real, radiusSize: real, level: real): real
    requires radiusSize != 0.0
  {
    if r > radius + radiusSize then level else ((r - radius) / radiusSize) * (level - 1.0) + 1.0
  }

  /** The plane after the amplifier: entries at distance below radius are kept, the
      others multiplied by their gain. */
  function Amplified(P: Plane, n: nat, radius: real, radiusSize: real, level: real, math: MathLib): (r: Plane)
    requires IsPlane(P, n) && radiusSize != 0.0
    ensures IsPlane(r, n)
  {
    seq(n, y requires 0 <= y < n =>
      Channel(seq(n, x requires 0 <= x < n => AmplifiedPart(P[y].re[x], x, y, n, radius, radiusSize, level, math)),
              seq(n, x requires 0 <= x < n => AmplifiedPart(P[y].im[x], x, y, n, radius, radiusSize, level, math))))
  }

  /** One real or imaginary part at column x, row y after the amplifier. */
  function AmplifiedPart(v: real, x: nat, y: nat, n: nat, radius: real, radiusSize: real, level: real, math: MathLib): real
    requires radiusSize != 0.0
  {
    var r := Distance(x, y, n, math);
    if !Covered(x, y, n) || r < radius then v else v * Gain(r, radius, radiusSize, level)
  }

  /** Level 1 leaves every entry as it was. */
  lemma AmplifiedUnitLevel(P: Plane, n: nat, radius: real, radiusSize: real, math: MathLib)
    requires IsPlane(P, n) && radiusSize != 0.0
    ensures Amplified(P, n, radius, radiusSize, 1.0, math) == P
  {
    var A := Amplified(P, n, radius, radiusSize, 1.0, math);
    forall y | 0 <= y < n
      ensures A[y] == P[y]
    {
      assert A[y].re == P[y].re;
      assert A[y].im == P[y].im;
    }
  }

  /** The ramp starts at gain 1 on the inner radius, ends at gain `level` on the
      outer one, and for level >= 1 and a positive width every gain from the inner
      radius outward lies between 1 and level. */
  lemma GainRamp(r: real, radius: real, radiusSize: real, level: real)
    requires radiusSize > 0.0
    ensures Gain(radius, radius, radiusSize, level) == 1.0
    ensures Gain(radius + radiusSize, radius, radiusSize, level) == level
    ensures level >= 1.0 && r >= radius ==> 1.0 <= Gain(r, radius, radiusSize, level) <= level
  {
    if level >= 1.0 && radius <= r <= radius + radiusSize {
      var f := (r - radius) / radiusSize;
      assert 0.0 <= f <= 1.0;
      FractionOf(f, level - 1.0);
    }
  }

  /** A fraction between 0 and 1 of a non-negative amount lies between 0 and it. */
  lemma FractionOf(f: real, m: real)
    requires 0.0 <= f <= 1.0 && m >= 0.0
    ensures 0.0 <= f * m <= m
  {
    assert (1.0 - f) * m >= 0.0;
    assert m - f * m == (1.0 - f) * m;
  }

  // ---------------------------------------------------------------------------
  // The filters' flat index

  /** The filters' index n/2 + (y + n/2) * n + x, for x and y in [-n/2, n/2), is
      the flat index of column x + n/2, row y + n/2: it lies in [0, n * n), and
      every index in that range is reached from exactly one pair (x, y). */
  lemma FilterIndexBijection(n: nat, x: int, y: int)
    requires IsSize(n) && n >= 2 && -(n / 2) <= x < n / 2 && -(n / 2) <= y < n / 2
    ensures var h := n / 2;
      var i := h + (y + h) * n + x;
      0 <= i < n * n
      && Quotient(i, n) == y + h && Remainder(i, n) == x + h
  {
    SizeFractions(n);
    var h := n / 2;
    var row: nat, column: nat := y + h, x + h;
    var i := h + (y + h) * n + x;
    assert i == row * n + column;
    RowMajorBound(row, column, n);
    DivModUnique(i, n, row, column);
  }

  /** Row-major indices of an n x n grid lie in [0, n * n). */
  lemma RowMajorBound(row: nat, column: nat, n: nat)
    requires row < n && column < n
    ensures row * n + column < n * n
  {
    MulLessEq(row + 1, n, n);
    assert (row + 1) * n == row * n + n;
  }

  lemma FilterIndexOnto(n: nat, i: nat)
    requires IsSize(n) && n >= 2 && i < n * n
    ensures var h := n / 2;
      var x, y := Remainder(i, n) - h, Quotient(i, n) - h;
      -h <= x < h && -h <= y < h && i == h + (y + h) * n + x
  {
    SizeFractions(n);
    QuotientRemainder(i, n);
    if Quotient(i, n) >= n {
      MulLessEq(n, Quotient(i, n), n);
    }
  }
}
