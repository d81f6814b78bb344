/** The twiddle table of the engine: entry h holds the sine of 2 * pi * h / n and
    entry h + n / 4 the cosine, for a table of n * 1.25 entries. The first eighth is
    produced by a trigonometric recurrence (an oscillator started from
    dc = 2 * sin(pi / n)^2); the rest is filled in by symmetry. */
module SinCos {
  import opened Host
  import opened Bits
  import opened Arith
  import opened Spectrum

  /** The four running values of the recurrence: c and s approximate the cosine and
      sine of the current angle, dc and ds their decrements. */
  datatype Oscillator = Oscillator(c: real, dc: real, s: real, ds: real)

  /** dc = 2 * sin(pi / n)^2, the decrement of the cosine for one step. */
  function InitialDecrement(n: nat, math: MathLib): real
    requires n > 0
  {
    var v := math.sin(math.pi / (n as real));
    2.0 * (v * v)
  }

  /** ds = sqrt(dc * (2 - dc)), the sine's first increment. */
  function InitialIncrement(dc: real, math: MathLib): real
  {
    math.sqrt(dc * (2.0 - dc))
  }

  /** Angle zero: c = 1, s = 0. */
  function Start(n: nat, math: MathLib): (o: Oscillator)
    requires n > 0
    ensures o.c == 1.0 && o.s == 0.0 && o.dc == InitialDecrement(n, math)
  {
    Oscillator(1.0, InitialDecrement(n, math), 0.0, InitialIncrement(InitialDecrement(n, math), math))
  }

  /** One turn of the recurrence, with t = 2 * dc of the start. */
  function Step(o: Oscillator, t: real): Oscillator
  {
    var c := o.c - o.dc;
    var dc := o.dc + t * c;
    var s := o.s + o.ds;
    var ds := o.ds - t * s;
    Oscillator(c, dc, s, ds)
  }

  /** One turn, with its four intermediate values named by the caller. */
  lemma StepParts(o: Oscillator, t: real, c: real, dc: real, s: real, ds: real)
    requires c == o.c - o.dc && dc == o.dc + t * c && s == o.s + o.ds && ds == o.ds - t * s
    ensures Step(o, t) == Oscillator(c, dc, s, ds)
  {
  }

  /** The oscillator after k turns from the start. */
  function Run(n: nat, math: MathLib, k: nat): Oscillator
    requires n > 0
  {
    if k == 0 then Start(n, math) else Step(Run(n, math, k - 1), 2.0 * InitialDecrement(n, math))
  }

  /** The part the recurrence writes, for n > 0: entry 0 is 0 and entry n/4 is 1;
      entry n/8 is sqrt(0.5); entries i and n/4 - i, for 0 < i < n/8, are the sine
      and cosine of the i-th turn. */
  predicate FirstEighth(tbl: seq<real>, n: nat, math: MathLib)
    requires 0 < n && n / 4 < |tbl|
  {
    var n4, n8 := n / 4, n / 8;
    && tbl[0] == 0.0
    && (n4 > 0 ==> tbl[n4] == 1.0)
    && (n8 > 0 ==> tbl[n8] == math.sqrt(0.5))
    && (forall i :: 1 <= i < n8 ==> tbl[i] == Run(n, math, i).s && tbl[n4 - i] == Run(n, math, i).c)
  }

  /** The second eighth mirrors the first: entry n/2 - i is entry i. */
  predicate Mirrored(tbl: seq<real>, n: nat)
    requires n / 2 < |tbl|
  {
    forall i :: 0 < i < n / 4 ==> tbl[n / 2 - i] == tbl[i]
  }

  /** The entries from n/2 on are the negated entries n/2 before them. */
  predicate Negated(tbl: seq<real>, n: nat)
    requires n / 2 + n / 2 + n / 4 <= |tbl|
  {
    forall i :: 0 <= i < n / 2 + n / 4 ==> tbl[i + n / 2] == -tbl[i]
  }

  /** FirstEighth reads only entries 0 .. n/4. */
  lemma FirstEighthFrame(s1: seq<real>, s2: seq<real>, n: nat, math: MathLib)
    requires 0 < n && n / 4 < |s1| && n / 4 < |s2| && FirstEighth(s1, n, math)
    requires forall p :: 0 <= p <= n / 4 ==> s2[p] == s1[p]
    ensures FirstEighth(s2, n, math)
  {
  }

  /** Mirrored reads only entries below n/2. */
  lemma MirroredFrame(s1: seq<real>, s2: seq<real>, n: nat)
    requires n / 2 < |s1| && n / 2 < |s2| && Mirrored(s1, n)
    requires forall p :: 0 <= p < n / 2 ==> s2[p] == s1[p]
    ensures Mirrored(s2, n)
  {
  }

  /** The table as the engine leaves it for size n. */
  predicate IsCosSinTable(tbl: seq<real>, n: nat, math: MathLib)
  {
    |tbl| == TableLength(n)
    && (n > 0 ==> IsSize(n) && FirstEighth(tbl, n, math) && Mirrored(tbl, n) && Negated(tbl, n))
  }

  /** The description determines the table: two tables that satisfy it for the same
      size and Math object are equal, entry by entry. */
  lemma CosSinTableUnique(t1: seq<real>, t2: seq<real>, n: nat, math: MathLib)
    requires IsSize(n) && IsCosSinTable(t1, n, math) && IsCosSinTable(t2, n, math)
    ensures t1 == t2
  {
    forall k | 0 <= k < |t1|
      ensures t1[k] == t2[k]
    {
      CosSinEntryUnique(t1, t2, n, math, k);
    }
  }

  lemma {:induction false} CosSinEntryUnique(t1: seq<real>, t2: seq<real>, n: nat, math: MathLib, k: nat)
    requires IsSize(n) && IsCosSinTable(t1, n, math) && IsCosSinTable(t2, n, math) && k < |t1|
    ensures t1[k] == t2[k]
    decreases k
  {
    SizeFractions(n);
    var n2, n4, n8 := n / 2, n / 4, n / 8;
    if k == 0 || k == n4 || k == n8 {
    } else if k >= n2 {
      CosSinEntryUnique(t1, t2, n, math, k - n2);
      assert t1[(k - n2) + n2] == -t1[k - n2];
      assert t2[(k - n2) + n2] == -t2[k - n2];
    } else if k > n4 {
      var i := n2 - k;
      CosSinEntryUnique(t1, t2, n, math, i);
      assert t1[n2 - i] == t1[i] && t2[n2 - i] == t2[i];
    } else if k < n8 {
      assert t1[k] == Run(n, math, k).s && t2[k] == Run(n, math, k).s;
    } else {
      var i := n4 - k;
      assert t1[n4 - i] == Run(n, math, i).c && t2[n4 - i] == Run(n, math, i).c;
    }
  }

  /** At size 2 the quarter size n/4 is 0, so the table's cosine slot is entry 0,
      which holds the sine 0: the table is all zeros where cos(0) = 1 belongs. */
  lemma SizeTwoTable(tbl: seq<real>, n: nat, math: MathLib)
    requires n == 2 && IsCosSinTable(tbl, n, math)
    ensures |tbl| == n && forall h :: 0 <= h < |tbl| ==> tbl[h] == 0.0
  {
    assert n / 4 == 0 && n / 2 == 1 && |tbl| == (5 * n) / 4 == 2;
    assert tbl[0 + n / 2] == -tbl[0];
  }

  /** Consequently the size-2 transform does not compute (a + b, a - b): its one
      butterfly has twiddle 0 and copies entry 0 into both slots. */
  lemma SizeTwoTransformCopies(c: Channel, t: seq<nat>, tbl: seq<real>, inverse: bool, n: nat, math: MathLib)
    requires n == 2 && IsBitReversalTable(t, n) && HasLength(c, n) && IsCosSinTable(tbl, n, math)
    ensures Fft(c, t, tbl, inverse, n) == Channel([c.re[0], c.re[0]], [c.im[0], c.im[0]])
  {
    SizeTwoTable(tbl, n, math);
    SizeTwoReordered(c, t, n);
    SizeTwoButterflies(c, tbl, inverse, n);
  }

  /** The size-2 transform the table is meant to drive: the one butterfly of the
      pair (0, 1) with twiddle (cos 0, sin 0) = (1, 0), whatever the sign. This is
      the two-point discrete Fourier transform (a + b, a - b). */
  function SizeTwoIntended(c: Channel, inverse: bool): (r: Channel)
    requires HasLength(c, 2)
    ensures r == Channel([c.re[0] + c.re[1], c.re[0] - c.re[1]], [c.im[0] + c.im[1], c.im[0] - c.im[1]])
  {
    var lower := Butterfly(false, At(c, 0), At(c, 1), 1.0, 0.0);
    var upper := Butterfly(true, At(c, 0), At(c, 1), 1.0, 0.0);
    Channel([lower.re, upper.re], [lower.im, upper.im])
  }

  /** The size-2 transform as written agrees with the intended one exactly when
      entry 1 is zero: any other input, such as (1, 1), comes out wrong. */
  lemma SizeTwoDiscrepancy(c: Channel, t: seq<nat>, tbl: seq<real>, inverse: bool, n: nat, math: MathLib)
    requires n == 2 && IsBitReversalTable(t, n) && HasLength(c, n) && IsCosSinTable(tbl, n, math)
    ensures Fft(c, t, tbl, inverse, n) == SizeTwoIntended(c, inverse) <==> c.re[1] == 0.0 && c.im[1] == 0.0
  {
    SizeTwoTransformCopies(c, t, tbl, inverse, n, math);
    var copies := Channel([c.re[0], c.re[0]], [c.im[0], c.im[0]]);
    var intended := SizeTwoIntended(c, inverse);
    if copies == intended {
      assert copies.re[1] == intended.re[1] && copies.im[1] == intended.im[1];
    }
    if c.re[1] == 0.0 && c.im[1] == 0.0 {
      assert copies.re == intended.re && copies.im == intended.im;
    }
  }

  /** The size-2 butterflies on an all-zero table. */
  lemma SizeTwoButterflies(c: Channel, tbl: seq<real>, inverse: bool, n: nat)
    requires n == 2 && HasLength(c, n) && |tbl| == TableLength(n)
    requires forall h :: 0 <= h < |tbl| ==> tbl[h] == 0.0
    ensures IsPowerOfTwo(n) && Butterflies(c, tbl, inverse, n, 1) == Channel([c.re[0], c.re[0]], [c.im[0], c.im[0]])
  {
    var one := n / 2;
    SizeTwoSingleStage(c, tbl, inverse, n, one);
    SizeTwoStageEntries(c, tbl, inverse, n, one);
    PairOfEqualEntries(Stage(c, tbl, inverse, n, one), At(c, 0), n);
  }

  /** Both entries of the size-2 stage on an all-zero table hold entry 0. */
  lemma SizeTwoStageEntries(c: Channel, tbl: seq<real>, inverse: bool, n: nat, one: nat)
    requires n == 2 && one == 1 && HasLength(c, n) && |tbl| == TableLength(n) && StageShape(n, one)
    requires forall h :: 0 <= h < |tbl| ==> tbl[h] == 0.0
    ensures At(Stage(c, tbl, inverse, n, one), 0) == At(c, 0)
    ensures At(Stage(c, tbl, inverse, n, one), one) == At(c, 0)
  {
    SizeTwoStageEntry(c, tbl, inverse, n, one, 0);
    SizeTwoStageEntry(c, tbl, inverse, n, one, one);
  }

  lemma SizeTwoStageEntry(c: Channel, tbl: seq<real>, inverse: bool, n: nat, one: nat, p: nat)
    requires one == 1 && n == 2 * one && p < n && HasLength(c, n) && |tbl| == TableLength(n) && StageShape(n, one)
    requires forall h :: 0 <= h < |tbl| ==> tbl[h] == 0.0
    ensures At(Stage(c, tbl, inverse, n, one), p) == At(c, 0)
  {
    SizeTwoPair(p, one);
    ZeroTwiddleEntry(c, tbl, inverse, n, one, p);
  }

  /** Entry p of a stage on an all-zero table is the lower entry of p's pair. */
  lemma ZeroTwiddleEntry(c: Channel, tbl: seq<real>, inverse: bool, n: nat, half: nat, p: nat)
    requires StageShape(n, half) && HasLength(c, n) && |tbl| == TableLength(n) && p < n
    requires forall h :: 0 <= h < |tbl| ==> tbl[h] == 0.0
    ensures Lower(p, half) < n && At(Stage(c, tbl, inverse, n, half), p) == At(c, Lower(p, half))
  {
    ZeroTwiddleStage(c, tbl, inverse, n, half, p);
    StageEntry(c, tbl, inverse, n, half, p);
  }

  /** A channel of length 2 whose two entries are both v. */
  lemma PairOfEqualEntries(s: Channel, v: Complex, n: nat)
    requires n == 2 && HasLength(s, n) && At(s, 0) == v && At(s, 1) == v
    ensures s == Channel([v.re, v.re], [v.im, v.im])
  {
    assert s.re == [v.re, v.re];
    assert s.im == [v.im, v.im];
  }

  /** At size 2 the butterflies are the one stage of pair distance 1. */
  lemma SizeTwoSingleStage(c: Channel, tbl: seq<real>, inverse: bool, n: nat, one: nat)
    requires n == 2 && one == 1 && HasLength(c, n) && |tbl| == TableLength(n)
    ensures StageShape(n, one)
    ensures Butterflies(c, tbl, inverse, n, one) == Stage(c, tbl, inverse, n, one)
  {
    assert IsPowerOfTwo(one) && IsPowerOfTwo(n) && 2 * one == n;
    var s := Stage(c, tbl, inverse, n, one);
    assert Butterflies(c, tbl, inverse, n, one) == Butterflies(s, tbl, inverse, n, 2 * one);
  }

  /** The bit-reversal table of size 2 is the identity. */
  lemma SizeTwoReordered(c: Channel, t: seq<nat>, n: nat)
    requires n == 2 && IsBitReversalTable(t, n) && HasLength(c, n)
    ensures Permuted(c, t) == c
  {
    var L := Log2(n);
    Log2OfPow2(1);
    assert Pow2(1) == 2;
    assert L == 1;
    ReverseOfZero(L);
    assert Reverse(1, L) == Pow2(0) + Reverse(0, 0) == 1;
    assert t[0] == 0 && t[1] == 1;
    assert Permuted(c, t).re == c.re;
    assert Permuted(c, t).im == c.im;
  }

  /** At size 2 both entries belong to the pair with lower index 0. */
  lemma SizeTwoPair(p: nat, half: nat)
    requires half == 1 && p < 2 * half
    ensures Lower(p, half) == 0
  {
    DivModUnique(p, 2 * half, 0, p);
  }

  /** With an all-zero table every butterfly leaves the lower value of its pair in
      both slots. */
  lemma ZeroTwiddleStage(c: Channel, tbl: seq<real>, inverse: bool, n: nat, half: nat, p: nat)
    requires StageShape(n, half) && HasLength(c, n) && |tbl| == TableLength(n) && p < n
    requires forall h :: 0 <= h < |tbl| ==> tbl[h] == 0.0
    ensures Lower(p, half) < n && StageAt(c, tbl, inverse, n, half, p) == At(c, Lower(p, half))
  {
    StageIndices(n, half, p);
    var lo, h := Lower(p, half), TwiddleIndex(n, half, p);
    StageAtPair(c, tbl, inverse, n, half, p);
    ButterflyZeroTwiddle(Offset(p, half) >= half, At(c, lo), At(c, lo + half), tbl[h + n / 4], Sine(tbl, h, inverse));
  }

  /** A butterfly with twiddle 0 leaves the lower value in both slots. */
  lemma ButterflyZeroTwiddle(upperSlot: bool, lower: Complex, upper: Complex, wr: real, wi: real)
    requires wr == 0.0 && wi == 0.0
    ensures Butterfly(upperSlot, lower, upper, wr, wi) == lower
  {
  }
}
