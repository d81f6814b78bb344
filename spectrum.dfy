/** The one-dimensional transform of the engine as values: a channel is a pair of
    real and imaginary sequences; the transform first reorders the channel by the
    bit-reversal table and then runs the radix-2 butterfly stages, each of which
    combines the pairs (lo, lo + half) with a twiddle read from the sine/cosine
    table. Table entries are kept abstract: nothing here assumes they are sines. */
module Spectrum {
  import opened Bits
  import opened Arith

  /** Real and imaginary parts of one colour channel (a row, a column or a plane). */
  datatype Channel = Channel(re: seq<real>, im: seq<real>)

  predicate HasLength(c: Channel, n: nat)
  {
    |c.re| == n && |c.im| == n
  }

  /** Sizes the engine accepts: 0 (nothing loaded) or a power of two. */
  predicate IsSize(n: nat)
  {
    n == 0 || IsPowerOfTwo(n)
  }

  /** Length of the twiddle table, `new Float64Array(size * 1.25)`: the fractional
      part of the length is dropped. */
  function TableLength(n: nat): nat
  {
    (5 * n) / 4
  }

  /** The size's quarters and eighths line up: n/2 - n/4 == n/4 for n >= 4 and
      n/4 - n/8 == n/8 for n >= 8; the table holds n + n/4 entries. */
  lemma SizeFractions(n: nat)
    requires IsSize(n)
    ensures n >= 4 ==> n / 2 - n / 4 == n / 4
    ensures n >= 8 ==> n / 4 - n / 8 == n / 8
    ensures n >= 2 ==> n % 2 == 0
    ensures TableLength(n) == n + n / 4
  {
    if n >= 2 {
      var k := Log2(n);
      assert n == 2 * Pow2(k - 1);
      if n >= 4 {
        assert Pow2(k - 1) == 2 * Pow2(k - 2);
        if n >= 8 {
          assert Pow2(k - 2) == 2 * Pow2(k - 3);
        }
      }
    }
  }

  /** The table the engine builds for size n: entry i is i with its log2(n) bits reversed. */
  predicate IsBitReversalTable(t: seq<nat>, n: nat)
  {
    IsSize(n) && |t| == n && forall i :: 0 <= i < n ==> t[i] == Reverse(i, Log2(n))
  }

  /** The bit-reversal table is a permutation of [0, n) and its own inverse. */
  lemma BitReversalTableIsInvolution(t: seq<nat>, n: nat)
    requires IsBitReversalTable(t, n)
    ensures forall i :: 0 <= i < n ==> t[i] < n && t[t[i]] == i
  {
    forall i | 0 <= i < n
      ensures t[i] < n && t[t[i]] == i
    {
      ReverseInvolution(i, Log2(n));
    }
  }

  /** No two indices share a slot, so the table is a permutation of [0, n). */
  lemma BitReversalTableIsInjective(t: seq<nat>, n: nat)
    requires IsBitReversalTable(t, n)
    ensures forall i, j :: 0 <= i < n && 0 <= j < n && t[i] == t[j] ==> i == j
  {
    BitReversalTableIsInvolution(t, n);
    forall i, j | 0 <= i < n && 0 <= j < n && t[i] == t[j]
      ensures i == j
    {
      assert t[t[i]] == i && t[t[j]] == j;
    }
  }

  /** Entry p of the result is entry t[p] of c. */
  function Permuted(c: Channel, t: seq<nat>): (r: Channel)
    requires |c.re| == |t| && |c.im| == |t|
    requires forall i :: 0 <= i < |t| ==> t[i] < |t|
    ensures HasLength(r, |t|)
  {
    Channel(seq(|t|, i requires 0 <= i < |t| => c.re[t[i]]),
            seq(|t|, i requires 0 <= i < |t| => c.im[t[i]]))
  }

  /** Reordering twice by the bit-reversal table restores the channel. */
  lemma PermutedTwice(c: Channel, t: seq<nat>, n: nat)
    requires IsBitReversalTable(t, n) && HasLength(c, n)
    ensures Permuted(Permuted(c, t), t) == c
  {
    BitReversalTableIsInvolution(t, n);
    var r := Permuted(Permuted(c, t), t);
    assert r.re == c.re;
    assert r.im == c.im;
  }

  // ---------------------------------------------------------------------------
  // Index structure of one butterfly stage

  /** Stage with pair distance `half` (the source's loop variable i) on length n. */
  predicate StageShape(n: nat, half: nat)
  {
    IsPowerOfTwo(n) && IsPowerOfTwo(half) && 2 * half <= n
  }

  /** Position of p inside its block of 2 * half entries. */
  function Offset(p: nat, half: nat): nat
    requires half >= 1
  {
    Remainder(p, 2 * half)
  }

  function Block(p: nat, half: nat): nat
    requires half >= 1
  {
    Quotient(p, 2 * half)
  }

  /** The source's j: which butterfly of the block p belongs to. */
  function Group(p: nat, half: nat): nat
    requires half >= 1
  {
    if Offset(p, half) < half then Offset(p, half) else Offset(p, half) - half
  }

  /** The source's k: the lower index of the pair containing p. */
  function Lower(p: nat, half: nat): nat
    requires half >= 1
  {
    Block(p, half) * (2 * half) + Group(p, half)
  }

  /** The source's h for the pair containing p: the phase grows by n / (2 * half) per group. */
  function TwiddleIndex(n: nat, half: nat, p: nat): nat
    requires half >= 1
  {
    Group(p, half) * Quotient(n, 2 * half)
  }

  /** A power of two divides every larger power of two. */
  lemma {:induction false} PowerOfTwoDivides(n: nat, m: nat)
    requires IsPowerOfTwo(n) && IsPowerOfTwo(m) && m <= n
    ensures Remainder(n, m) == 0 && Quotient(n, m) * m == n && IsPowerOfTwo(Quotient(n, m))
  {
    if m == n {
      DivModUnique(n, m, 1, 0);
    } else {
      PowerOfTwoBelow(m, n);
      PowerOfTwoDivides(n / 2, m);
      var q := Quotient(n / 2, m);
      MulTwiceLeft(q, m);
      assert n == (2 * q) * m + 0;
      DivModUnique(n, m, 2 * q, 0);
      assert (2 * q) / 2 == q;
    }
  }

  /** A power of two below another is at most half of it. */
  lemma {:induction false} PowerOfTwoBelow(m: nat, n: nat)
    requires IsPowerOfTwo(m) && IsPowerOfTwo(n) && m < n
    ensures 2 * m <= n && n % 2 == 0 && IsPowerOfTwo(n / 2)
  {
    if m > 1 {
      PowerOfTwoBelow(m / 2, n / 2);
    }
  }

  /** Between two distinct powers of two there is room for a doubling. */
  lemma PowerOfTwoStep(n: nat, half: nat)
    requires IsPowerOfTwo(n) && IsPowerOfTwo(half) && half < n
    ensures StageShape(n, 2 * half) || 2 * half == n
    ensures 2 * half <= n && IsPowerOfTwo(2 * half)
  {
    PowerOfTwoBelow(half, n);
    assert (2 * half) / 2 == half;
    assert IsPowerOfTwo(2 * half);
    if 2 * half < n {
      PowerOfTwoBelow(2 * half, n);
    }
  }

  lemma BlockDecomposition(p: nat, half: nat)
    requires half >= 1
    ensures p == Block(p, half) * (2 * half) + Offset(p, half)
    ensures Offset(p, half) < 2 * half && Group(p, half) < half
    ensures p == Lower(p, half) || p == Lower(p, half) + half
    ensures (p == Lower(p, half)) <==> Offset(p, half) < half
  {
    QuotientRemainder(p, 2 * half);
  }

  /** The pair (k, k + half) of block m, group j: k and k + half are exactly the
      two indices that have that block and group. */
  lemma PairMembers(half: nat, j: nat, m: nat, p: nat)
    requires half >= 1 && j < half
    ensures var k := j + m * (2 * half);
      (Group(p, half) == j && Block(p, half) == m) <==> (p == k || p == k + half)
  {
    var k := j + m * (2 * half);
    BlockDecomposition(p, half);
    if p == k {
      DivModUnique(p, 2 * half, m, j);
    } else if p == k + half {
      DivModUnique(p, 2 * half, m, j + half);
    }
  }

  /** The lower member k of the pair of block m, group j. */
  lemma PairLowerAt(half: nat, j: nat, m: nat)
    requires half >= 1 && j < half
    ensures var k := j + m * (2 * half);
      Offset(k, half) == j && Group(k, half) == j && Block(k, half) == m && Lower(k, half) == k
  {
    var d := 2 * half;
    var k := j + m * d;
    DivModUnique(k, d, m, j);
    assert Offset(k, half) == j;
  }

  /** The upper member k + half of the pair of block m, group j. */
  lemma PairUpperAt(half: nat, j: nat, m: nat)
    requires half >= 1 && j < half
    ensures var k := j + m * (2 * half);
      Offset(k + half, half) == j + half && Group(k + half, half) == j
      && Block(k + half, half) == m && Lower(k + half, half) == k
  {
    var d := 2 * half;
    var k := j + m * d;
    DivModUnique(k + half, d, m, j + half);
    assert Offset(k + half, half) == j + half;
  }

  /** The block of p lies inside [0, n): its pair's upper member is below n. */
  lemma UpperInRange(n: nat, half: nat, p: nat)
    requires StageShape(n, half) && p < n
    ensures Lower(p, half) + half < n
  {
    var m := 2 * half;
    PowerOfTwoDivides(n, m);
    var B := Quotient(n, m);
    BlockDecomposition(p, half);
    var b := Block(p, half);
    var bm := b * m;
    assert p == bm + Offset(p, half) && Lower(p, half) == bm + Group(p, half);
    if b >= B {
      MulLessEq(B, b, m);
      assert false;
    }
    MulLessEq(b + 1, B, m);
    assert (b + 1) * m == bm + m;
  }

  /** The twiddle index h = j * (n / (2 * half)) stays below n / 2. */
  lemma TwiddleInRange(n: nat, half: nat, p: nat)
    requires StageShape(n, half)
    ensures TwiddleIndex(n, half, p) < n / 2
  {
    var m := 2 * half;
    PowerOfTwoDivides(n, m);
    var B := Quotient(n, m);
    BlockDecomposition(p, half);
    var g := Group(p, half);
    MulLess(g, half, B);
    MulDouble(B, half);
    assert g * B < half * B && n == 2 * (half * B);
  }

  /** Every index the butterfly touches is in range: the upper partner k + i is
      below n, and both twiddle reads h and h + n/4 are inside the table. */
  lemma StageIndices(n: nat, half: nat, p: nat)
    requires StageShape(n, half) && p < n
    ensures Lower(p, half) + half < n
    ensures TwiddleIndex(n, half, p) + n / 4 < TableLength(n)
    ensures TwiddleIndex(n, half, p) < n / 2
  {
    UpperInRange(n, half, p);
    TwiddleInRange(n, half, p);
    assert TableLength(n) == n + n / 4;
  }

  // ---------------------------------------------------------------------------
  // One stage, all stages, the whole 1D transform

  /** One complex value: the content of one index of a channel. */
  datatype Complex = Complex(re: real, im: real)

  /** The twiddled upper partner of a butterfly (the source's xr, xi). */
  function Twiddled(wr: real, wi: real, u: Complex): Complex
  {
    Complex(wr * u.re + wi * u.im, wr * u.im - wi * u.re)
  }

  /** One butterfly on the pair (lower, upper) with twiddle (wr, wi): x is the upper
      value rotated by the twiddle; the lower slot gets lower + x and the upper slot
      lower - x. `upperSlot` selects which of the two results is returned. */
  function Butterfly(upperSlot: bool, lower: Complex, upper: Complex, wr: real, wi: real): Complex
  {
    var x := Twiddled(wr, wi, upper);
    if upperSlot then Complex(lower.re - x.re, lower.im - x.im)
    else Complex(lower.re + x.re, lower.im + x.im)
  }

  /** Entry i of a channel as a complex value. */
  function At(c: Channel, i: nat): Complex
    requires i < |c.re| && i < |c.im|
  {
    Complex(c.re[i], c.im[i])
  }

  /** The sine entry the source multiplies by its sign argument: +1 for a forward
      transform, -1 for an inverse one. */
  function Sine(tbl: seq<real>, h: nat, inverse: bool): real
    requires h < |tbl|
  {
    if inverse then -tbl[h] else tbl[h]
  }

  /** Value at p after the stage of pair distance `half`: the butterfly of the pair
      (lo, lo + half) containing p, with twiddle (table[h + n/4], sign * table[h]). */
  function StageAt(c: Channel, tbl: seq<real>, inverse: bool, n: nat, half: nat, p: nat): Complex
    requires StageShape(n, half) && HasLength(c, n) && |tbl| == TableLength(n) && p < n
  {
    StageIndices(n, half, p);
    var lo := Lower(p, half);
    var h := TwiddleIndex(n, half, p);
    Butterfly(Offset(p, half) >= half, At(c, lo), At(c, lo + half), tbl[h + n / 4], Sine(tbl, h, inverse))
  }

  function Stage(c: Channel, tbl: seq<real>, inverse: bool, n: nat, half: nat): (r: Channel)
    requires StageShape(n, half) && HasLength(c, n) && |tbl| == TableLength(n)
    ensures HasLength(r, n)
  {
    Channel(seq(n, p requires 0 <= p < n => StageAt(c, tbl, inverse, n, half, p).re),
            seq(n, p requires 0 <= p < n => StageAt(c, tbl, inverse, n, half, p).im))
  }

  /** The stages with pair distances half, 2 * half, ..., n / 2, in that order. */
  function Butterflies(c: Channel, tbl: seq<real>, inverse: bool, n: nat, half: nat): (r: Channel)
    requires IsPowerOfTwo(n) && IsPowerOfTwo(half) && half <= n
    requires HasLength(c, n) && |tbl| == TableLength(n)
    ensures HasLength(r, n)
    decreases n - half
  {
    if half == n then c
    else
      PowerOfTwoStep(n, half);
      Butterflies(Stage(c, tbl, inverse, n, half), tbl, inverse, n, 2 * half)
  }

  /** The source's `_fft(real, imag, sign)` on one channel: reorder, then all stages. */
  function Fft(c: Channel, t: seq<nat>, tbl: seq<real>, inverse: bool, n: nat): (r: Channel)
    requires IsBitReversalTable(t, n) && HasLength(c, n) && |tbl| == TableLength(n)
    ensures HasLength(r, n)
  {
    if n == 0 then c else Butterflies(Permuted(c, t), tbl, inverse, n, 1)
  }

  /** Every entry multiplied by k. */
  function Scaled(c: Channel, k: real): (r: Channel)
    requires |c.re| == |c.im|
    ensures HasLength(r, |c.re|)
  {
    Channel(seq(|c.re|, i requires 0 <= i < |c.re| => c.re[i] * k),
            seq(|c.im|, i requires 0 <= i < |c.im| => c.im[i] * k))
  }

  /** The source's `_fft1d`: a forward transform uses sign +1; an inverse one uses
      sign -1 and then multiplies every entry by 1 / size. */
  function Transform1d(c: Channel, t: seq<nat>, tbl: seq<real>, n: nat, inverse: bool): (r: Channel)
    requires IsBitReversalTable(t, n) && HasLength(c, n) && |tbl| == TableLength(n)
    ensures HasLength(r, n)
  {
    var f := Fft(c, t, tbl, inverse, n);
    if inverse && n > 0 then Scaled(f, 1.0 / (n as real)) else f
  }

  // ---------------------------------------------------------------------------
  // Linearity: the transform commutes with linear combinations of channels.
  // The real arithmetic is done in small lemmas over named scalars; the
  // channel-level lemmas only combine them.

  /** x * u + y * v on complex values. */
  function MixValue(u: Complex, v: Complex, x: real, y: real): Complex
  {
    Complex(x * u.re + y * v.re, x * u.im + y * v.im)
  }

  /** m is, entry by entry, x * a + y * b. */
  predicate IsMix(m: Channel, a: Channel, b: Channel, x: real, y: real)
  {
    var n := |m.re|;
    HasLength(m, n) && HasLength(a, n) && HasLength(b, n)
    && forall i :: 0 <= i < n ==> At(m, i) == MixValue(At(a, i), At(b, i), x, y)
  }

  /** The entry-wise combination x * a + y * b of two channels of equal length. */
  function Mix(a: Channel, b: Channel, x: real, y: real): (r: Channel)
    requires HasLength(a, |a.re|) && HasLength(b, |a.re|)
    ensures IsMix(r, a, b, x, y)
  {
    Channel(seq(|a.re|, i requires 0 <= i < |a.re| => x * a.re[i] + y * b.re[i]),
            seq(|a.re|, i requires 0 <= i < |a.re| => x * a.im[i] + y * b.im[i]))
  }

  /** The components of a mixed complex value, named by the caller, in both directions. */
  lemma MixParts(w: Complex, u: Complex, v: Complex, x: real, y: real,
                 wr: real, wi: real, ur: real, ui: real, vr: real, vi: real)
    requires wr == w.re && wi == w.im && ur == u.re && ui == u.im && vr == v.re && vi == v.im
    ensures w == MixValue(u, v, x, y) <==> wr == x * ur + y * vr && wi == x * ui + y * vi
  {
  }

  /** If s == x * a + y * b then k * s == x * (k * a) + y * (k * b). */
  lemma ScaleMix(k: real, s: real, x: real, y: real, a: real, b: real)
    requires s == x * a + y * b
    ensures k * s == x * (k * a) + y * (k * b)
  {
    calc {
      k * s;
      k * (x * a + y * b);
      k * (x * a) + k * (y * b);
      { assert k * (x * a) == x * (k * a); assert k * (y * b) == y * (k * b); }
      x * (k * a) + y * (k * b);
    }
  }

  /** The sum of two mixes with the same weights is the mix of the sums. */
  lemma MixSum(x: real, y: real, a: real, b: real, u: real, v: real, p: real, q: real)
    requires p == a + u && q == b + v
    ensures (x * a + y * b) + (x * u + y * v) == x * p + y * q
  {
    assert x * p == x * a + x * u;
    assert y * q == y * b + y * v;
  }

  /** The difference of two mixes with the same weights is the mix of the differences. */
  lemma MixDifference(x: real, y: real, a: real, b: real, u: real, v: real, p: real, q: real)
    requires p == a - u && q == b - v
    ensures (x * a + y * b) - (x * u + y * v) == x * p + y * q
  {
    assert x * p == x * a - x * u;
    assert y * q == y * b - y * v;
  }

  /** Scaling a mix by k gives the mix of the scaled values. */
  lemma ScaleLinear(x: real, y: real, s: real, a: real, b: real, k: real, ks: real, ka: real, kb: real)
    requires s == x * a + y * b && ks == s * k && ka == a * k && kb == b * k
    ensures ks == x * ka + y * kb
  {
    ScaleMix(k, s, x, y, a, b);
    assert s * k == k * s;
    assert a * k == k * a && b * k == k * b;
  }

  lemma TwiddledReLinear(wr: real, wi: real, mr: real, mi: real, ur: real, ui: real, vr: real, vi: real, x: real, y: real)
    requires mr == x * ur + y * vr && mi == x * ui + y * vi
    ensures wr * mr + wi * mi == x * (wr * ur + wi * ui) + y * (wr * vr + wi * vi)
  {
    ScaleMix(wr, mr, x, y, ur, vr);
    ScaleMix(wi, mi, x, y, ui, vi);
    MixSum(x, y, wr * ur, wr * vr, wi * ui, wi * vi, wr * ur + wi * ui, wr * vr + wi * vi);
  }

  lemma TwiddledImLinear(wr: real, wi: real, mr: real, mi: real, ur: real, ui: real, vr: real, vi: real, x: real, y: real)
    requires mr == x * ur + y * vr && mi == x * ui + y * vi
    ensures wr * mi - wi * mr == x * (wr * ui - wi * ur) + y * (wr * vi - wi * vr)
  {
    ScaleMix(wr, mi, x, y, ui, vi);
    ScaleMix(wi, mr, x, y, ur, vr);
    MixDifference(x, y, wr * ui, wr * vi, wi * ur, wi * vr, wr * ui - wi * ur, wr * vi - wi * vr);
  }

  /** Rotating by a twiddle is linear. */
  lemma TwiddledLinear(wr: real, wi: real, m: Complex, u: Complex, v: Complex, x: real, y: real)
    requires m == MixValue(u, v, x, y)
    ensures Twiddled(wr, wi, m) == MixValue(Twiddled(wr, wi, u), Twiddled(wr, wi, v), x, y)
  {
    TwiddledReLinear(wr, wi, m.re, m.im, u.re, u.im, v.re, v.im, x, y);
    TwiddledImLinear(wr, wi, m.re, m.im, u.re, u.im, v.re, v.im, x, y);
  }

  /** A butterfly is linear in the pair it combines. */
  lemma ButterflyLinear(upperSlot: bool, wr: real, wi: real, x: real, y: real,
                        ml: Complex, mu: Complex, al: Complex, au: Complex, bl: Complex, bu: Complex)
    requires ml == MixValue(al, bl, x, y) && mu == MixValue(au, bu, x, y)
    ensures Butterfly(upperSlot, ml, mu, wr, wi)
         == MixValue(Butterfly(upperSlot, al, au, wr, wi), Butterfly(upperSlot, bl, bu, wr, wi), x, y)
  {
    var ua, ub := Twiddled(wr, wi, au), Twiddled(wr, wi, bu);
    var ra, rb := Butterfly(upperSlot, al, au, wr, wi), Butterfly(upperSlot, bl, bu, wr, wi);
    TwiddledLinear(wr, wi, mu, au, bu, x, y);
    if upperSlot {
      MixDifference(x, y, al.re, bl.re, ua.re, ub.re, ra.re, rb.re);
      MixDifference(x, y, al.im, bl.im, ua.im, ub.im, ra.im, rb.im);
    } else {
      MixSum(x, y, al.re, bl.re, ua.re, ub.re, ra.re, rb.re);
      MixSum(x, y, al.im, bl.im, ua.im, ub.im, ra.im, rb.im);
    }
  }

  /** StageAt spelled out on the pair that p belongs to. */
  lemma StageAtPair(c: Channel, tbl: seq<real>, inverse: bool, n: nat, half: nat, p: nat)
    requires StageShape(n, half) && HasLength(c, n) && |tbl| == TableLength(n) && p < n
    requires Lower(p, half) + half < n && TwiddleIndex(n, half, p) + n / 4 < |tbl|
    ensures var lo, h := Lower(p, half), TwiddleIndex(n, half, p);
      StageAt(c, tbl, inverse, n, half, p)
      == Butterfly(Offset(p, half) >= half, At(c, lo), At(c, lo + half), tbl[h + n / 4], Sine(tbl, h, inverse))
  {
  }

  lemma StageAtLinear(m: Channel, a: Channel, b: Channel, x: real, y: real, tbl: seq<real>, inverse: bool, n: nat, half: nat, p: nat)
    requires StageShape(n, half) && IsMix(m, a, b, x, y) && |m.re| == n && |tbl| == TableLength(n) && p < n
    ensures StageAt(m, tbl, inverse, n, half, p)
         == MixValue(StageAt(a, tbl, inverse, n, half, p), StageAt(b, tbl, inverse, n, half, p), x, y)
  {
    StageIndices(n, half, p);
    var lo := Lower(p, half);
    var h := TwiddleIndex(n, half, p);
    StageAtPair(m, tbl, inverse, n, half, p);
    StageAtPair(a, tbl, inverse, n, half, p);
    StageAtPair(b, tbl, inverse, n, half, p);
    ButterflyLinear(Offset(p, half) >= half, tbl[h + n / 4], Sine(tbl, h, inverse), x, y,
                    At(m, lo), At(m, lo + half), At(a, lo), At(a, lo + half), At(b, lo), At(b, lo + half));
  }

  lemma StageEntry(c: Channel, tbl: seq<real>, inverse: bool, n: nat, half: nat, p: nat)
    requires StageShape(n, half) && HasLength(c, n) && |tbl| == TableLength(n) && p < n
    ensures At(Stage(c, tbl, inverse, n, half), p) == StageAt(c, tbl, inverse, n, half, p)
  {
  }

  lemma StageLinear(m: Channel, a: Channel, b: Channel, x: real, y: real, tbl: seq<real>, inverse: bool, n: nat, half: nat)
    requires StageShape(n, half) && IsMix(m, a, b, x, y) && |m.re| == n && |tbl| == TableLength(n)
    ensures IsMix(Stage(m, tbl, inverse, n, half), Stage(a, tbl, inverse, n, half), Stage(b, tbl, inverse, n, half), x, y)
  {
    var sm, sa, sb := Stage(m, tbl, inverse, n, half), Stage(a, tbl, inverse, n, half), Stage(b, tbl, inverse, n, half);
    forall p | 0 <= p < n
      ensures At(sm, p) == MixValue(At(sa, p), At(sb, p), x, y)
    {
      StageAtLinear(m, a, b, x, y, tbl, inverse, n, half, p);
      StageEntry(m, tbl, inverse, n, half, p);
      StageEntry(a, tbl, inverse, n, half, p);
      StageEntry(b, tbl, inverse, n, half, p);
    }
  }

  lemma {:induction false} ButterfliesLinear(m: Channel, a: Channel, b: Channel, x: real, y: real, tbl: seq<real>, inverse: bool, n: nat, half: nat)
    requires IsPowerOfTwo(n) && IsPowerOfTwo(half) && half <= n
    requires IsMix(m, a, b, x, y) && |m.re| == n && |tbl| == TableLength(n)
    ensures IsMix(Butterflies(m, tbl, inverse, n, half), Butterflies(a, tbl, inverse, n, half),
                  Butterflies(b, tbl, inverse, n, half), x, y)
    decreases n - half
  {
    if half < n {
      PowerOfTwoStep(n, half);
      StageLinear(m, a, b, x, y, tbl, inverse, n, half);
      ButterfliesLinear(Stage(m, tbl, inverse, n, half), Stage(a, tbl, inverse, n, half),
                        Stage(b, tbl, inverse, n, half), x, y, tbl, inverse, n, 2 * half);
    }
  }

  lemma PermutedLinear(m: Channel, a: Channel, b: Channel, x: real, y: real, t: seq<nat>, n: nat)
    requires IsBitReversalTable(t, n) && IsMix(m, a, b, x, y) && |m.re| == n
    ensures IsMix(Permuted(m, t), Permuted(a, t), Permuted(b, t), x, y)
  {
    BitReversalTableIsInvolution(t, n);
    var pm, pa, pb := Permuted(m, t), Permuted(a, t), Permuted(b, t);
    forall i | 0 <= i < n
      ensures At(pm, i) == MixValue(At(pa, i), At(pb, i), x, y)
    {
      assert At(pm, i) == At(m, t[i]) && At(pa, i) == At(a, t[i]) && At(pb, i) == At(b, t[i]);
    }
  }

  lemma ScaledEntryLinear(m: Channel, a: Channel, b: Channel, x: real, y: real, k: real, i: nat)
    requires IsMix(m, a, b, x, y) && i < |m.re|
    ensures At(Scaled(m, k), i) == MixValue(At(Scaled(a, k), i), At(Scaled(b, k), i), x, y)
  {
    var sm, sa, sb := Scaled(m, k), Scaled(a, k), Scaled(b, k);
    MixParts(At(m, i), At(a, i), At(b, i), x, y, m.re[i], m.im[i], a.re[i], a.im[i], b.re[i], b.im[i]);
    ScaleLinear(x, y, m.re[i], a.re[i], b.re[i], k, sm.re[i], sa.re[i], sb.re[i]);
    ScaleLinear(x, y, m.im[i], a.im[i], b.im[i], k, sm.im[i], sa.im[i], sb.im[i]);
    MixParts(At(sm, i), At(sa, i), At(sb, i), x, y, sm.re[i], sm.im[i], sa.re[i], sa.im[i], sb.re[i], sb.im[i]);
  }

  lemma ScaledLinear(m: Channel, a: Channel, b: Channel, x: real, y: real, k: real)
    requires IsMix(m, a, b, x, y)
    ensures IsMix(Scaled(m, k), Scaled(a, k), Scaled(b, k), x, y)
  {
    forall i | 0 <= i < |m.re|
      ensures At(Scaled(m, k), i) == MixValue(At(Scaled(a, k), i), At(Scaled(b, k), i), x, y)
    {
      ScaledEntryLinear(m, a, b, x, y, k, i);
    }
  }

  /** The 1D transform (forward or inverse) is linear in its input channel: the
      transform of x * a + y * b is x times the transform of a plus y times that of b. */
  lemma Transform1dLinear(m: Channel, a: Channel, b: Channel, x: real, y: real, t: seq<nat>, tbl: seq<real>, n: nat, inverse: bool)
    requires IsBitReversalTable(t, n) && IsMix(m, a, b, x, y) && |m.re| == n && |tbl| == TableLength(n)
    ensures IsMix(Transform1d(m, t, tbl, n, inverse), Transform1d(a, t, tbl, n, inverse),
                  Transform1d(b, t, tbl, n, inverse), x, y)
  {
    if n > 0 {
      PermutedLinear(m, a, b, x, y, t, n);
      ButterfliesLinear(Permuted(m, t), Permuted(a, t), Permuted(b, t), x, y, tbl, inverse, n, 1);
      if inverse {
        ScaledLinear(Fft(m, t, tbl, inverse, n), Fft(a, t, tbl, inverse, n), Fft(b, t, tbl, inverse, n), x, y, 1.0 / (n as real));
      }
    }
  }
}
