/** The CPU Fourier engine: an object holding the image size, the bit-reversal and
    twiddle tables built for that size, and three colour planes (red, green, blue)
    of real and imaginary parts that its operations update in place.

    A plane of the source is a flat array with entry (x, y) at index y * size + x;
    here it is the slice [l, y, x] of a three-dimensional array, l the channel.
    The scratch lines `fft2d` copies rows and columns into are 3 x size arrays
    (see LineArrays). */
module Engine {
  import opened Results
  import opened Host
  import opened Bits
  import opened Arith
  import opened Spectrum
  import opened SinCos
  import opened Planes
  import opened LineArrays

  /** Why `init` throws: a side that is not a power of two, a non-square image,
      or an empty (0 x 0) image, which the canvas refuses to draw or read. */
  datatype InitError = NotPowerOfTwo | NotSquare | EmptyImage

  // ---------------------------------------------------------------------------
  // Views of the arrays as values

  /** Real and imaginary arrays of three n x n planes. */
  predicate IsPlanes(re: array3<real>, im: array3<real>, n: nat)
  {
    && re.Length0 == 3 && re.Length1 == n && re.Length2 == n
    && im.Length0 == 3 && im.Length1 == n && im.Length2 == n
    && re != im
  }

  /** Plane l of a pair of plane arrays. */
  function PlaneOf(re: array3<real>, im: array3<real>, l: nat): (P: Plane)
    reads re, im
    requires IsPlanes(re, im, re.Length1) && l < 3
    ensures IsPlane(P, re.Length1)
  {
    var n := re.Length1;
    seq(n, y requires 0 <= y < n reads re, im =>
      Channel(seq(n, x requires 0 <= x < n reads re => re[l, y, x]),
              seq(n, x requires 0 <= x < n reads im => im[l, y, x])))
  }

  function Planes3(re: array3<real>, im: array3<real>): (s: seq<Plane>)
    reads re, im
    requires IsPlanes(re, im, re.Length1)
    ensures |s| == 3 && forall l :: 0 <= l < 3 ==> s[l] == PlaneOf(re, im, l)
  {
    seq(3, l requires 0 <= l < 3 reads re, im => PlaneOf(re, im, l))
  }

  lemma PlaneFromEntries(re: array3<real>, im: array3<real>, l: nat, Q: Plane)
    requires IsPlanes(re, im, re.Length1) && l < 3 && IsPlane(Q, re.Length1)
    requires forall y, x :: 0 <= y < re.Length1 && 0 <= x < re.Length1 ==>
               re[l, y, x] == Q[y].re[x] && im[l, y, x] == Q[y].im[x]
    ensures PlaneOf(re, im, l) == Q
  {
    var P := PlaneOf(re, im, l);
    forall y | 0 <= y < re.Length1
      ensures P[y] == Q[y]
    {
      assert P[y].re == Q[y].re;
      assert P[y].im == Q[y].im;
    }
  }

  /** Byte j of pixel (x, y) of RGBA canvas data for an n x n image, as a real. */
  function Pixel(pixels: seq<byte>, n: nat, x: nat, y: nat, j: nat): real
    requires |pixels| == 4 * n * n && x < n && y < n && j < 4
  {
    PixelIndexInRange(n, x, y, j);
    pixels[(y * n + x) * 4 + j] as int as real
  }

  lemma PixelIndexInRange(n: nat, x: nat, y: nat, j: nat)
    requires x < n && y < n && j < 4
    ensures (y * n + x) * 4 + j < 4 * n * n
  {
    MulLessEq(y + 1, n, n);
    assert y * n + x < n * n;
    MulLess(y * n + x, n * n, 4);
  }

  // ---------------------------------------------------------------------------
  // The engine

  class FourierTransform {
    /** The host's `Math` object. */
    const math: MathLib
    /** `_size`: side of the square image, 0 before the first `init`. */
    var size: nat
    /** `_bitReversalTable` */
    var bitReversalTable: array<nat>
    /** `_sinCosTable`: sines from 0, cosines from size / 4. */
    var sinCosTable: array<real>
    /** `_real` and `_imag`: three planes each. */
    var re: array3<real>
    var im: array3<real>

    /** The tables match the size. This is all `init` relies on: after an empty
        image it holds while the planes still have the previous size. */
    ghost predicate Tables()
      reads this, bitReversalTable, sinCosTable
    {
      && IsSize(size)
      && IsBitReversalTable(bitReversalTable[..], size)
      && IsCosSinTable(sinCosTable[..], size, math)
    }

    ghost predicate Valid()
      reads this, bitReversalTable, sinCosTable
    {
      Tables() && IsPlanes(re, im, size)
    }

    /** The part of Valid() the transforms rely on: the twiddle table is only
        read, so its length is all they need of it. */
    ghost predicate Ready()
      reads this, bitReversalTable, sinCosTable
    {
      && IsSize(size)
      && IsBitReversalTable(bitReversalTable[..], size)
      && sinCosTable.Length == TableLength(size)
      && IsPlanes(re, im, size)
    }

    /** A fresh engine: size 0, no tables, empty planes. */
    constructor(math: MathLib)
      ensures Valid() && this.math == math && size == 0
    {
      this.math := math;
      size := 0;
      bitReversalTable := new nat[0];
      sinCosTable := new real[0];
      re := new real[3, 0, 0];
      im := new real[3, 0, 0];
    }

    /** `init(image)`: check that the image is square with a power-of-two side (or
        side 0), rebuild the tables when the size changed, and load the red, green
        and blue bytes of the pixel data into the real parts, with zero imaginary
        parts. A failed check leaves the engine untouched. An empty image passes
        both checks and resets the size and tables, but the canvas then throws, so
        the planes keep their previous contents. */
    method Init(width: nat, height: nat, pixels: seq<byte>) returns (outcome: Outcome<InitError>)
      requires Tables() && |pixels| == 4 * width * height
      modifies this
      ensures Tables()
      ensures outcome == Fail(NotPowerOfTwo) <==> width != 0 && BitAnd(width, width - 1) != 0
      ensures outcome == Fail(NotSquare) <==> (width == 0 || BitAnd(width, width - 1) == 0) && width != height
      ensures outcome == Fail(EmptyImage) <==> width == 0 && height == 0
      ensures outcome == Fail(NotPowerOfTwo) || outcome == Fail(NotSquare) ==> unchanged(this)
      ensures outcome == Fail(EmptyImage) ==> size == 0 && re == old(re) && im == old(im)
      ensures outcome == Fail(EmptyImage) && old(size) == 0 ==> unchanged(this)
      ensures outcome == Fail(EmptyImage) && old(size) != 0 ==> fresh(bitReversalTable) && fresh(sinCosTable)
      ensures outcome.Pass? ==> Valid() && size == width == height && 0 < size && fresh(re) && fresh(im)
      ensures outcome.Pass? && old(size) == width ==>
                bitReversalTable == old(bitReversalTable) && sinCosTable == old(sinCosTable)
      ensures outcome.Pass? && old(size) != width ==> fresh(bitReversalTable) && fresh(sinCosTable)
      ensures outcome.Pass? ==>
                forall j, y, x :: 0 <= j < 3 && 0 <= y < size && 0 <= x < size ==>
                  re[j, y, x] == Pixel(pixels, size, x, y, j) && im[j, y, x] == 0.0
    {
      if width != 0 && BitAnd(width, width - 1) != 0 {
        return Fail(NotPowerOfTwo);
      }
      if width != height {
        return Fail(NotSquare);
      }
      if width != 0 {
        PowerOfTwoTest(width);
      }
      if size != width {
        size := width;
        MakeBitReversalTable();
        MakeCosSinTable();
      }
      if width == 0 {
        return Fail(EmptyImage);
      }
      re, im := LoadPixels(size, pixels);
      return Pass;
    }

    /** `_makeBitReversalTable`: entry i is i with its log2(size) bits reversed,
        built by carrying a one bit down from the top of j for each i. */
    method MakeBitReversalTable()
      requires IsSize(size)
      modifies this`bitReversalTable
      ensures fresh(bitReversalTable)
      ensures IsBitReversalTable(bitReversalTable[..], size)
    {
      var n := size;
      var table := new nat[n](_ => 0);
      ghost var L := if n == 0 then 0 else Log2(n);
      var j := 0;
      if n > 0 {
        table[0] := 0;
        ReverseOfZero(L);
      }
      var i := 1;
      while i < n
        invariant 1 <= i && (n > 0 ==> i <= n)
        invariant n > 0 ==> j == Reverse(i - 1, L)
        invariant forall p {:trigger table[p]} :: 0 <= p < i && p < n ==> table[p] == Reverse(p, L)
      {
        j := NextReversed(j, n, L, i);
        table[i] := j;
        i := i + 1;
      }
      bitReversalTable := table;
    }

    /** `_makeCosSinTable`: a table of size * 1.25 entries (fraction dropped), with
        the sines and cosines of the first eighth from the recurrence, sqrt(0.5) at
        size / 8, then the second eighth mirrored and the rest negated. At size 0
        every write of the source falls outside the empty table. */
    method MakeCosSinTable()
      requires IsSize(size)
      modifies this`sinCosTable
      ensures fresh(sinCosTable)
      ensures IsCosSinTable(sinCosTable[..], size, math)
    {
      var n := size;
      var table := new real[TableLength(n)](_ => 0.0);
      if n == 0 {
        sinCosTable := table;
        return;
      }
      SizeFractions(n);
      FillFirstEighth(table, n, math);
      ghost var filled := table[..];
      MirrorSecondEighth(table, n);
      ghost var mirrored := table[..];
      FirstEighthFrame(filled, mirrored, n, math);
      NegateFromHalf(table, n);
      FirstEighthFrame(mirrored, table[..], n, math);
      MirroredFrame(mirrored, table[..], n);
      sinCosTable := table;
    }

    /** `_fft(real, imag, sign)` on the three lines of a scratch pair: reorder by
        the bit-reversal table, then run the butterfly stages with pair distances
        1, 2, 4, ... below the size. The sign argument (+1 or -1) is `inverse`. */
    method Fft(reals: array2<real>, imags: array2<real>, inverse: bool)
      requires Ready() && IsLines(reals, imags, size)
      modifies reals, imags
      ensures forall l :: 0 <= l < 3 ==>
                Line(reals, imags, l)
                == Spectrum.Fft(old(Line(reals, imags, l)), bitReversalTable[..], sinCosTable[..], inverse, size)
    {
      var n := size;
      ghost var t, T := bitReversalTable[..], sinCosTable[..];
      Reorder(reals, imags, bitReversalTable);
      ghost var reordered := seq(3, l requires 0 <= l < 3 reads reals, imags => Line(reals, imags, l));
      var half := 1;
      while half < n
        invariant IsPowerOfTwo(half) && (n > 0 ==> half <= n)
        invariant forall l :: 0 <= l < 3 ==> n > 0 ==>
                    Butterflies(Line(reals, imags, l), T, inverse, n, half) == Butterflies(reordered[l], T, inverse, n, 1)
      {
        PowerOfTwoStep(n, half);
        ghost var before := seq(3, l requires 0 <= l < 3 reads reals, imags => Line(reals, imags, l));
        RunStage(reals, imags, sinCosTable, inverse, half);
        forall l | 0 <= l < 3
          ensures Butterflies(Line(reals, imags, l), T, inverse, n, 2 * half) == Butterflies(reordered[l], T, inverse, n, 1)
        {
          assert Butterflies(before[l], T, inverse, n, half)
                 == Butterflies(Stage(before[l], T, inverse, n, half), T, inverse, n, 2 * half);
        }
        half := 2 * half;
      }
    }

    /** `_fft1d(real, imag, inverse)`: the transform with sign -1 for an inverse
        transform and +1 otherwise; an inverse transform then multiplies every entry
        by 1 / size. At size 0 the scaling loop has nothing to visit, so it is
        skipped there. */
    method Fft1d(reals: array2<real>, imags: array2<real>, inverse: bool)
      requires Ready() && IsLines(reals, imags, size)
      modifies reals, imags
      ensures forall l :: 0 <= l < 3 ==>
                Line(reals, imags, l)
                == Transform1d(old(Line(reals, imags, l)), bitReversalTable[..], sinCosTable[..], size, inverse)
    {
      Fft(reals, imags, inverse);
      if inverse && size > 0 {
        var iSize := 1.0 / (size as real);
        ScaleLines(reals, imags, iSize);
      }
    }

    /** `fft2d(inverse)`: the x-axis pass, then the y-axis pass, through scratch
        lines allocated once. Every plane becomes its 2D transform. */
    method Fft2d(inverse: bool)
      requires Valid()
      modifies re, im
      ensures forall l :: 0 <= l < 3 ==>
                PlaneOf(re, im, l)
                == Transform2d(old(PlaneOf(re, im, l)), bitReversalTable[..], sinCosTable[..], size, inverse)
    {
      var tempReal := new real[3, size];
      var tempImag := new real[3, size];
      TransformEveryRow(inverse, tempReal, tempImag);
      TransformEveryColumn(inverse, tempReal, tempImag);
    }

    /** The x-axis pass of `fft2d`: each row of the three planes is copied into the
        scratch lines, transformed and copied back. */
    method TransformEveryRow(inverse: bool, tempReal: array2<real>, tempImag: array2<real>)
      requires Ready() && IsLines(tempReal, tempImag, size)
      modifies re, im, tempReal, tempImag
      ensures forall l :: 0 <= l < 3 ==>
                PlaneOf(re, im, l) == TransformRows(old(PlaneOf(re, im, l)), bitReversalTable[..], sinCosTable[..], size, inverse)
    {
      var n := size;
      ghost var t, T := bitReversalTable[..], sinCosTable[..];
      ghost var P0 := Planes3(re, im);
      ghost var R := seq(3, l requires 0 <= l < 3 => TransformRows(P0[l], t, T, n, inverse));
      SplicedStart(R, P0, n);
      TransformRowsFrom(inverse, tempReal, tempImag, P0, R);
      SplicedEnd(R, P0, n);
    }

    /** The loop of the x-axis pass, from a snapshot P0 of the planes and their
        row transforms R. */
    method TransformRowsFrom(inverse: bool, tempReal: array2<real>, tempImag: array2<real>,
                             ghost P0: seq<Plane>, ghost R: seq<Plane>)
      requires Ready() && IsLines(tempReal, tempImag, size)
      requires |P0| == 3 && |R| == 3
      requires forall l :: 0 <= l < 3 ==> |P0[l]| == size && |R[l]| == size
      requires forall l :: 0 <= l < 3 ==>
                 IsPlane(P0[l], size) && R[l] == TransformRows(P0[l], bitReversalTable[..], sinCosTable[..], size, inverse)
      requires Planes3(re, im) == Spliced(R, P0, 0, size)
      modifies re, im, tempReal, tempImag
      ensures Planes3(re, im) == Spliced(R, P0, size, size)
    {
      ghost var t, T := bitReversalTable[..], sinCosTable[..];
      for y := 0 to size
        invariant Planes3(re, im) == Spliced(R, P0, y, size)
      {
        ghost var before := Planes3(re, im);
        TransformRow(inverse, tempReal, tempImag, y);
        SplicedStep(before, Planes3(re, im), P0, R, t, T, size, inverse, y);
      }
    }

    /** One turn of the x-axis pass: row y of every plane is copied into the
        scratch lines, transformed and copied back; the other rows are kept. */
    method TransformRow(inverse: bool, tempReal: array2<real>, tempImag: array2<real>, y: nat)
      requires Ready() && IsLines(tempReal, tempImag, size) && y < size
      modifies re, im, tempReal, tempImag
      ensures forall l :: 0 <= l < 3 ==>
                PlaneOf(re, im, l)
                == old(PlaneOf(re, im, l))[y := Transform1d(old(PlaneOf(re, im, l))[y],
                                                           bitReversalTable[..], sinCosTable[..], size, inverse)]
    {
      GatherRow(re, im, y, tempReal, tempImag);
      Fft1d(tempReal, tempImag, inverse);
      ScatterRow(tempReal, tempImag, re, im, y);
    }

    /** The y-axis pass of `fft2d`: the same for each column, so that the columns of
        every plane are replaced by their transforms. */
    method TransformEveryColumn(inverse: bool, tempReal: array2<real>, tempImag: array2<real>)
      requires Ready() && IsLines(tempReal, tempImag, size)
      modifies re, im, tempReal, tempImag
      ensures forall l :: 0 <= l < 3 ==>
                PlaneOf(re, im, l)
                == Transposed(TransformRows(Transposed(old(PlaneOf(re, im, l)), size),
                                            bitReversalTable[..], sinCosTable[..], size, inverse), size)
    {
      var n := size;
      ghost var t, T := bitReversalTable[..], sinCosTable[..];
      ghost var P0 := Planes3(re, im);
      ghost var C := Transposes(P0, n);
      ghost var D := seq(3, l requires 0 <= l < 3 => TransformRows(C[l], t, T, n, inverse));
      SplicedStart(D, C, n);
      TransformColumnsFrom(inverse, tempReal, tempImag, C, D);
      SplicedEnd(D, C, n);
      forall l | 0 <= l < 3
        ensures PlaneOf(re, im, l) == Transposed(D[l], n)
      {
        TransposedTwice(PlaneOf(re, im, l), n);
      }
    }

    /** The loop of the y-axis pass, on the transposed planes: C holds the columns
        of the snapshot as rows, D their transforms. */
    method TransformColumnsFrom(inverse: bool, tempReal: array2<real>, tempImag: array2<real>,
                                ghost C: seq<Plane>, ghost D: seq<Plane>)
      requires Ready() && IsLines(tempReal, tempImag, size)
      requires |C| == 3 && |D| == 3
      requires forall l :: 0 <= l < 3 ==> |C[l]| == size && |D[l]| == size
      requires forall l :: 0 <= l < 3 ==>
                 IsPlane(C[l], size) && D[l] == TransformRows(C[l], bitReversalTable[..], sinCosTable[..], size, inverse)
      requires Transposes(Planes3(re, im), size) == Spliced(D, C, 0, size)
      modifies re, im, tempReal, tempImag
      ensures Transposes(Planes3(re, im), size) == Spliced(D, C, size, size)
    {
      ghost var t, T := bitReversalTable[..], sinCosTable[..];
      for x := 0 to size
        invariant Transposes(Planes3(re, im), size) == Spliced(D, C, x, size)
      {
        ghost var before := Transposes(Planes3(re, im), size);
        TransformColumn(inverse, tempReal, tempImag, x);
        SplicedStep(before, Transposes(Planes3(re, im), size), C, D, t, T, size, inverse, x);
      }
    }

    /** One turn of the y-axis pass: column x of every plane is copied into the
        scratch lines, transformed and copied back; the other columns are kept. */
    method TransformColumn(inverse: bool, tempReal: array2<real>, tempImag: array2<real>, x: nat)
      requires Ready() && IsLines(tempReal, tempImag, size) && x < size
      modifies re, im, tempReal, tempImag
      ensures forall l :: 0 <= l < 3 ==>
                Transposed(PlaneOf(re, im, l), size)
                == Transposed(old(PlaneOf(re, im, l)), size)[x := Transform1d(Transposed(old(PlaneOf(re, im, l)), size)[x],
                                                                             bitReversalTable[..], sinCosTable[..], size, inverse)]
    {
      GatherColumn(re, im, x, tempReal, tempImag);
      Fft1d(tempReal, tempImag, inverse);
      ScatterColumn(tempReal, tempImag, re, im, x);
    }

    /** `swap()`: for x, y below size / 2, exchange (x, y) with
        (x + size/2, y + size/2) and (x, y + size/2) with (x + size/2, y) in every
        plane, which moves the zero frequency to the centre. */
    method Swap()
      requires Valid()
      modifies re, im
      ensures forall l :: 0 <= l < 3 ==> PlaneOf(re, im, l) == Swapped(old(PlaneOf(re, im, l)), size)
    {
      var n := size;
      var length := n / 2;
      ghost var P0 := Planes3(re, im);
      for y := 0 to length
        invariant SwapPartly(re, im, P0, y, 0)
      {
        for x := 0 to length
          invariant SwapPartly(re, im, P0, y, x)
        {
          SwapStep(re, im, P0, x, y);
        }
        SwapNextRow(re, im, P0, y);
      }
      SwapComplete(re, im, P0);
    }

    /** The loops shared by `highPassFilter`, `lowPassFilter` and `bandPassFilter`:
        x and y run over [-size/2, size/2), and the entry (x + size/2, y + size/2)
        of every plane is set to 0 + 0i when the mask selects the distance
        sqrt(x^2 + y^2). */
    method ApplyMask(m: Mask)
      requires Valid()
      modifies re, im
      ensures forall l :: 0 <= l < 3 ==> PlaneOf(re, im, l) == Masked(old(PlaneOf(re, im, l)), size, m, math)
    {
      var n := size;
      var n2: int := n / 2;
      ghost var P0 := Planes3(re, im);
      for y := -n2 to n2
        invariant MaskedUpTo(re, im, P0, y + n2, 0, m, math)
      {
        for x := -n2 to n2
          invariant MaskedUpTo(re, im, P0, y + n2, x + n2, m, math)
        {
          MaskPoint(re, im, P0, x, y, m, math);
        }
      }
      forall l | 0 <= l < 3
        ensures PlaneOf(re, im, l) == Masked(P0[l], n, m, math)
      {
        PlaneFromEntries(re, im, l, Masked(P0[l], n, m, math));
      }
    }

    /** `highPassFilter(radius)`: clears the entries closer to the centre than radius. */
    method HighPassFilter(radius: real)
      requires Valid()
      modifies re, im
      ensures forall l :: 0 <= l < 3 ==> PlaneOf(re, im, l) == Masked(old(PlaneOf(re, im, l)), size, HighPass(radius), math)
    {
      ApplyMask(HighPass(radius));
    }

    /** `lowPassFilter(radius)`: clears the entries farther from the centre than radius. */
    method LowPassFilter(radius: real)
      requires Valid()
      modifies re, im
      ensures forall l :: 0 <= l < 3 ==> PlaneOf(re, im, l) == Masked(old(PlaneOf(re, im, l)), size, LowPass(radius), math)
    {
      ApplyMask(LowPass(radius));
    }

    /** `bandPassFilter(radius, bandwidth)`: clears the entries outside the ring
        from radius to radius + bandwidth. */
    method BandPassFilter(radius: real, bandwidth: real)
      requires Valid()
      modifies re, im
      ensures forall l :: 0 <= l < 3 ==>
                PlaneOf(re, im, l) == Masked(old(PlaneOf(re, im, l)), size, BandPass(radius, bandwidth), math)
    {
      ApplyMask(BandPass(radius, bandwidth));
    }

    /** `highFrequencyAmplifier(radius, radiusSize, level)`: entries at distance r of
        at least radius are multiplied by level beyond radius + radiusSize and by a
        gain ramping from 1 to level in between; nearer entries are skipped. */
    method HighFrequencyAmplifier(radius: real, radiusSize: real, level: real)
      requires Valid() && radiusSize != 0.0
      modifies re, im
      ensures forall l :: 0 <= l < 3 ==>
                PlaneOf(re, im, l) == Amplified(old(PlaneOf(re, im, l)), size, radius, radiusSize, level, math)
    {
      var n := size;
      var n2: int := n / 2;
      ghost var P0 := Planes3(re, im);
      for y := -n2 to n2
        invariant AmplifiedUpTo(re, im, P0, y + n2, 0, radius, radiusSize, level, math)
      {
        for x := -n2 to n2
          invariant AmplifiedUpTo(re, im, P0, y + n2, x + n2, radius, radiusSize, level, math)
        {
          AmplifyPoint(re, im, P0, x, y, radius, radiusSize, level, math);
        }
      }
      forall l | 0 <= l < 3
        ensures PlaneOf(re, im, l) == Amplified(P0[l], n, radius, radiusSize, level, math)
      {
        PlaneFromEntries(re, im, l, Amplified(P0[l], n, radius, radiusSize, level, math));
      }
    }
  }

  // ---------------------------------------------------------------------------
  // The three passes of `_makeCosSinTable` over a freshly allocated table

  /** The recurrence and the fixed entries 0, n/4 and n/8. */
  method FillFirstEighth(table: array<real>, n: nat, math: MathLib)
    requires IsSize(n) && n > 0 && table.Length == TableLength(n)
    modifies table
    ensures FirstEighth(table[..], n, math)
  {
    SizeFractions(n);
    var n4, n8 := n / 4, n / 8;
    assert n8 <= n4 < table.Length;
    table[n4] := 1.0;
    table[0] := 0.0;
    RunRecurrence(table, n, math, n4, n8);
    if n8 != 0 {
      table[n8] := math.sqrt(0.5);
    }
  }

  /** The recurrence loop of `_makeCosSinTable`: turn i writes the sine to entry i
      and the cosine to entry n/4 - i, for 0 < i < n/8; entries 0 and n/4 keep
      the 0 and 1 already there. */
  method RunRecurrence(table: array<real>, n: nat, math: MathLib, n4: nat, n8: nat)
    requires n > 0 && n8 <= n4 < table.Length && (n8 > 0 ==> n4 - n8 == n8)
    requires table[0] == 0.0 && (n4 > 0 ==> table[n4] == 1.0)
    modifies table
    ensures table[0] == 0.0 && (n4 > 0 ==> table[n4] == 1.0)
    ensures forall p {:trigger table[p]} :: 1 <= p < n8 ==> table[p] == Run(n, math, p).s
    ensures forall p {:trigger table[p]} :: 1 <= p < n8 ==> table[n4 - p] == Run(n, math, p).c
  {
    var dc := InitialDecrement(n, math);
    var ds := InitialIncrement(dc, math);
    var c := 1.0;
    var s := 0.0;
    var t := 2.0 * dc;
    var i := 1;
    while i < n8
      invariant 1 <= i <= (if n8 > 0 then n8 else 1)
      invariant Oscillator(c, dc, s, ds) == Run(n, math, i - 1)
      invariant t == 2.0 * InitialDecrement(n, math)
      invariant table[0] == 0.0 && (n4 > 0 ==> table[n4] == 1.0)
      invariant forall p {:trigger table[p]} :: 1 <= p < i ==> table[p] == Run(n, math, p).s
      invariant forall q {:trigger table[q]} :: n4 - i < q < n4 ==> table[q] == Run(n, math, n4 - q).c
    {
      ghost var before := Oscillator(c, dc, s, ds);
      c := c - dc;
      dc := dc + t * c;
      s := s + ds;
      ds := ds - t * s;
      StepParts(before, t, c, dc, s, ds);
      assert i < n8 < n4 - i;
      table[i] := s;
      table[n4 - i] := c;
      i := i + 1;
    }
    forall p | 1 <= p < n8
      ensures table[n4 - p] == Run(n, math, p).c
    {
      assert n4 - (n4 - p) == p;
    }
  }

  /** Entries n/2 - i, for i < n/4, copied from entries i; nothing at or below n/4 changes. */
  method MirrorSecondEighth(table: array<real>, n: nat)
    requires IsSize(n) && n > 0 && table.Length == TableLength(n)
    modifies table
    ensures Mirrored(table[..], n)
    ensures forall p :: 0 <= p <= n / 4 ==> table[p] == old(table[p])
  {
    SizeFractions(n);
    var n2, n4 := n / 2, n / 4;
    var i := 0;
    while i < n4
      invariant 0 <= i <= n4
      invariant forall p :: 0 <= p < i ==> table[n2 - p] == table[p]
      invariant forall p :: 0 <= p < table.Length && !(n2 - i < p <= n2) ==> table[p] == old(table[p])
    {
      table[n2 - i] := table[i];
      i := i + 1;
    }
  }

  /** Entries n/2 + i, for i < n/2 + n/4, set to minus entry i, in increasing order
      of i; nothing below n/2 changes. */
  method NegateFromHalf(table: array<real>, n: nat)
    requires IsSize(n) && n > 0 && table.Length == TableLength(n)
    modifies table
    ensures Negated(table[..], n)
    ensures forall p :: 0 <= p < table.Length && (p < n / 2 || p >= n / 2 + n / 2 + n / 4) ==> table[p] == old(table[p])
  {
    SizeFractions(n);
    var n2 := n / 2;
    var n2p4 := n2 + n / 4;
    var i := 0;
    while i < n2p4
      invariant 0 <= i <= n2p4
      invariant forall p :: 0 <= p < i ==> table[p + n2] == -table[p]
      invariant forall p :: 0 <= p < table.Length && (p < n2 || p >= i + n2) ==> table[p] == old(table[p])
    {
      table[i + n2] := -table[i];
      i := i + 1;
    }
  }

  /** The inner `while (k <= j)` loop of `_makeBitReversalTable` and the `j += k`
      after it: from the reversal of i - 1, the reversal of i. The loop always
      stops, because the reversal of i - 1 < n - 1 is not all ones. */
  method NextReversed(j0: nat, n: nat, ghost L: nat, ghost i: nat) returns (j: nat)
    requires L >= 1 && n == Pow2(L) && 1 <= i < n && j0 == Reverse(i - 1, L)
    ensures j == Reverse(i, L)
  {
    j := j0;
    var k: nat := n / 2;
    CarryStart(n, L, i);
    while k <= j
      invariant IsPowerOfTwo(k) && j < 2 * k && j + 1 != 2 * k
      invariant CarryDown(j, k) == Reverse(i, L)
      decreases k
    {
      CarryStep(j, k);
      j := j - k;
      k := k / 2;
    }
    j := j + k;
  }

  /** Entry to the carry loop: k = n / 2 is a power of two, and the reversal of
      i - 1 is below 2k without being 2k - 1 (all ones). */
  lemma CarryStart(n: nat, L: nat, i: nat)
    requires L >= 1 && n == Pow2(L) && 1 <= i < n
    ensures var k, j := n / 2, Reverse(i - 1, L);
            IsPowerOfTwo(k) && j < 2 * k && j + 1 != 2 * k && CarryDown(j, k) == Reverse(i, L)
  {
    var h := Pow2(L - 1);
    assert n == 2 * h;
    assert n / 2 == h;
    ReverseIncrement(i - 1, L);
    Pow2IsPowerOfTwo(L - 1);
    ReversedNotAllOnes(i - 1, L);
  }

  /** One turn of the carry loop keeps its invariant. */
  lemma CarryStep(j: nat, k: nat)
    requires IsPowerOfTwo(k) && k <= j < 2 * k && j + 1 != 2 * k
    ensures k >= 2 && IsPowerOfTwo(k / 2) && 2 * (k / 2) == k
    ensures CarryDown(j - k, k / 2) == CarryDown(j, k)
  {
  }

  /** The loading loops of `init`: channel j of pixel (x, y) into entry [j, y, x]
      of fresh real planes, zero into the imaginary planes; the alpha byte is
      skipped. */
  method LoadPixels(n: nat, pixels: seq<byte>) returns (reals: array3<real>, imags: array3<real>)
    requires |pixels| == 4 * n * n
    ensures fresh(reals) && fresh(imags) && IsPlanes(reals, imags, n)
    ensures forall j, y, x :: 0 <= j < 3 && 0 <= y < n && 0 <= x < n ==>
              reals[j, y, x] == Pixel(pixels, n, x, y, j) && imags[j, y, x] == 0.0
  {
    reals := new real[3, n, n];
    imags := new real[3, n, n];
    var y := 0;
    while y < n
      invariant 0 <= y <= n
      invariant forall j, y', x {:trigger reals[j, y', x]} :: 0 <= j < 3 && 0 <= y' < y && 0 <= x < n ==>
                  reals[j, y', x] == Pixel(pixels, n, x, y', j)
      invariant forall j, y', x {:trigger imags[j, y', x]} :: 0 <= j < 3 && 0 <= y' < y && 0 <= x < n ==>
                  imags[j, y', x] == 0.0
    {
      var x := 0;
      while x < n
        invariant 0 <= x <= n
        invariant forall j, y', x' {:trigger reals[j, y', x']} ::
                    0 <= j < 3 && 0 <= y' < n && 0 <= x' < n && (y' < y || (y' == y && x' < x)) ==>
                    reals[j, y', x'] == Pixel(pixels, n, x', y', j)
        invariant forall j, y', x' {:trigger imags[j, y', x']} ::
                    0 <= j < 3 && 0 <= y' < n && 0 <= x' < n && (y' < y || (y' == y && x' < x)) ==>
                    imags[j, y', x'] == 0.0
      {
        var j := 0;
        while j < 3
          invariant 0 <= j <= 3
          invariant forall j', y', x' {:trigger reals[j', y', x']} ::
                      0 <= j' < 3 && 0 <= y' < n && 0 <= x' < n && (y' < y || (y' == y && (x' < x || (x' == x && j' < j)))) ==>
                      reals[j', y', x'] == Pixel(pixels, n, x', y', j')
          invariant forall j', y', x' {:trigger imags[j', y', x']} ::
                      0 <= j' < 3 && 0 <= y' < n && 0 <= x' < n && (y' < y || (y' == y && (x' < x || (x' == x && j' < j)))) ==>
                      imags[j', y', x'] == 0.0
        {
          reals[j, y, x] := Pixel(pixels, n, x, y, j);
          imags[j, y, x] := 0.0;
          j := j + 1;
        }
        x := x + 1;
      }
      y := y + 1;
    }
  }

  // ---------------------------------------------------------------------------
  // The copies between the planes and the scratch lines in `fft2d`

  /** Row y of every plane into the scratch lines. */
  method GatherRow(re: array3<real>, im: array3<real>, y: nat, reals: array2<real>, imags: array2<real>)
    requires IsPlanes(re, im, re.Length1) && IsLines(reals, imags, re.Length1) && y < re.Length1
    modifies reals, imags
    ensures forall l :: 0 <= l < 3 ==> Line(reals, imags, l) == PlaneOf(re, im, l)[y]
  {
    var n := re.Length1;
    for x := 0 to n
      invariant forall l, p :: 0 <= l < 3 && 0 <= p < x ==> reals[l, p] == re[l, y, p] && imags[l, p] == im[l, y, p]
    {
      for j := 0 to 3
        invariant forall l, p :: 0 <= l < 3 && 0 <= p < n && (p < x || (p == x && l < j)) ==>
                    reals[l, p] == re[l, y, p] && imags[l, p] == im[l, y, p]
      {
        reals[j, x] := re[j, y, x];
        imags[j, x] := im[j, y, x];
      }
    }
    forall l | 0 <= l < 3
      ensures Line(reals, imags, l) == PlaneOf(re, im, l)[y]
    {
      LineFromEntries(reals, imags, l, PlaneOf(re, im, l)[y]);
    }
  }

  /** The scratch lines back into row y of every plane; the other rows are kept. */
  method ScatterRow(reals: array2<real>, imags: array2<real>, re: array3<real>, im: array3<real>, y: nat)
    requires IsPlanes(re, im, re.Length1) && IsLines(reals, imags, re.Length1) && y < re.Length1
    modifies re, im
    ensures forall l :: 0 <= l < 3 ==> PlaneOf(re, im, l) == old(PlaneOf(re, im, l))[y := Line(reals, imags, l)]
  {
    var n := re.Length1;
    for x := 0 to n
      invariant forall l, r, c {:trigger re[l, r, c]} :: 0 <= l < 3 && 0 <= r < n && 0 <= c < n ==>
                  re[l, r, c] == if r == y && c < x then reals[l, c] else old(re[l, r, c])
      invariant forall l, r, c {:trigger im[l, r, c]} :: 0 <= l < 3 && 0 <= r < n && 0 <= c < n ==>
                  im[l, r, c] == if r == y && c < x then imags[l, c] else old(im[l, r, c])
    {
      for j := 0 to 3
        invariant forall l, r, c {:trigger re[l, r, c]} :: 0 <= l < 3 && 0 <= r < n && 0 <= c < n ==>
                    re[l, r, c] == if r == y && (c < x || (c == x && l < j)) then reals[l, c] else old(re[l, r, c])
        invariant forall l, r, c {:trigger im[l, r, c]} :: 0 <= l < 3 && 0 <= r < n && 0 <= c < n ==>
                    im[l, r, c] == if r == y && (c < x || (c == x && l < j)) then imags[l, c] else old(im[l, r, c])
      {
        re[j, y, x] := reals[j, x];
        im[j, y, x] := imags[j, x];
      }
    }
    forall l | 0 <= l < 3
      ensures PlaneOf(re, im, l) == old(PlaneOf(re, im, l))[y := Line(reals, imags, l)]
    {
      PlaneFromEntries(re, im, l, old(PlaneOf(re, im, l))[y := Line(reals, imags, l)]);
    }
  }

  /** Column x of every plane into the scratch lines. */
  method GatherColumn(re: array3<real>, im: array3<real>, x: nat, reals: array2<real>, imags: array2<real>)
    requires IsPlanes(re, im, re.Length1) && IsLines(reals, imags, re.Length1) && x < re.Length1
    modifies reals, imags
    ensures forall l :: 0 <= l < 3 ==> Line(reals, imags, l) == Transposed(PlaneOf(re, im, l), re.Length1)[x]
  {
    var n := re.Length1;
    for y := 0 to n
      invariant forall l, p :: 0 <= l < 3 && 0 <= p < y ==> reals[l, p] == re[l, p, x] && imags[l, p] == im[l, p, x]
    {
      for j := 0 to 3
        invariant forall l, p :: 0 <= l < 3 && 0 <= p < n && (p < y || (p == y && l < j)) ==>
                    reals[l, p] == re[l, p, x] && imags[l, p] == im[l, p, x]
      {
        reals[j, y] := re[j, y, x];
        imags[j, y] := im[j, y, x];
      }
    }
    forall l | 0 <= l < 3
      ensures Line(reals, imags, l) == Transposed(PlaneOf(re, im, l), n)[x]
    {
      LineFromEntries(reals, imags, l, Transposed(PlaneOf(re, im, l), n)[x]);
    }
  }

  /** The scratch lines back into column x of every plane; the other columns are kept. */
  method ScatterColumn(reals: array2<real>, imags: array2<real>, re: array3<real>, im: array3<real>, x: nat)
    requires IsPlanes(re, im, re.Length1) && IsLines(reals, imags, re.Length1) && x < re.Length1
    modifies re, im
    ensures forall l :: 0 <= l < 3 ==>
              Transposed(PlaneOf(re, im, l), re.Length1)
              == Transposed(old(PlaneOf(re, im, l)), re.Length1)[x := Line(reals, imags, l)]
  {
    var n := re.Length1;
    for y := 0 to n
      invariant forall l, r, c {:trigger re[l, r, c]} :: 0 <= l < 3 && 0 <= r < n && 0 <= c < n ==>
                  re[l, r, c] == if c == x && r < y then reals[l, r] else old(re[l, r, c])
      invariant forall l, r, c {:trigger im[l, r, c]} :: 0 <= l < 3 && 0 <= r < n && 0 <= c < n ==>
                  im[l, r, c] == if c == x && r < y then imags[l, r] else old(im[l, r, c])
    {
      for j := 0 to 3
        invariant forall l, r, c {:trigger re[l, r, c]} :: 0 <= l < 3 && 0 <= r < n && 0 <= c < n ==>
                    re[l, r, c] == if c == x && (r < y || (r == y && l < j)) then reals[l, r] else old(re[l, r, c])
        invariant forall l, r, c {:trigger im[l, r, c]} :: 0 <= l < 3 && 0 <= r < n && 0 <= c < n ==>
                    im[l, r, c] == if c == x && (r < y || (r == y && l < j)) then imags[l, r] else old(im[l, r, c])
      {
        re[j, y, x] := reals[j, y];
        im[j, y, x] := imags[j, y];
      }
    }
    forall l | 0 <= l < 3
      ensures Transposed(PlaneOf(re, im, l), n) == Transposed(old(PlaneOf(re, im, l)), n)[x := Line(reals, imags, l)]
    {
      var Q := Transposed(old(PlaneOf(re, im, l)), n)[x := Line(reals, imags, l)];
      PlaneFromEntries(re, im, l, Transposed(Q, n));
      TransposedTwice(Q, n);
    }
  }

  /** One more line of a pass: if lines before k already hold their transforms
      (taken from R) and the rest still the input, transforming line k extends
      the prefix by one. */
  lemma SpliceTransformed(before: Plane, after: Plane, P: Plane, R: Plane, t: seq<nat>, T: seq<real>,
                          n: nat, inverse: bool, k: nat)
    requires IsBitReversalTable(t, n) && |T| == TableLength(n) && IsPlane(P, n) && k < n
    requires R == TransformRows(P, t, T, n, inverse)
    requires before == R[..k] + P[k..]
    requires HasLength(before[k], n)
    requires after == before[k := Transform1d(before[k], t, T, n, inverse)]
    ensures after == R[..k + 1] + P[k + 1..]
  {
    assert before[k] == P[k];
    SpliceStep(R, P, k, R[k]);
  }

  /** Planes whose first k lines come from R and the others from P. */
  function Spliced(R: seq<Plane>, P: seq<Plane>, k: nat, n: nat): (s: seq<Plane>)
    requires |R| == 3 && |P| == 3 && k <= n
    requires forall l :: 0 <= l < 3 ==> |R[l]| == n && |P[l]| == n
    ensures |s| == 3 && forall l :: 0 <= l < 3 ==> s[l] == R[l][..k] + P[l][k..]
  {
    seq(3, l requires 0 <= l < 3 => R[l][..k] + P[l][k..])
  }

  /** Transforming line k of every plane extends the spliced prefix by one. */
  lemma SplicedStep(before: seq<Plane>, after: seq<Plane>, P: seq<Plane>, R: seq<Plane>,
                    t: seq<nat>, T: seq<real>, n: nat, inverse: bool, k: nat)
    requires IsBitReversalTable(t, n) && |T| == TableLength(n) && k < n
    requires |P| == 3 && |R| == 3 && |after| == 3
    requires forall l :: 0 <= l < 3 ==> |P[l]| == n && |R[l]| == n
    requires forall l :: 0 <= l < 3 ==> IsPlane(P[l], n) && R[l] == TransformRows(P[l], t, T, n, inverse)
    requires before == Spliced(R, P, k, n)
    requires forall l :: 0 <= l < 3 ==>
               (HasLength(before[l][k], n) && after[l] == before[l][k := Transform1d(before[l][k], t, T, n, inverse)])
    ensures after == Spliced(R, P, k + 1, n)
  {
    forall l | 0 <= l < 3
      ensures after[l] == R[l][..k + 1] + P[l][k + 1..]
    {
      SpliceTransformed(before[l], after[l], P[l], R[l], t, T, n, inverse, k);
    }
  }

  lemma SplicedStart(R: seq<Plane>, P: seq<Plane>, n: nat)
    requires |R| == 3 && |P| == 3
    requires forall l :: 0 <= l < 3 ==> |R[l]| == n && |P[l]| == n
    ensures Spliced(R, P, 0, n) == P
  {
    forall l | 0 <= l < 3
      ensures R[l][..0] + P[l][0..] == P[l]
    {
      assert P[l][0..] == P[l];
    }
  }

  lemma SplicedEnd(R: seq<Plane>, P: seq<Plane>, n: nat)
    requires |R| == 3 && |P| == 3
    requires forall l :: 0 <= l < 3 ==> |R[l]| == n && |P[l]| == n
    ensures Spliced(R, P, n, n) == R
  {
    forall l | 0 <= l < 3
      ensures R[l][..n] + P[l][n..] == R[l]
    {
      PrefixComplete(R[l], P[l], n);
    }
  }

  /** A prefix of length |a| taken from a is all of a. */
  lemma PrefixComplete<T>(a: seq<T>, b: seq<T>, n: nat)
    requires |a| == n && |b| == n
    ensures a[..n] + b[n..] == a
  {
    assert b[n..] == [];
  }

  /** Every plane of a snapshot, transposed. */
  function Transposes(P3: seq<Plane>, n: nat): (s: seq<Plane>)
    requires |P3| == 3 && forall l :: 0 <= l < 3 ==> IsPlane(P3[l], n)
    ensures |s| == 3 && forall l :: 0 <= l < 3 ==> s[l] == Transposed(P3[l], n)
  {
    seq(3, l requires 0 <= l < 3 => Transposed(P3[l], n))
  }

  /** Replacing entry k of "a up to k, then b" by a[k] moves the boundary by one. */
  lemma SpliceStep<T>(a: seq<T>, b: seq<T>, k: nat, v: T)
    requires |a| == |b| && k < |a| && v == a[k]
    ensures (a[..k] + b[k..])[k := v] == a[..k + 1] + b[k + 1..]
  {
  }

  // ---------------------------------------------------------------------------
  // Entry updates of `swap` and the filters

  /** A coordinate's position inside its half of the side: v for v < h, else v - h. */
  function Base(v: nat, h: nat): nat
  {
    if v < h then v else v - h
  }

  /** Whether `swap`, at row y and column x of its loops over the first quadrant,
      has already exchanged the entry in column c of row r. */
  predicate QuadrantDone(r: nat, c: nat, h: nat, y: nat, x: nat)
  {
    Base(r, h) < y || (Base(r, h) == y && Base(c, h) < x)
  }

  /** Whether the entry in column c of row r is one of the four that `swap`
      exchanges at (x, y). */
  predicate InQuadrants(r: nat, c: nat, x: nat, y: nat, h: nat)
  {
    (r == y || r == y + h) && (c == x || c == x + h)
  }

  /** For an even side n = 2h: a cell is among the four exchanged at (x, y) exactly
      when both its coordinates have those bases, and its partner is its shift. */
  lemma QuadrantCell(r: nat, c: nat, n: nat, x: nat, y: nat)
    requires IsSize(n) && r < n && c < n
    ensures n >= 2 ==> Base(r, n / 2) < n / 2 && Base(c, n / 2) < n / 2
    ensures n < 2 ==> Shift(r, n) == r && Shift(c, n) == c
    ensures n >= 2 && x < n / 2 && y < n / 2 ==>
      var h := n / 2;
      && (InQuadrants(r, c, x, y, h) <==> Base(r, h) == y && Base(c, h) == x)
      && (InQuadrants(r, c, x, y, h) ==>
            Shift(r, n) == (if r == y then y + h else y) && Shift(c, n) == (if c == x then x + h else x)
            && InQuadrants(Shift(r, n), Shift(c, n), x, y, h))
  {
    SizeFractions(n);
  }

  /** The planes part-way through `swap`, at row y and column x of its loops: the
      exchanged entries hold the entry of P0 at the shifted position, the others
      their entry of P0. */
  ghost predicate SwapPartly(re: array3<real>, im: array3<real>, P0: seq<Plane>, y: nat, x: nat)
    reads re, im
  {
    var n := re.Length1;
    && IsPlanes(re, im, n) && IsSize(n) && |P0| == 3 && (forall l :: 0 <= l < 3 ==> IsPlane(P0[l], n))
    && forall l, r, c {:trigger re[l, r, c]} {:trigger im[l, r, c]} :: 0 <= l < 3 && 0 <= r < n && 0 <= c < n ==>
         var p := SwapSource(r, c, n, y, x);
         re[l, r, c] == P0[l][p.0].re[p.1] && im[l, r, c] == P0[l][p.0].im[p.1]
  }

  /** The cell of P0 whose entry `swap`, at row y and column x of its loops, has
      left in column c of row r: the shifted cell once exchanged, the cell itself
      before. */
  function SwapSource(r: nat, c: nat, n: nat, y: nat, x: nat): (p: (nat, nat))
    requires r < n && c < n
    ensures p.0 < n && p.1 < n
  {
    if QuadrantDone(r, c, n / 2, y, x) then (Shift(r, n), Shift(c, n)) else (r, c)
  }

  /** One exchange at (x, y): the four cells involved take over each other's
      sources; every other cell keeps its own. */
  lemma SwapSourceStep(r: nat, c: nat, n: nat, x: nat, y: nat)
    requires IsSize(n) && r < n && c < n && x < n / 2 && y < n / 2
    ensures var h := n / 2;
      SwapSource(r, c, n, y, x + 1) ==
        if InQuadrants(r, c, x, y, h)
        then SwapSource(if r == y then y + h else y, if c == x then x + h else x, n, y, x)
        else SwapSource(r, c, n, y, x)
  {
    QuadrantCell(r, c, n, x, y);
    if InQuadrants(r, c, x, y, n / 2) {
      QuadrantCell(Shift(r, n), Shift(c, n), n, x, y);
    }
  }

  /** A finished row of the inner loop is the start of the next one. */
  lemma SwapNextRow(re: array3<real>, im: array3<real>, P0: seq<Plane>, y: nat)
    requires SwapPartly(re, im, P0, y, re.Length1 / 2) && y < re.Length1 / 2
    ensures SwapPartly(re, im, P0, y + 1, 0)
  {
    var n := re.Length1;
    forall r, c | 0 <= r < n && 0 <= c < n
      ensures SwapSource(r, c, n, y, n / 2) == SwapSource(r, c, n, y + 1, 0)
    {
      QuadrantCell(r, c, n, 0, 0);
    }
  }

  /** After the last row every entry holds the entry of P0 at its shifted position. */
  lemma SwapComplete(re: array3<real>, im: array3<real>, P0: seq<Plane>)
    requires SwapPartly(re, im, P0, re.Length1 / 2, 0)
    ensures forall l :: 0 <= l < 3 ==> PlaneOf(re, im, l) == Swapped(P0[l], re.Length1)
  {
    var n := re.Length1;
    forall l | 0 <= l < 3
      ensures PlaneOf(re, im, l) == Swapped(P0[l], n)
    {
      forall r, c | 0 <= r < n && 0 <= c < n
        ensures re[l, r, c] == Swapped(P0[l], n)[r].re[c]
        ensures im[l, r, c] == Swapped(P0[l], n)[r].im[c]
      {
        ShiftInvolution(r, n);
        ShiftInvolution(c, n);
        QuadrantCell(r, c, n, 0, 0);
      }
      PlaneFromEntries(re, im, l, Swapped(P0[l], n));
    }
  }

  /** One turn of the inner loop of `swap`: the exchanges at (x, y). */
  method SwapStep(re: array3<real>, im: array3<real>, ghost P0: seq<Plane>, x: nat, y: nat)
    requires SwapPartly(re, im, P0, y, x) && x < re.Length1 / 2 && y < re.Length1 / 2
    modifies re, im
    ensures SwapPartly(re, im, P0, y, x + 1)
  {
    var n := re.Length1;
    var length := n / 2;
    var yn, xn := y + length, x + length;
    SwapQuadrants(re, im, x, y, xn, yn);
    forall l, r, c | 0 <= l < 3 && 0 <= r < n && 0 <= c < n
      ensures var p := SwapSource(r, c, n, y, x + 1);
        re[l, r, c] == P0[l][p.0].re[p.1] && im[l, r, c] == P0[l][p.0].im[p.1]
    {
      SwapSourceStep(r, c, n, x, y);
    }
  }

  /** The four exchanges of `swap` at (x, y) in every plane:
      (x, y) with (x + h, y + h) and (x, y + h) with (x + h, y), for h = size / 2. */
  method SwapQuadrants(re: array3<real>, im: array3<real>, x: nat, y: nat, xn: nat, yn: nat)
    requires IsPlanes(re, im, re.Length1) && x < re.Length1 / 2 && y < re.Length1 / 2
    requires xn == x + re.Length1 / 2 && yn == y + re.Length1 / 2
    modifies re, im
    ensures forall l, r, c {:trigger re[l, r, c]} {:trigger im[l, r, c]} ::
              0 <= l < 3 && 0 <= r < re.Length1 && 0 <= c < re.Length1 ==>
              var (r', c') := if InQuadrants(r, c, x, y, re.Length1 / 2)
                              then (if r == y then yn else y, if c == x then xn else x) else (r, c);
              re[l, r, c] == old(re[l, r', c']) && im[l, r, c] == old(im[l, r', c'])
  {
    for m := 0 to 3
      invariant forall l, r, c {:trigger re[l, r, c]} {:trigger im[l, r, c]} ::
                  0 <= l < 3 && 0 <= r < re.Length1 && 0 <= c < re.Length1 ==>
                  var (r', c') := if l < m && InQuadrants(r, c, x, y, re.Length1 / 2)
                                  then (if r == y then yn else y, if c == x then xn else x) else (r, c);
                  re[l, r, c] == old(re[l, r', c']) && im[l, r, c] == old(im[l, r', c'])
    {
      SwapCorners(re, m, x, y, xn, yn);
      SwapCorners(im, m, x, y, xn, yn);
    }
  }

  /** The two exchanges of `swap` at (x, y) in plane m of one array. */
  method SwapCorners(a: array3<real>, m: nat, x: nat, y: nat, xn: nat, yn: nat)
    requires m < a.Length0 && x < xn < a.Length2 && y < yn < a.Length1
    modifies a
    ensures a[m, y, x] == old(a[m, yn, xn]) && a[m, yn, xn] == old(a[m, y, x])
    ensures a[m, yn, x] == old(a[m, y, xn]) && a[m, y, xn] == old(a[m, yn, x])
    ensures forall l, r, c {:trigger a[l, r, c]} ::
              0 <= l < a.Length0 && 0 <= r < a.Length1 && 0 <= c < a.Length2
              && (l != m || !((r == y || r == yn) && (c == x || c == xn))) ==>
              a[l, r, c] == old(a[l, r, c])
  {
    a[m, y, x], a[m, yn, xn] := a[m, yn, xn], a[m, y, x];
    a[m, yn, x], a[m, y, xn] := a[m, y, xn], a[m, yn, x];
  }

  /** The innermost loop of the pass filters: entry (x, y) of every plane becomes 0 + 0i. */
  method ClearEntry(re: array3<real>, im: array3<real>, x: nat, y: nat)
    requires IsPlanes(re, im, re.Length1) && x < re.Length1 && y < re.Length1
    modifies re, im
    ensures forall l, r, c {:trigger re[l, r, c]} :: 0 <= l < 3 && 0 <= r < re.Length1 && 0 <= c < re.Length1 ==>
              re[l, r, c] == if r == y && c == x then 0.0 else old(re[l, r, c])
    ensures forall l, r, c {:trigger im[l, r, c]} :: 0 <= l < 3 && 0 <= r < re.Length1 && 0 <= c < re.Length1 ==>
              im[l, r, c] == if r == y && c == x then 0.0 else old(im[l, r, c])
  {
    for j := 0 to 3
      invariant forall l, r, c {:trigger re[l, r, c]} :: 0 <= l < 3 && 0 <= r < re.Length1 && 0 <= c < re.Length1 ==>
                  re[l, r, c] == if l < j && r == y && c == x then 0.0 else old(re[l, r, c])
      invariant forall l, r, c {:trigger im[l, r, c]} :: 0 <= l < 3 && 0 <= r < re.Length1 && 0 <= c < re.Length1 ==>
                  im[l, r, c] == if l < j && r == y && c == x then 0.0 else old(im[l, r, c])
    {
      re[j, y, x] := 0.0;
      im[j, y, x] := 0.0;
    }
  }

  /** The innermost loop of the amplifier: entry (x, y) of every plane multiplied by value. */
  method ScaleEntry(re: array3<real>, im: array3<real>, x: nat, y: nat, value: real)
    requires IsPlanes(re, im, re.Length1) && x < re.Length1 && y < re.Length1
    modifies re, im
    ensures forall l, r, c {:trigger re[l, r, c]} :: 0 <= l < 3 && 0 <= r < re.Length1 && 0 <= c < re.Length1 ==>
              re[l, r, c] == if r == y && c == x then old(re[l, r, c]) * value else old(re[l, r, c])
    ensures forall l, r, c {:trigger im[l, r, c]} :: 0 <= l < 3 && 0 <= r < re.Length1 && 0 <= c < re.Length1 ==>
              im[l, r, c] == if r == y && c == x then old(im[l, r, c]) * value else old(im[l, r, c])
  {
    for j := 0 to 3
      invariant forall l, r, c {:trigger re[l, r, c]} :: 0 <= l < 3 && 0 <= r < re.Length1 && 0 <= c < re.Length1 ==>
                  re[l, r, c] == if l < j && r == y && c == x then old(re[l, r, c]) * value else old(re[l, r, c])
      invariant forall l, r, c {:trigger im[l, r, c]} :: 0 <= l < 3 && 0 <= r < re.Length1 && 0 <= c < re.Length1 ==>
                  im[l, r, c] == if l < j && r == y && c == x then old(im[l, r, c]) * value else old(im[l, r, c])
    {
      re[j, y, x] := re[j, y, x] * value;
      im[j, y, x] := im[j, y, x] * value;
    }
  }

  /** The planes part-way through the pass filters, with the loops at row y and
      column x (counted from 0): the visited entries the mask selects are 0 + 0i,
      every other entry still holds its entry of P0. */
  ghost predicate MaskedUpTo(re: array3<real>, im: array3<real>, P0: seq<Plane>, y: nat, x: nat,
                             m: Mask, math: MathLib)
    reads re, im
  {
    var n := re.Length1;
    && IsPlanes(re, im, n) && |P0| == 3 && (forall l :: 0 <= l < 3 ==> IsPlane(P0[l], n))
    && forall l, r, c {:trigger re[l, r, c]} {:trigger im[l, r, c]} :: 0 <= l < 3 && 0 <= r < n && 0 <= c < n ==>
         if (r < y || (r == y && c < x)) && Cleared(m, c, r, n, math)
         then re[l, r, c] == 0.0 && im[l, r, c] == 0.0
         else re[l, r, c] == P0[l][r].re[c] && im[l, r, c] == P0[l][r].im[c]
  }

  /** The body of the pass filters' loops for the point (x, y), x and y in
      [-size/2, size/2). */
  method MaskPoint(re: array3<real>, im: array3<real>, ghost P0: seq<Plane>, x: int, y: int,
                   m: Mask, math: MathLib)
    requires var n2 := re.Length1 / 2; -n2 <= x < n2 && -n2 <= y < n2 && MaskedUpTo(re, im, P0, y + n2, x + n2, m, math)
    modifies re, im
    ensures var n2 := re.Length1 / 2; MaskedUpTo(re, im, P0, y + n2, x + n2 + 1, m, math)
  {
    var n := re.Length1;
    var n2 := n / 2;
    ghost var c0: nat, r0: nat := x + n2, y + n2;
    var r := math.sqrt((x * x + y * y) as real);
    assert r == Distance(c0, r0, n, math) && Covered(c0, r0, n);
    if Zeroes(m, r) {
      ClearEntry(re, im, x + n2, y + n2);
      forall l, rr, c | 0 <= l < 3 && 0 <= rr < n && 0 <= c < n
        ensures if (rr < r0 || (rr == r0 && c < c0 + 1)) && Cleared(m, c, rr, n, math)
                then re[l, rr, c] == 0.0 && im[l, rr, c] == 0.0
                else re[l, rr, c] == P0[l][rr].re[c] && im[l, rr, c] == P0[l][rr].im[c]
      {
        assert re[l, rr, c] == if rr == r0 && c == c0 then 0.0 else old(re[l, rr, c]);
        assert im[l, rr, c] == if rr == r0 && c == c0 then 0.0 else old(im[l, rr, c]);
      }
    }
  }

  /** The planes part-way through `highFrequencyAmplifier`, with the loops at row
      y and column x (counted from 0): the visited entries hold their amplified
      entry of P0, the others their entry of P0. */
  ghost predicate AmplifiedUpTo(re: array3<real>, im: array3<real>, P0: seq<Plane>, y: nat, x: nat,
                                radius: real, radiusSize: real, level: real, math: MathLib)
    reads re, im
    requires radiusSize != 0.0
  {
    var n := re.Length1;
    && IsPlanes(re, im, n) && |P0| == 3 && (forall l :: 0 <= l < 3 ==> IsPlane(P0[l], n))
    && forall l, r, c {:trigger re[l, r, c]} {:trigger im[l, r, c]} :: 0 <= l < 3 && 0 <= r < n && 0 <= c < n ==>
         if r < y || (r == y && c < x)
         then re[l, r, c] == AmplifiedPart(P0[l][r].re[c], c, r, n, radius, radiusSize, level, math)
              && im[l, r, c] == AmplifiedPart(P0[l][r].im[c], c, r, n, radius, radiusSize, level, math)
         else re[l, r, c] == P0[l][r].re[c] && im[l, r, c] == P0[l][r].im[c]
  }

  /** The body of the amplifier's loops for the point (x, y), x and y in
      [-size/2, size/2); `return` stands for the source's `continue`. */
  method AmplifyPoint(re: array3<real>, im: array3<real>, ghost P0: seq<Plane>, x: int, y: int,
                      radius: real, radiusSize: real, level: real, math: MathLib)
    requires radiusSize != 0.0
    requires var n2 := re.Length1 / 2;
      -n2 <= x < n2 && -n2 <= y < n2 && AmplifiedUpTo(re, im, P0, y + n2, x + n2, radius, radiusSize, level, math)
    modifies re, im
    ensures var n2 := re.Length1 / 2; AmplifiedUpTo(re, im, P0, y + n2, x + n2 + 1, radius, radiusSize, level, math)
  {
    var n := re.Length1;
    var n2 := n / 2;
    var r := math.sqrt((x * x + y * y) as real);
    assert r == Distance(x + n2, y + n2, n, math) && Covered(x + n2, y + n2, n);
    if r < radius {
      KeepPoint(re, im, P0, x + n2, y + n2, radius, radiusSize, level, math);
      return;
    }
    var value;
    if r > radius + radiusSize {
      value := level;
    } else {
      value := ((r - radius) / radiusSize) * (level - 1.0) + 1.0;
    }
    ScalePoint(re, im, P0, x + n2, y + n2, value, radius, radiusSize, level, math);
  }

  /** A point nearer than radius is skipped: what held up to it holds past it. */
  lemma KeepPoint(re: array3<real>, im: array3<real>, P0: seq<Plane>, x: nat, y: nat,
                  radius: real, radiusSize: real, level: real, math: MathLib)
    requires radiusSize != 0.0 && x < re.Length1 && y < re.Length1
    requires AmplifiedUpTo(re, im, P0, y, x, radius, radiusSize, level, math)
    requires Covered(x, y, re.Length1) && Distance(x, y, re.Length1, math) < radius
    ensures AmplifiedUpTo(re, im, P0, y, x + 1, radius, radiusSize, level, math)
  {
    var n := re.Length1;
    assert forall v :: AmplifiedPart(v, x, y, n, radius, radiusSize, level, math) == v;
  }

  /** A point at radius or beyond is multiplied by its gain. */
  method ScalePoint(re: array3<real>, im: array3<real>, ghost P0: seq<Plane>, x: nat, y: nat, value: real,
                    radius: real, radiusSize: real, level: real, math: MathLib)
    requires radiusSize != 0.0 && x < re.Length1 && y < re.Length1
    requires AmplifiedUpTo(re, im, P0, y, x, radius, radiusSize, level, math)
    requires var r := Distance(x, y, re.Length1, math);
      Covered(x, y, re.Length1) && r >= radius && value == Gain(r, radius, radiusSize, level)
    modifies re, im
    ensures AmplifiedUpTo(re, im, P0, y, x + 1, radius, radiusSize, level, math)
  {
    var n := re.Length1;
    assert forall v :: AmplifiedPart(v, x, y, n, radius, radiusSize, level, math) == v * value;
    ScaleEntry(re, im, x, y, value);
    forall l, r, c | 0 <= l < 3 && 0 <= r < n && 0 <= c < n
      ensures if r < y || (r == y && c < x + 1)
              then re[l, r, c] == AmplifiedPart(P0[l][r].re[c], c, r, n, radius, radiusSize, level, math)
                   && im[l, r, c] == AmplifiedPart(P0[l][r].im[c], c, r, n, radius, radiusSize, level, math)
              else re[l, r, c] == P0[l][r].re[c] && im[l, r, c] == P0[l][r].im[c]
    {
      assert re[l, r, c] == if r == y && c == x then old(re[l, r, c]) * value else old(re[l, r, c]);
      assert im[l, r, c] == if r == y && c == x then old(im[l, r, c]) * value else old(im[l, r, c]);
    }
  }

}
