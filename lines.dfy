/** The in-place one-dimensional passes of the engine, on "lines": a pair of
    3 x n arrays holding the real and imaginary parts of one row or column of
    each colour channel (the source's `[[], [], []]` scratch arrays). Each pass
    is proved against the value-level definitions of the Spectrum module. */
module LineArrays {
  import opened Bits
  import opened Arith
  import opened Spectrum

  /** Real and imaginary arrays of three lines (one per channel) of length n. */
  predicate IsLines(reals: array2<real>, imags: array2<real>, n: nat)
  {
    reals.Length0 == 3 && imags.Length0 == 3 && reals.Length1 == n && imags.Length1 == n && reals != imags
  }

  /** Line l of a pair of line arrays as a channel. */
  function Line(reals: array2<real>, imags: array2<real>, l: nat): (c: Channel)
    reads reals, imags
    requires IsLines(reals, imags, reals.Length1) && l < 3
    ensures HasLength(c, reals.Length1)
  {
    Channel(seq(reals.Length1, p requires 0 <= p < reals.Length1 reads reals => reals[l, p]),
            seq(imags.Length1, p requires 0 <= p < imags.Length1 reads imags => imags[l, p]))
  }

  lemma LineFromEntries(reals: array2<real>, imags: array2<real>, l: nat, c: Channel)
    requires IsLines(reals, imags, reals.Length1) && l < 3 && HasLength(c, reals.Length1)
    requires forall p :: 0 <= p < reals.Length1 ==> reals[l, p] == c.re[p] && imags[l, p] == c.im[p]
    ensures Line(reals, imags, l) == c
  {
    assert Line(reals, imags, l).re == c.re;
    assert Line(reals, imags, l).im == c.im;
  }

  /** Where entry s comes from when entries p and q are exchanged. */
  function SwapIndex(s: nat, p: nat, q: nat): nat
  {
    if s == p then q else if s == q then p else s
  }

  /** The destructuring swaps of `_fft`: entries p and q exchanged in every line,
      every other entry kept. */
  method SwapEntries(reals: array2<real>, imags: array2<real>, p: nat, q: nat)
    requires IsLines(reals, imags, reals.Length1) && p < q < reals.Length1
    modifies reals, imags
    ensures forall l, s :: 0 <= l < 3 && 0 <= s < reals.Length1 ==>
              reals[l, s] == old(reals[l, SwapIndex(s, p, q)]) && imags[l, s] == old(imags[l, SwapIndex(s, p, q)])
  {
    for l := 0 to 3
      invariant forall l', s :: 0 <= l' < 3 && 0 <= s < reals.Length1 ==>
                  reals[l', s] == old(reals[l', if l' < l then SwapIndex(s, p, q) else s])
                  && imags[l', s] == old(imags[l', if l' < l then SwapIndex(s, p, q) else s])
    {
      reals[l, p], reals[l, q] := reals[l, q], reals[l, p];
      imags[l, p], imags[l, q] := imags[l, q], imags[l, p];
    }
  }

  /** The bit-reversal step of `_fft`: every i whose reversal r is greater than i
      is swapped with r, so each line ends up reordered by the table. */
  method Reorder(reals: array2<real>, imags: array2<real>, table: array<nat>)
    requires IsLines(reals, imags, reals.Length1) && IsBitReversalTable(table[..], reals.Length1)
    modifies reals, imags
    ensures forall l :: 0 <= l < 3 ==> Line(reals, imags, l) == Permuted(old(Line(reals, imags, l)), table[..])
  {
    var n := reals.Length1;
    ghost var t := table[..];
    BitReversalTableIsInvolution(t, n);
    var i := 0;
    while i < n
      invariant 0 <= i <= n
      invariant forall l, p {:trigger reals[l, p]} :: 0 <= l < 3 && 0 <= p < n ==>
                  reals[l, p] == old(reals[l, if p < i || t[p] < i then t[p] else p])
      invariant forall l, p {:trigger imags[l, p]} :: 0 <= l < 3 && 0 <= p < n ==>
                  imags[l, p] == old(imags[l, if p < i || t[p] < i then t[p] else p])
    {
      var r := table[i];
      if i < r {
        SwapEntries(reals, imags, i, r);
      }
      i := i + 1;
    }
    forall l | 0 <= l < 3
      ensures Line(reals, imags, l) == Permuted(old(Line(reals, imags, l)), t)
    {
      LineFromEntries(reals, imags, l, Permuted(old(Line(reals, imags, l)), t));
    }
  }

  /** Entry p of line l as a complex value. */
  function EntryAt(reals: array2<real>, imags: array2<real>, l: nat, p: nat): Complex
    reads reals, imags
    requires IsLines(reals, imags, reals.Length1) && l < 3 && p < reals.Length1
  {
    Complex(reals[l, p], imags[l, p])
  }

  /** The innermost loop of `_fft`: one butterfly on entries k and k + half of
      every line with twiddle (wr, wi); nothing else changes. */
  method ButterflyPair(reals: array2<real>, imags: array2<real>, k: nat, half: nat, wr: real, wi: real)
    requires IsLines(reals, imags, reals.Length1) && half >= 1 && k + half < reals.Length1
    modifies reals, imags
    ensures forall l, p :: 0 <= l < 3 && 0 <= p < reals.Length1 ==>
              EntryAt(reals, imags, l, p)
              == if p == k || p == k + half
                 then Butterfly(p == k + half, old(EntryAt(reals, imags, l, k)), old(EntryAt(reals, imags, l, k + half)), wr, wi)
                 else old(EntryAt(reals, imags, l, p))
  {
    var ik := k + half;
    for l := 0 to 3
      invariant forall l', p :: 0 <= l' < 3 && 0 <= p < reals.Length1 ==>
                  EntryAt(reals, imags, l', p)
                  == if l' < l && (p == k || p == ik)
                     then Butterfly(p == ik, old(EntryAt(reals, imags, l', k)), old(EntryAt(reals, imags, l', ik)), wr, wi)
                     else old(EntryAt(reals, imags, l', p))
    {
      var xr := wr * reals[l, ik] + wi * imags[l, ik];
      var xi := wr * imags[l, ik] - wi * reals[l, ik];
      reals[l, ik] := reals[l, k] - xr;
      reals[l, k] := reals[l, k] + xr;
      imags[l, ik] := imags[l, k] - xi;
      imags[l, k] := imags[l, k] + xi;
    }
  }

  /** Whether the stage loop of `_fft` has already handled index p when it is at
      group j, block m: every earlier group, and the earlier blocks of group j. */
  predicate Handled(p: nat, half: nat, j: nat, m: nat)
    requires half >= 1
  {
    Group(p, half) < j || (Group(p, half) == j && Block(p, half) < m)
  }

  /** The lines part-way through one stage: handled entries hold the stage's value
      computed from the lines at the start of the stage, the others their start value. */
  ghost predicate StagePartly(reals: array2<real>, imags: array2<real>, start: seq<Channel>, tbl: seq<real>,
                              inverse: bool, half: nat, j: nat, m: nat)
    reads reals, imags
    requires IsLines(reals, imags, reals.Length1) && StageShape(reals.Length1, half)
    requires |tbl| == TableLength(reals.Length1) && |start| == 3
    requires forall l :: 0 <= l < 3 ==> |start[l].re| == reals.Length1 && |start[l].im| == reals.Length1
  {
    forall l, p :: 0 <= l < 3 && 0 <= p < reals.Length1 ==>
      EntryAt(reals, imags, l, p)
      == if Handled(p, half, j, m) then StageAt(start[l], tbl, inverse, reals.Length1, half, p) else At(start[l], p)
  }

  /** The stage's values at the pair (k, k + half) of group j, block m. */
  lemma StageAtPairOf(c: Channel, tbl: seq<real>, inverse: bool, n: nat, half: nat, j: nat, m: nat)
    requires StageShape(n, half) && HasLength(c, n) && |tbl| == TableLength(n) && j < half
    requires j + m * (2 * half) < n
    ensures var k, h := j + m * (2 * half), j * Quotient(n, 2 * half);
      k + half < n && h + n / 4 < |tbl|
      && StageAt(c, tbl, inverse, n, half, k) == Butterfly(false, At(c, k), At(c, k + half), tbl[h + n / 4], Sine(tbl, h, inverse))
      && StageAt(c, tbl, inverse, n, half, k + half) == Butterfly(true, At(c, k), At(c, k + half), tbl[h + n / 4], Sine(tbl, h, inverse))
  {
    var k, h := j + m * (2 * half), j * Quotient(n, 2 * half);
    PairLowerAt(half, j, m);
    PairUpperAt(half, j, m);
    StageIndices(n, half, k);
    assert TwiddleIndex(n, half, k) == h && TwiddleIndex(n, half, k + half) == h;
    var wr, wi := tbl[h + n / 4], Sine(tbl, h, inverse);
    StageAtPair(c, tbl, inverse, n, half, k);
    StageAtPair(c, tbl, inverse, n, half, k + half);
    assert StageAt(c, tbl, inverse, n, half, k + half) == Butterfly(true, At(c, k), At(c, k + half), wr, wi);
  }

  /** Once k = j + m * 2 * half has reached n, every index of group j is in an
      earlier block. */
  lemma BlockBelow(n: nat, half: nat, j: nat, m: nat, p: nat)
    requires half >= 1 && p < n && Group(p, half) == j && n <= j + m * (2 * half)
    ensures Block(p, half) < m
  {
    BlockDecomposition(p, half);
    if Block(p, half) >= m {
      MulLessEq(m, Block(p, half), 2 * half);
      assert false;
    }
  }

  /** The twiddle of group j is inside the table. */
  lemma GroupTwiddleInRange(n: nat, half: nat, j: nat)
    requires StageShape(n, half) && j < half
    ensures j * Quotient(n, 2 * half) + n / 4 < TableLength(n)
  {
    PairLowerAt(half, j, 0);
    StageIndices(n, half, j);
  }

  /** One turn of the loop over k in `_fft`: the butterfly at block m of group j
      moves the lines from "handled up to block m" to "handled up to block m + 1". */
  method ButterflyGroupMember(reals: array2<real>, imags: array2<real>, ghost start: seq<Channel>, ghost T: seq<real>,
                              inverse: bool, half: nat, j: nat, k: nat, ghost m: nat, wr: real, wi: real)
    requires IsLines(reals, imags, reals.Length1) && StageShape(reals.Length1, half) && j < half
    requires k == j + m * (2 * half) < reals.Length1
    requires |T| == TableLength(reals.Length1) && |start| == 3
    requires forall l :: 0 <= l < 3 ==> |start[l].re| == reals.Length1 && |start[l].im| == reals.Length1
    requires var h := j * Quotient(reals.Length1, 2 * half);
      h + reals.Length1 / 4 < |T| && wr == T[h + reals.Length1 / 4] && wi == Sine(T, h, inverse)
    requires StagePartly(reals, imags, start, T, inverse, half, j, m)
    modifies reals, imags
    ensures StagePartly(reals, imags, start, T, inverse, half, j, m + 1)
  {
    var n := reals.Length1;
    PairLowerAt(half, j, m);
    PairUpperAt(half, j, m);
    assert k + half < n by {
      UpperInRange(n, half, k);
    }
    assert !Handled(k, half, j, m) && !Handled(k + half, half, j, m);
    ButterflyPair(reals, imags, k, half, wr, wi);
    forall l, p | 0 <= l < 3 && 0 <= p < n
      ensures EntryAt(reals, imags, l, p)
              == if Handled(p, half, j, m + 1) then StageAt(start[l], T, inverse, n, half, p) else At(start[l], p)
    {
      PairMembers(half, j, m, p);
      if p == k || p == k + half {
        StageAtPairOf(start[l], T, inverse, n, half, j, m);
        assert old(EntryAt(reals, imags, l, k)) == At(start[l], k);
        assert old(EntryAt(reals, imags, l, k + half)) == At(start[l], k + half);
      } else {
        assert EntryAt(reals, imags, l, p) == old(EntryAt(reals, imags, l, p));
      }
    }
  }

  /** The middle loop of `_fft` for group j (the source's loop over k): the pairs
      (k, k + half) of group j in every block, with the group's twiddle (wr, wi). */
  method RunGroup(reals: array2<real>, imags: array2<real>, ghost start: seq<Channel>, ghost T: seq<real>,
                  inverse: bool, half: nat, j: nat, wr: real, wi: real)
    requires IsLines(reals, imags, reals.Length1) && StageShape(reals.Length1, half) && j < half
    requires |T| == TableLength(reals.Length1) && |start| == 3
    requires forall l :: 0 <= l < 3 ==> |start[l].re| == reals.Length1 && |start[l].im| == reals.Length1
    requires var h := j * Quotient(reals.Length1, 2 * half);
      h + reals.Length1 / 4 < |T| && wr == T[h + reals.Length1 / 4] && wi == Sine(T, h, inverse)
    requires StagePartly(reals, imags, start, T, inverse, half, j, 0)
    modifies reals, imags
    ensures StagePartly(reals, imags, start, T, inverse, half, j + 1, 0)
  {
    var n := reals.Length1;
    var k := j;
    ghost var m := 0;
    while k < n
      invariant k == j + m * (2 * half)
      invariant StagePartly(reals, imags, start, T, inverse, half, j, m)
      decreases n - k
    {
      ButterflyGroupMember(reals, imags, start, T, inverse, half, j, k, m, wr, wi);
      assert k + 2 * half == j + (m + 1) * (2 * half);
      k := k + 2 * half;
      m := m + 1;
    }
    forall l, p | 0 <= l < 3 && 0 <= p < n
      ensures EntryAt(reals, imags, l, p)
              == if Handled(p, half, j + 1, 0) then StageAt(start[l], T, inverse, n, half, p) else At(start[l], p)
    {
      if Group(p, half) == j {
        BlockBelow(n, half, j, m, p);
      }
    }
  }

  /** One pass of the outer butterfly loop of `_fft` (pair distance `half`, the
      source's i): for each group j the twiddle (table[h + n/4], sign * table[h])
      with h = j * n / (2 * half), applied to the pairs of group j in every block.
      Each line becomes the stage of its previous value. */
  method RunStage(reals: array2<real>, imags: array2<real>, tbl: array<real>, inverse: bool, half: nat)
    requires IsLines(reals, imags, reals.Length1) && StageShape(reals.Length1, half)
    requires tbl.Length == TableLength(reals.Length1)
    modifies reals, imags
    ensures forall l :: 0 <= l < 3 ==>
              Line(reals, imags, l) == Stage(old(Line(reals, imags, l)), tbl[..], inverse, reals.Length1, half)
  {
    var n := reals.Length1;
    ghost var start := seq(3, l requires 0 <= l < 3 reads reals, imags => Line(reals, imags, l));
    ghost var T := tbl[..];
    var n4 := n / 4;
    var d := Quotient(n, 2 * half);
    var h := 0;
    var j := 0;
    while j < half
      invariant 0 <= j <= half && h == j * d
      invariant StagePartly(reals, imags, start, T, inverse, half, j, 0)
    {
      GroupTwiddleInRange(n, half, j);
      var wr := tbl[h + n4];
      var wi := if inverse then -tbl[h] else tbl[h];
      RunGroup(reals, imags, start, T, inverse, half, j, wr, wi);
      h := h + d;
      j := j + 1;
    }
    forall l | 0 <= l < 3
      ensures Line(reals, imags, l) == Stage(start[l], T, inverse, n, half)
    {
      forall p | 0 <= p < n
        ensures reals[l, p] == Stage(start[l], T, inverse, n, half).re[p]
        ensures imags[l, p] == Stage(start[l], T, inverse, n, half).im[p]
      {
        BlockDecomposition(p, half);
        assert EntryAt(reals, imags, l, p) == StageAt(start[l], T, inverse, n, half, p);
      }
      LineFromEntries(reals, imags, l, Stage(start[l], T, inverse, n, half));
    }
  }

  /** The scaling loop of `_fft1d` for an inverse transform: every entry of every
      line multiplied by k. */
  method ScaleLines(reals: array2<real>, imags: array2<real>, k: real)
    requires IsLines(reals, imags, reals.Length1)
    modifies reals, imags
    ensures forall l :: 0 <= l < 3 ==> Line(reals, imags, l) == Scaled(old(Line(reals, imags, l)), k)
  {
    var n := reals.Length1;
    for i := 0 to n
      invariant forall l, p {:trigger reals[l, p]} :: 0 <= l < 3 && 0 <= p < n ==>
                  reals[l, p] == if p < i then old(reals[l, p]) * k else old(reals[l, p])
      invariant forall l, p {:trigger imags[l, p]} :: 0 <= l < 3 && 0 <= p < n ==>
                  imags[l, p] == if p < i then old(imags[l, p]) * k else old(imags[l, p])
    {
      for j := 0 to 3
        invariant forall l, p {:trigger reals[l, p]} :: 0 <= l < 3 && 0 <= p < n ==>
                    reals[l, p] == if p < i || (p == i && l < j) then old(reals[l, p]) * k else old(reals[l, p])
        invariant forall l, p {:trigger imags[l, p]} :: 0 <= l < 3 && 0 <= p < n ==>
                    imags[l, p] == if p < i || (p == i && l < j) then old(imags[l, p]) * k else old(imags[l, p])
      {
        reals[j, i] := reals[j, i] * k;
        imags[j, i] := imags[j, i] * k;
      }
    }
    forall l | 0 <= l < 3
      ensures Line(reals, imags, l) == Scaled(old(Line(reals, imags, l)), k)
    {
      LineFromEntries(reals, imags, l, Scaled(old(Line(reals, imags, l)), k));
    }
  }
}
