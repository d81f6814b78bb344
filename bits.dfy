/** Powers of two, the bitwise test the source uses to recognise them, and the
    bit-reversal permutation that the FFT's reordering step is built on. */
module Bits {

  function Pow2(k: nat): (r: nat)
    ensures r >= 1
  {
    if k == 0 then 1 else 2 * Pow2(k - 1)
  }

  /** n is 1, 2, 4, 8, ... */
  predicate IsPowerOfTwo(n: nat)
  {
    n == 1 || (n >= 2 && n % 2 == 0 && IsPowerOfTwo(n / 2))
  }

  /** Integer base-2 logarithm of a power of two. */
  function Log2(n: nat): (k: nat)
    requires IsPowerOfTwo(n)
    ensures Pow2(k) == n
  {
    if n == 1 then 0 else 1 + Log2(n / 2)
  }

  lemma {:induction false} Pow2IsPowerOfTwo(k: nat)
    ensures IsPowerOfTwo(Pow2(k))
  {
    if k > 0 {
      Pow2IsPowerOfTwo(k - 1);
      assert Pow2(k) / 2 == Pow2(k - 1);
    }
  }

  lemma {:induction false} Log2OfPow2(k: nat)
    ensures IsPowerOfTwo(Pow2(k)) && Log2(Pow2(k)) == k
  {
    Pow2IsPowerOfTwo(k);
    if k > 0 {
      var p := Pow2(k - 1);
      Log2OfPow2(k - 1);
      assert Pow2(k) == 2 * p && (2 * p) / 2 == p && 2 * p != 1;
      assert Log2(2 * p) == 1 + Log2(p);
    }
  }

  lemma {:induction false} Pow2Add(a: nat, b: nat)
    ensures Pow2(a + b) == Pow2(a) * Pow2(b)
  {
    if a > 0 {
      Pow2Add(a - 1, b);
    }
  }

  lemma {:induction false} Pow2Monotone(a: nat, b: nat)
    requires a <= b
    ensures Pow2(a) <= Pow2(b)
  {
    if a < b {
      Pow2Monotone(a, b - 1);
    }
  }

  /** JavaScript's `a & b` for operands in [0, 2^31), where `ToInt32` leaves
      them unchanged: bit-by-bit conjunction of the binary expansions. */
  function BitAnd(a: nat, b: nat): nat
  {
    if a == 0 || b == 0 then 0
    else 2 * BitAnd(a / 2, b / 2) + (if a % 2 == 1 && b % 2 == 1 then 1 else 0)
  }

  lemma {:induction false} BitAndSelf(m: nat)
    ensures BitAnd(m, m) == m
  {
    if m > 0 {
      BitAndSelf(m / 2);
    }
  }

  /** The source's power-of-two test: for n >= 1, `(n & (n - 1)) === 0`
      holds exactly when n is a power of two. */
  lemma {:induction false} PowerOfTwoTest(n: nat)
    requires n >= 1
    ensures BitAnd(n, n - 1) == 0 <==> IsPowerOfTwo(n)
  {
    if n == 1 {
    } else if n % 2 == 1 {
      // n - 1 differs from n only in the lowest bit
      assert (n - 1) / 2 == n / 2 && (n - 1) % 2 == 0;
      BitAndSelf(n / 2);
      assert BitAnd(n, n - 1) == 2 * (n / 2);
    } else {
      assert (n - 1) / 2 == n / 2 - 1 && n % 2 == 0;
      PowerOfTwoTest(n / 2);
      assert BitAnd(n, n - 1) == 2 * BitAnd(n / 2, n / 2 - 1);
    }
  }

  /** The low `bits` bits of i, in reverse order: the lowest bit of i becomes
      the highest of the result. */
  function Reverse(i: nat, bits: nat): (r: nat)
    ensures r < Pow2(bits)
  {
    if bits == 0 then 0
    else if i % 2 == 1 then Pow2(bits - 1) + Reverse(i / 2, bits - 1)
    else Reverse(i / 2, bits - 1)
  }

  /** Reversing a number whose top bit is set (or clear) moves that bit to the
      bottom. */
  lemma {:induction false} ReverseTopBit(y: nat, top: bool, bits: nat)
    requires bits >= 1 && y < Pow2(bits - 1)
    ensures var x := if top then y + Pow2(bits - 1) else y;
            Reverse(x, bits) == 2 * Reverse(y, bits - 1) + (if top then 1 else 0)
  {
    var x := if top then y + Pow2(bits - 1) else y;
    if bits == 1 {
      assert y == 0;
    } else {
      var h := Pow2(bits - 2);
      assert Pow2(bits - 1) == 2 * h;
      assert x % 2 == y % 2 && x / 2 == (if top then y / 2 + h else y / 2);
      ReverseTopBit(y / 2, top, bits - 1);
    }
  }

  /** Bit reversal is its own inverse. */
  lemma {:induction false} ReverseInvolution(i: nat, bits: nat)
    requires i < Pow2(bits)
    ensures Reverse(Reverse(i, bits), bits) == i
  {
    if bits > 0 {
      var y := Reverse(i / 2, bits - 1);
      ReverseInvolution(i / 2, bits - 1);
      ReverseTopBit(y, i % 2 == 1, bits);
    }
  }

  lemma ReverseInjective(i: nat, j: nat, bits: nat)
    requires i < Pow2(bits) && j < Pow2(bits)
    requires Reverse(i, bits) == Reverse(j, bits)
    ensures i == j
  {
    ReverseInvolution(i, bits);
    ReverseInvolution(j, bits);
  }

  /** What the inner `while (k <= j)` loop of the table builder computes from j:
      clear leading one bits from the top, then set the first zero bit.
      The k == 0 case is never reached from a reversed index below 2^bits - 1. */
  function CarryDown(j: nat, k: nat): nat
    decreases k
  {
    if k == 0 then j else if k <= j then CarryDown(j - k, k / 2) else j + k
  }

  /** Adding one to i is, on reversed bits, a carry that runs from the top. */
  lemma {:induction false} ReverseIncrement(m: nat, bits: nat)
    requires bits >= 1 && m + 1 < Pow2(bits)
    ensures Reverse(m + 1, bits) == CarryDown(Reverse(m, bits), Pow2(bits - 1))
  {
    if m % 2 == 0 {
      ReverseIncrementEven(m, bits);
    } else {
      assert bits >= 2 && m / 2 + 1 < Pow2(bits - 1);
      ReverseIncrement(m / 2, bits - 1);
      ReverseIncrementOdd(m, bits);
    }
  }

  /** The low bit flips on: the reversal gains its top bit, which a one-step
      carry from the top sets. */
  lemma ReverseIncrementEven(m: nat, bits: nat)
    requires bits >= 1 && m + 1 < Pow2(bits) && m % 2 == 0
    ensures Reverse(m + 1, bits) == CarryDown(Reverse(m, bits), Pow2(bits - 1))
  {
    var k := Pow2(bits - 1);
    var low := Reverse(m / 2, bits - 1);
    assert (m + 1) / 2 == m / 2 && (m + 1) % 2 == 1;
    assert Reverse(m, bits) == low && low < k;
    assert Reverse(m + 1, bits) == k + low;
    assert CarryDown(low, k) == low + k;
  }

  /** The low bit flips off: the carry clears the top bit of the reversal and
      goes on as the increment of m / 2. */
  lemma ReverseIncrementOdd(m: nat, bits: nat)
    requires bits >= 2 && m + 1 < Pow2(bits) && m % 2 == 1
    requires Reverse(m / 2 + 1, bits - 1) == CarryDown(Reverse(m / 2, bits - 1), Pow2(bits - 2))
    ensures Reverse(m + 1, bits) == CarryDown(Reverse(m, bits), Pow2(bits - 1))
  {
    var k := Pow2(bits - 1);
    var h := Pow2(bits - 2);
    var low := Reverse(m / 2, bits - 1);
    assert k == 2 * h;
    assert (m + 1) / 2 == m / 2 + 1 && (m + 1) % 2 == 0;
    assert Reverse(m, bits) == k + low;
    assert Reverse(m + 1, bits) == Reverse(m / 2 + 1, bits - 1);
    CarryPastTop(low, k);
    assert k / 2 == h;
  }

  /** With the top bit k set, the carry clears it and moves on to k / 2. */
  lemma CarryPastTop(low: nat, k: nat)
    requires k >= 1
    ensures CarryDown(k + low, k) == CarryDown(low, k / 2)
  {
  }

  /** 2^bits - 1, all ones, reverses to itself. */
  lemma {:induction false} ReverseAllOnes(bits: nat)
    ensures Reverse(Pow2(bits) - 1, bits) == Pow2(bits) - 1
  {
    if bits > 0 {
      var m := Pow2(bits) - 1;
      assert m % 2 == 1 && m / 2 == Pow2(bits - 1) - 1;
      ReverseAllOnes(bits - 1);
    }
  }

  /** Only 2^L - 1 reverses to all ones. */
  lemma ReversedNotAllOnes(m: nat, L: nat)
    requires m + 1 < Pow2(L)
    ensures Reverse(m, L) + 1 != Pow2(L)
  {
    var top := Pow2(L) - 1;
    if Reverse(m, L) == top {
      ReverseAllOnes(L);
      ReverseInjective(m, top, L);
    }
  }

  lemma ReverseOfZero(bits: nat)
    ensures Reverse(0, bits) == 0
  {
  }

  /** Only index 0 reverses to 0. */
  lemma ReverseNonZero(i: nat, bits: nat)
    requires 0 < i < Pow2(bits)
    ensures Reverse(i, bits) > 0
  {
    if Reverse(i, bits) == 0 {
      ReverseOfZero(bits);
      ReverseInjective(i, 0, bits);
    }
  }
}
