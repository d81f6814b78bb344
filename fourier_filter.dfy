/** The WebGL driver of the filter: the size check on the input image and the
    schedule of render passes that runs one 2D transform on the GPU. Each pass draws
    the subtransform shader once into a framebuffer, reading the texture the pass
    before it wrote; the GL calls themselves are abstracted to the uniform and
    framebuffer state they leave behind. */
module FourierFilter {
  import opened Results
  import opened Bits
  import opened Arith

  const FORWARD: int := 1
  const INVERSE: int := 0
  const PING_TEXTURE_UNIT: nat := 0
  const PONG_TEXTURE_UNIT: nat := 1

  const NOT_SQUARE_POWER_OF_TWO := "image should be square and sides should be a power of 2"

  /** `n && (n & (n - 1)) === 0`: zero is falsy, and otherwise clearing the
      lowest set bit must leave nothing. */
  function IsPowerOf2(n: nat): (b: bool)
    ensures b <==> IsPowerOfTwo(n)
  {
    if n == 0 then false
    else
      PowerOfTwoTest(n);
      BitAnd(n, n - 1) == 0
  }

  /** The check at the top of `filter`: it fails, before anything is created,
      unless the image is square with a power-of-two side. */
  function CheckImage(width: nat, height: nat): (o: Outcome<string>)
    ensures o.Pass? <==> width == height && IsPowerOfTwo(width)
    ensures o.Fail? ==> o.error == NOT_SQUARE_POWER_OF_TWO
  {
    if !(width == height && IsPowerOf2(width)) then Fail(NOT_SQUARE_POWER_OF_TWO) else Pass
  }

  /** `log2(resolution) * 2`: one pass per butterfly stage, rows then columns. */
  function Iterations(resolution: nat): (k: nat)
    requires IsPowerOfTwo(resolution)
    ensures k % 2 == 0 && Pow2(k / 2) == resolution
  {
    2 * Log2(resolution)
  }

  /** The framebuffers a pass can draw into: the two scratch ones, the caller's
      output, and whatever was bound before the transform started. */
  datatype Framebuffer = Elsewhere | PingFramebuffer | PongFramebuffer | OutputFramebuffer

  /** The texture unit a scratch framebuffer's texture is bound to (the ping texture
      is built on unit 0 and attached to the ping framebuffer, likewise pong). */
  function UnitOf(f: Framebuffer): (u: nat)
    requires f == PingFramebuffer || f == PongFramebuffer
    ensures u == PING_TEXTURE_UNIT <==> f == PingFramebuffer
  {
    if f == PingFramebuffer then PING_TEXTURE_UNIT else PONG_TEXTURE_UNIT
  }

  /** What one draw call sees: the bound framebuffer and the uniforms
      u_input, u_horizontal, u_forward, u_normalize and u_subtransformSize. */
  datatype Draw = Draw(target: Framebuffer, input: nat, horizontal: bool, forward: int,
                       normalize: int, subtransformSize: nat)

  /** Framebuffer and input unit of pass i, as the if-chain of the loop picks them. */
  function Target(i: nat, iterations: nat): Framebuffer
  {
    if i == 0 then PingFramebuffer
    else if i == iterations - 1 then OutputFramebuffer
    else if i % 2 == 1 then PongFramebuffer
    else PingFramebuffer
  }

  function Input(i: nat, iterations: nat, inputUnit: nat): nat
  {
    if i == 0 then inputUnit
    else if i == iterations - 1 then PING_TEXTURE_UNIT
    else if i % 2 == 1 then PING_TEXTURE_UNIT
    else PONG_TEXTURE_UNIT
  }

  /** u_normalize as pass i sees it: an inverse run sets it to 1 for pass 0 and to
      0 at pass 1; a forward run leaves the value it found. */
  function NormalizeAt(i: nat, direction: int, prior: int): int
  {
    if direction == INVERSE && i == 0 then 1
    else if direction == INVERSE then 0
    else prior
  }

  /** Pass i of a run with the given number of iterations. */
  function PassAt(i: nat, iterations: nat, direction: int, inputUnit: nat, prior: int): Draw
    requires i < iterations && iterations % 2 == 0
  {
    Draw(Target(i, iterations), Input(i, iterations, inputUnit), i < iterations / 2, direction,
         NormalizeAt(i, direction, prior), Pow2(i % (iterations / 2) + 1))
  }

  /** All passes of a run, in order. */
  function Schedule(iterations: nat, direction: int, inputUnit: nat, prior: int): (s: seq<Draw>)
    requires iterations % 2 == 0
    ensures |s| == iterations
    ensures forall i :: 0 <= i < iterations ==> s[i] == PassAt(i, iterations, direction, inputUnit, prior)
  {
    seq(iterations, i requires 0 <= i < iterations => PassAt(i, iterations, direction, inputUnit, prior))
  }

  /** The first pass reads the caller's texture unit and draws into ping. */
  lemma FirstPass(iterations: nat, direction: int, inputUnit: nat, prior: int)
    requires 0 < iterations && iterations % 2 == 0
    ensures PassAt(0, iterations, direction, inputUnit, prior).input == inputUnit
    ensures PassAt(0, iterations, direction, inputUnit, prior).target == PingFramebuffer
  {
  }

  /** The last pass reads the ping unit and draws into the caller's framebuffer,
      and it is the only pass that does. */
  lemma OnlyLastPassWritesOutput(i: nat, iterations: nat, direction: int, inputUnit: nat, prior: int)
    requires i < iterations && iterations % 2 == 0
    ensures PassAt(i, iterations, direction, inputUnit, prior).target == OutputFramebuffer <==> i == iterations - 1
    ensures i == iterations - 1 ==> PassAt(i, iterations, direction, inputUnit, prior).input == PING_TEXTURE_UNIT
  {
  }

  /** Every pass after the first reads the texture the pass before it drew into. */
  lemma PassesChain(i: nat, iterations: nat, direction: int, inputUnit: nat, prior: int)
    requires i + 1 < iterations && iterations % 2 == 0
    ensures var p, q := PassAt(i, iterations, direction, inputUnit, prior),
                        PassAt(i + 1, iterations, direction, inputUnit, prior);
            (p.target == PingFramebuffer || p.target == PongFramebuffer) && q.input == UnitOf(p.target)
  {
    if i > 0 && i % 2 == 0 {
      // an even pass other than the first is never the last, the count being even
      assert i != iterations - 1;
    }
  }

  /** No pass samples the texture it draws into, provided the caller's unit is not
      the ping unit. */
  lemma NoFeedback(i: nat, iterations: nat, direction: int, inputUnit: nat, prior: int)
    requires i < iterations && iterations % 2 == 0 && inputUnit != PING_TEXTURE_UNIT
    ensures var p := PassAt(i, iterations, direction, inputUnit, prior);
            p.target == OutputFramebuffer || p.input != UnitOf(p.target)
  {
    if i > 0 && i % 2 == 0 {
      assert i != iterations - 1;
    }
  }

  /** The first half of the passes runs along rows, the second along columns. */
  lemma HorizontalHalf(i: nat, iterations: nat, direction: int, inputUnit: nat, prior: int)
    requires i < iterations && iterations % 2 == 0
    ensures PassAt(i, iterations, direction, inputUnit, prior).horizontal <==> i < iterations / 2
  {
  }

  /** Each half runs subtransform sizes 2, 4, ..., resolution in increasing order,
      and the second half repeats the first. */
  lemma {:induction false} SubtransformSizes(resolution: nat, i: nat, direction: int, inputUnit: nat, prior: int)
    requires IsPowerOfTwo(resolution) && i < Iterations(resolution) / 2
    ensures var k := Iterations(resolution);
            && PassAt(i, k, direction, inputUnit, prior).subtransformSize == Pow2(i + 1)
            && PassAt(i + k / 2, k, direction, inputUnit, prior).subtransformSize == Pow2(i + 1)
            && Pow2(i + 1) <= resolution
            && (i + 1 == k / 2 ==> Pow2(i + 1) == resolution)
  {
    var k := Iterations(resolution);
    var h := k / 2;
    DivModUnique(i, h, 0, i);
    DivModUnique(i + h, h, 1, i);
    Pow2Monotone(i + 1, h);
  }

  /** The last pass of a run over a resolution above 1 draws the full-size column
      transform from the ping unit into the caller's framebuffer; what it leaves
      bound is the state `filter` finds after the run. */
  lemma LastPass(resolution: nat, direction: int, inputUnit: nat, prior: int)
    requires IsPowerOfTwo(resolution) && 1 < resolution
    ensures var k := Iterations(resolution);
            var d := PassAt(k - 1, k, direction, inputUnit, prior);
            && 0 < k
            && d.target == OutputFramebuffer && d.input == PING_TEXTURE_UNIT
            && !d.horizontal && d.subtransformSize == resolution
            && d.normalize == (if direction == INVERSE then 0 else prior)
  {
    var k := Iterations(resolution);
    // the last pass is the last of the column half
    SubtransformSizes(resolution, k / 2 - 1, direction, inputUnit, prior);
  }

  /** An inverse run normalises in its first pass only; a forward run passes on the
      u_normalize value it found, so from GL's initial 0 it never normalises. */
  lemma NormalizeOnce(i: nat, iterations: nat, direction: int, inputUnit: nat, prior: int)
    requires i < iterations && iterations % 2 == 0
    ensures direction == INVERSE ==>
              (PassAt(i, iterations, direction, inputUnit, prior).normalize == 1 <==> i == 0)
    ensures direction != INVERSE ==> PassAt(i, iterations, direction, inputUnit, prior).normalize == prior
  {
  }

  /** The uniforms of the subtransform program and the framebuffer binding, with
      a log of the draw calls made so far. */
  class SubtransformProgram {
    var framebuffer: Framebuffer
    var input: nat
    var horizontal: bool
    var forward: int
    var normalize: int
    var subtransformSize: nat
    var draws: seq<Draw>

    /** A freshly linked program: every uniform is 0. */
    constructor ()
      ensures framebuffer == Elsewhere && input == 0 && !horizontal && forward == 0
      ensures normalize == 0 && subtransformSize == 0 && draws == []
    {
      framebuffer := Elsewhere;
      input := 0;
      horizontal := false;
      forward := 0;
      normalize := 0;
      subtransformSize := 0;
      draws := [];
    }

    /** What a draw call made now would see. */
    function Current(): Draw
      reads this
    {
      Draw(framebuffer, input, horizontal, forward, normalize, subtransformSize)
    }

    /** The if-chain at the top of a pass: bind the framebuffer pass i draws into
        and point u_input at the unit it reads. */
    method Bind(i: nat, iterations: nat, inputUnit: nat)
      modifies this`framebuffer, this`input
      ensures framebuffer == Target(i, iterations) && input == Input(i, iterations, inputUnit)
    {
      if i == 0 {
        framebuffer := PingFramebuffer;
        input := inputUnit;
      } else if i == iterations - 1 {
        framebuffer := OutputFramebuffer;
        input := PING_TEXTURE_UNIT;
      } else if i % 2 == 1 {
        framebuffer := PongFramebuffer;
        input := PING_TEXTURE_UNIT;
      } else {
        framebuffer := PingFramebuffer;
        input := PONG_TEXTURE_UNIT;
      }
    }

    /** The body of the loop for pass i: bind, update u_normalize, u_horizontal
        and u_subtransformSize, and draw. */
    method Pass(i: nat, iterations: nat, direction: int, inputUnit: nat, ghost prior: int)
      requires i < iterations && iterations % 2 == 0 && forward == direction
      requires horizontal <==> i <= iterations / 2
      requires normalize == (if i == 0 then prior else NormalizeAt(i - 1, direction, prior))
      modifies this
      ensures forward == direction
      ensures Current() == PassAt(i, iterations, direction, inputUnit, prior)
      ensures draws == old(draws) + [Current()]
    {
      Bind(i, iterations, inputUnit);

      if direction == INVERSE && i == 0 {
        normalize := 1;
      } else if direction == INVERSE && i == 1 {
        normalize := 0;
      }

      if i == iterations / 2 {
        horizontal := false;
      }

      subtransformSize := Pow2(i % (iterations / 2) + 1);
      draws := draws + [Current()];
    }

    /** The nested `fft` of `filter`: set u_horizontal and u_forward, then run the
        passes in order. The last pass leaves the caller's framebuffer bound. */
    method Fft(inputUnit: nat, resolution: nat, direction: int)
      requires IsPowerOfTwo(resolution)
      modifies this
      ensures draws == old(draws) + Schedule(Iterations(resolution), direction, inputUnit, old(normalize))
      ensures forward == direction
      ensures horizontal <==> resolution == 1
      ensures normalize == (if direction == INVERSE && resolution > 1 then 0 else old(normalize))
      ensures resolution > 1 ==>
                framebuffer == OutputFramebuffer && input == PING_TEXTURE_UNIT && subtransformSize == resolution
      ensures resolution == 1 ==>
                framebuffer == old(framebuffer) && input == old(input) && subtransformSize == old(subtransformSize)
    {
      var iterations := Iterations(resolution);
      ghost var prior := normalize;
      ghost var before := draws;
      ghost var s := Schedule(iterations, direction, inputUnit, prior);
      horizontal := true;
      forward := direction;
      var i := 0;
      while i < iterations
        invariant 0 <= i <= iterations
        invariant draws == before + s[..i]
        invariant forward == direction
        invariant horizontal <==> i <= iterations / 2
        invariant normalize == (if i == 0 then prior else NormalizeAt(i - 1, direction, prior))
        invariant i == 0 ==> framebuffer == old(framebuffer) && input == old(input)
        invariant i == 0 ==> subtransformSize == old(subtransformSize)
        invariant 0 < i ==> Current() == s[i - 1]
      {
        Pass(i, iterations, direction, inputUnit, prior);
        assert s[..i + 1] == s[..i] + [s[i]];
        i := i + 1;
      }
      assert s[..i] == s;
      Log2OfPow2(0);
      if resolution > 1 {
        LastPass(resolution, direction, inputUnit, prior);
      }
    }
  }
}
