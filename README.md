# Fourier image filter: a verified model of its transform core

This project models the frequency-domain core of the Fourier Image Scaler, a
browser application that filters a square RGB image in the frequency domain.
The model covers two parts.

- **`FourierTransform`** is the CPU engine. It keeps three colour planes of
  real and imaginary parts, a bit-reversal table and a sine/cosine twiddle
  table. Its operations are:
  - `init`: load an image;
  - `fft2d`: a forward or inverse 2D FFT, built from row and column 1D FFTs;
  - `swap`: move the zero frequency to the centre;
  - four radial frequency filters.

  All of them update the engine's arrays in place.
- **`filter`** is the WebGL driver. It checks the image, then schedules
  `2 * log2(resolution)` render passes. Each pass draws the subtransform
  shader from one texture into another, ping-ponging between two scratch
  framebuffers.

The model follows the shape of the source.

- The engine is a class. Its planes are a `3 x size x size` array per part.
  The flat index `y * size + x` of the source becomes the cell `[l, y, x]`.
- Each loop is a method, proved against a value-level function of the old
  state:
  - every 1D pass against `Spectrum.Fft` / `Spectrum.Transform1d`;
  - the 2D transform against `Planes.Transform2d`;
  - `swap` against `Planes.Swapped`;
  - the filters against `Planes.Masked` / `Planes.Amplified`.
- The properties of the engine are lemmas about those functions: the swap
  and the table reorder are involutions, the filters are idempotent, the
  transform is linear, and so on.
- The GL driver becomes a class holding the subtransform program's uniforms
  and a log of its draw calls. Its loop is proved to draw exactly
  `FourierFilter.Schedule`, and the lemmas state how the passes chain.

Floating-point numbers are modelled as exact reals. `Math.sin`, `Math.sqrt`
and `Math.PI` are a parameter of the engine (`Host.MathLib`). Where a
property depends on the square root, the lemma assumes it behaves as one
(`Host.IsSqrt`).

The engine models the code as written, including its size-2 transform,
which copies entry 0 instead of computing `(a + b, a - b)`; "## Findings"
describes it and the intended transform it is compared with.

Files:

| file | contents |
|---|---|
| `results.dfy` | Option and outcome types |
| `host.dfy` | the Math object and pixel bytes |
| `arith.dfy` | division and product facts |
| `bits.dfy` | powers of two, the bitwise power-of-two test, bit reversal |
| `spectrum.dfy` | the 1D transform as values, and its linearity |
| `sincos.dfy` | the twiddle table the engine builds |
| `planes.dfy` | 2D transform, swap, masks and amplifier as values |
| `lines.dfy` | in-place reorder and butterfly stages on scratch lines |
| `fourier_transform.dfy` | the engine class |
| `fourier_filter.dfy` | the GL pass schedule |

## Model

| member | source | states |
|---|---|---|
| Engine.FourierTransform.Init | src/js/FourierTransform.js:8-44 | Fails with NotPowerOfTwo exactly when the width is non-zero and `width & (width - 1)` is non-zero, and with NotSquare exactly when that test passes but width differs from height; both leave the engine unchanged. A 0 x 0 image passes both checks and fails with EmptyImage (the canvas throws): size becomes 0, the tables are rebuilt iff the old size was non-zero, and the planes keep their old contents. Otherwise it succeeds with a positive size equal to width: the tables are reused iff the size did not change and rebuilt otherwise, every real entry [j, y, x] is byte j of pixel (x, y), every imaginary entry is 0, and the engine is Valid. |
| Engine.LoadPixels | src/js/FourierTransform.js:30-41 | Fresh planes in which channel j of pixel (x, y) is byte (y * size + x) * 4 + j for j < 3, and every imaginary entry is 0. The alpha byte is never read. |
| Engine.FourierTransform.MakeBitReversalTable | src/js/FourierTransform.js:166-191 | The fresh table satisfies IsBitReversalTable: entry i is i with its log2(size) bits reversed (entry 0 is 0). |
| Engine.NextReversed | src/js/FourierTransform.js:181-189 | The carry loop always terminates. From the reversal of i - 1 it yields the reversal of i. |
| Bits.ReverseIncrement | src/js/FourierTransform.js:182-187 | Incrementing i is, on the reversed bits, a carry that clears one bits from the top and then sets the first zero bit. |
| Bits.ReversedNotAllOnes | src/js/FourierTransform.js:183-186 | Below 2^L - 1 no index reverses to all ones, so the carry loop never runs past its lowest bit. |
| Bits.ReverseInvolution | src/js/FourierTransform.js:179-190 | Reversing the bits twice gives the index back. |
| Spectrum.BitReversalTableIsInvolution | src/js/FourierTransform.js:232-240 | Every table entry is below the size, and table[table[i]] == i, so each swap pair (i, table[i]) is visited from both ends. |
| Spectrum.BitReversalTableIsInjective | src/js/FourierTransform.js:179-190 | No two indices share a reversed slot, so the table is a permutation of [0, size). |
| Spectrum.PermutedTwice | src/js/FourierTransform.js:232-240 | Reordering a channel twice by the table restores it. |
| LineArrays.Reorder | src/js/FourierTransform.js:232-240 | Swapping i with table[i] only when i < table[i] leaves each line equal to the old line permuted by the table. |
| Engine.FourierTransform.MakeCosSinTable | src/js/FourierTransform.js:193-228 | The fresh table has floor(1.25 * size) entries. Entry 0 is 0 and entry n/4 is 1. Entry n/8 is sqrt(0.5) when n/8 > 0. Entries i and n/4 - i, for 0 < i < n/8, hold the sine and cosine of the i-th recurrence step. The second eighth mirrors the first, and every later entry is the negation of the entry n/2 before it. |
| SinCos.CosSinTableUnique | src/js/FourierTransform.js:193-228 | That description pins the table down entry by entry: two tables meeting it for the same size are equal. |
| SinCos.SizeTwoTransformCopies | src/js/FourierTransform.js:200-227 | At size 2 the table is all zeros, and the transform of (a, b) is (a, a) rather than (a + b, a - b). |
| SinCos.SizeTwoIntended | src/js/FourierTransform.js:206-207 | The size-2 butterfly with the twiddle (cos 0, sin 0) = (1, 0) that the table's cosine slot is meant to supply gives the two-point DFT (a + b, a - b), in both directions. |
| SinCos.SizeTwoDiscrepancy | src/js/FourierTransform.js:206-207 | The size-2 transform as written equals the intended one iff entry 1 is 0 + 0i. |
| Spectrum.StageIndices | src/js/FourierTransform.js:243-258 | For every index of a stage, the upper partner k + i is below the size. The twiddle reads h and h + n/4 lie inside the table of 1.25 * size entries, with h < n/2. |
| LineArrays.RunStage | src/js/FourierTransform.js:244-262 | One pass of the outer butterfly loop turns each line into Stage of its old value: the pair (lo, lo + i) of group j is combined with twiddle (table[h + n/4], sign * table[h]), where h = j * size / (2i). |
| Engine.FourierTransform.Fft | src/js/FourierTransform.js:230-264 | The bit-reversal reorder followed by every butterfly stage leaves each line equal to Spectrum.Fft of its old value. |
| Engine.FourierTransform.Fft1d | src/js/FourierTransform.js:46-58 | Each line becomes Transform1d of its old value: the transform with sign +1 when forward, or with sign -1 and a further scaling by 1 / size when inverse. |
| Spectrum.Transform1dLinear | src/js/FourierTransform.js:46-58 | The 1D transform of x * a + y * b is x times the transform of a plus y times the transform of b, both forward and inverse. |
| Engine.FourierTransform.Fft2d | src/js/FourierTransform.js:60-101 | The x-axis pass and then the y-axis pass leave every plane equal to Transform2d of its old value: all rows transformed, then all columns. |
| Planes.Transform2dLinear | src/js/FourierTransform.js:60-101 | The 2D transform is linear in its input plane. |
| Planes.ColumnOfTransform2d | src/js/FourierTransform.js:82-98 | Column x of the 2D transform is the 1D transform of column x of the row-transformed plane. |
| Engine.FourierTransform.Swap | src/js/FourierTransform.js:266-288 | Every plane becomes Swapped of its old value. Entry (x, y) now holds old entry (x + n/2 mod n, y + n/2 mod n). |
| Planes.SwappedExchangesQuadrants | src/js/FourierTransform.js:268-283 | For x, y < n/2, the swap exchanges (x, y) with (x + n/2, y + n/2) and (x, y + n/2) with (x + n/2, y). |
| Planes.SwappedTwice | src/js/FourierTransform.js:266-288 | Swapping twice restores every plane. |
| Engine.FourierTransform.HighPassFilter | src/js/FourierTransform.js:290-306 | Exactly the visited entries at distance r < radius from the centre become 0 + 0i. Every other entry is unchanged. |
| Engine.FourierTransform.LowPassFilter | src/js/FourierTransform.js:308-324 | Exactly the visited entries with r > radius become 0 + 0i. Every other entry is unchanged. |
| Engine.FourierTransform.BandPassFilter | src/js/FourierTransform.js:326-342 | Exactly the visited entries with r < radius or r > radius + bandwidth become 0 + 0i. Every other entry is unchanged. |
| Planes.MaskedIdempotent | src/js/FourierTransform.js:290-342 | Applying any of the three filters a second time changes nothing. |
| Planes.BandPassIsHighThenLow | src/js/FourierTransform.js:326-342 | A band pass equals a high pass at radius followed by a low pass at radius + bandwidth. |
| Planes.HighPassBySquaredDistance | src/js/FourierTransform.js:292-296 | With a true square root, the high pass clears a visited entry iff radius >= 0 and x^2 + y^2 < radius^2. |
| Planes.LowPassBySquaredDistance | src/js/FourierTransform.js:310-314 | With a true square root, the low pass clears a visited entry iff radius < 0 or x^2 + y^2 > radius^2. |
| Planes.BandPassZeroWidthKeepsRing | src/js/FourierTransform.js:330-331 | A band pass of width 0 keeps exactly the entries whose distance equals the radius. |
| Planes.HighPassHalfSizeKeepsEdge | src/js/FourierTransform.js:292-296 | A high pass of radius size/2 does not clear the plane: entry (0, size/2) lies at distance exactly size/2 and is kept. |
| Planes.FilterIndexBijection | src/js/FourierTransform.js:296 | For x, y in [-n/2, n/2), the index n/2 + (y + n/2) * n + x lies in [0, n * n) and addresses row y + n/2, column x + n/2. |
| Planes.FilterIndexOnto | src/js/FourierTransform.js:296 | Every flat index below n * n is reached by one pair (x, y) in [-n/2, n/2)^2. |
| Engine.FourierTransform.HighFrequencyAmplifier | src/js/FourierTransform.js:344-368 | Every plane becomes Amplified of its old value. Entries nearer than radius are skipped. Entries beyond radius + radiusSize are multiplied by level. Entries in between are multiplied by ((r - radius) / radiusSize) * (level - 1) + 1. |
| Planes.AmplifiedUnitLevel | src/js/FourierTransform.js:344-368 | With level 1 the amplifier leaves every plane unchanged. |
| Planes.GainRamp | src/js/FourierTransform.js:350-357 | The gain is 1 on the inner radius and level on the outer one. For level >= 1 and a positive width, every gain from the inner radius outward lies between 1 and level. |
| Bits.PowerOfTwoTest | src/js/FourierTransform.js:10 | For n >= 1, `(n & (n - 1)) == 0` holds iff n is a power of two. |
| FourierFilter.IsPowerOf2 | src/js/fourierFilter.js:87-89 | True exactly for the positive powers of two. Zero is rejected. |
| FourierFilter.CheckImage | src/js/fourierFilter.js:95-97 | Passes iff width == height and the side is a power of two. Otherwise it fails with the source's message. |
| FourierFilter.Iterations | src/js/fourierFilter.js:158 | The pass count is even, and 2^(count / 2) is the resolution: one pass per butterfly stage, rows then columns. |
| FourierFilter.SubtransformProgram.Fft | src/js/fourierFilter.js:160-192 | The loop's draws are exactly Schedule(iterations, direction, input unit, prior u_normalize). Afterwards u_forward is the direction, and u_horizontal is off unless the resolution is 1. u_normalize is 0 after an inverse run with more than one pass, and unchanged otherwise. For a resolution above 1 the caller's output framebuffer is left bound, u_input is the ping unit and u_subtransformSize is the resolution; at resolution 1 all three are unchanged. |
| FourierFilter.SubtransformProgram.Pass | src/js/fourierFilter.js:166-191 | One turn of the loop: the uniforms and binding become exactly pass i of the schedule, and that draw is appended to the log. |
| FourierFilter.SubtransformProgram.Bind | src/js/fourierFilter.js:166-178 | The if-chain binds Target(i) and sets u_input to Input(i): ping from the caller's unit first, output from ping last, then alternating pong from ping and ping from pong. |
| FourierFilter.LastPass | src/js/fourierFilter.js:165-191 | For a resolution above 1 the last pass draws from the ping unit into the caller's framebuffer, along columns, with subtransform size equal to the resolution, and with u_normalize 0 in an inverse run. |
| FourierFilter.FirstPass | src/js/fourierFilter.js:166-168 | Pass 0 reads the caller's texture unit and draws into the ping framebuffer. |
| FourierFilter.OnlyLastPassWritesOutput | src/js/fourierFilter.js:169-171 | Only the last pass draws into the caller's framebuffer, and it reads the ping unit. |
| FourierFilter.PassesChain | src/js/fourierFilter.js:165-178 | Every pass except the last draws into ping or pong, and the next pass reads the unit of that framebuffer's texture. |
| FourierFilter.NoFeedback | src/js/fourierFilter.js:165-178 | No pass samples the texture it draws into, provided the caller's input unit is not the ping unit. |
| FourierFilter.HorizontalHalf | src/js/fourierFilter.js:163-188 | A pass runs along rows iff it lies in the first half of the passes. |
| FourierFilter.SubtransformSizes | src/js/fourierFilter.js:190 | Pass i and pass i + iterations/2 both use subtransform size 2^(i+1). The sizes never exceed the resolution, and each half ends at the resolution. |
| FourierFilter.NormalizeOnce | src/js/fourierFilter.js:180-184 | In an inverse run, u_normalize is 1 only at pass 0. A forward run leaves it at the value it found. |

## Left out

- Floating point: values are exact reals. The model proves nothing about rounding, and nothing about the twiddle table holding true sines and cosines. It also does not prove that the transform is a DFT, nor that the inverse undoes the forward transform.
- Engine.FourierTransform.HighFrequencyAmplifier: requires radiusSize != 0. In the source, a zero radiusSize gives 0 / 0 = NaN for entries exactly at the radius; the model does not represent NaN.
- Engine.FourierTransform.Init: the canvas, `drawImage` and `getImageData` become a byte sequence of RGBA pixel data of the image's size. The exception the canvas raises for a 0 x 0 image is the EmptyImage failure. After it the engine's size is 0 while its planes keep the previous size; the other operations require a Valid engine, so the model does not cover calling them in that state (in the source their loops then run no turns).
- `drawSpectrum` and `drawImage` of the engine are left out. They only render planes to a canvas.
- The typed-array choice (`Uint8Array`/`Uint16Array`/`Uint32Array` and `Float64Array`, or a plain array) is representation only. The tables are arrays of naturals and reals.
- Bits.BitAnd: JavaScript's `&` is modelled on naturals. The `ToInt32` wrap-around for operands at or above 2^31 is not modelled.
- Engine.FourierTransform.Fft: the sign argument (+1 or -1) is a boolean `inverse`.
- Engine.FourierTransform.Fft1d: at size 0 the source computes 1 / 0 before a loop with no turns. The model skips that step, with the same effect on the planes.
- The `continue` of the amplifier is modelled as leaving the entry unchanged.
- FourierFilter.Iterations: the float `Math.log(x) / Math.log(2)` is replaced by the exact integer log2, and `Math.pow(2, …)` by an exact power of two. The float quotient is exact for every resolution up to 2^28, beyond any WebGL texture size; at 2^29 and 2^31 it is 29.000000000000004 and 31.000000000000004, so the pass count is not an integer: the loop would run one pass more than intended (59 at 2^29), none of them drawing into the output framebuffer or switching to columns.
- The GL calls are abstracted to the uniform and framebuffer state they leave behind. The model does not cover texture and framebuffer creation, shaders, the filter, power and image programs, readback, or the rest of `filter` after the check. Other GL state is not modelled.
- At resolution 1 the schedule has no passes. The model keeps this, as the source does.
- The UI components, `imageUtils.js`, `testFilter.js`, the entry points and the build configuration are not part of this model.

## Findings

| source | as written | input that shows it | evidently intended | confidence | as-written member | corrected member |
|---|---|---|---|---|---|---|
| src/js/FourierTransform.js:206-207 | `this._sinCosTable[n4] = 1` is followed by `this._sinCosTable[0] = 0`; at size 2 the quarter size `n4` is 0, so the cosine 1 is overwritten and the one butterfly has twiddle (0, 0), copying entry 0 into both slots | a 2 x 2 image whose row has real parts (1, 1): the row transform gives (1, 1) | twiddle (cos 0, sin 0) = (1, 0), giving (a + b, a - b) = (2, 0) | not executed | SinCos.SizeTwoTransformCopies | SinCos.SizeTwoIntended |

`SinCos.SizeTwoDiscrepancy` shows the two differ on every size-2 input whose
entry 1 is non-zero. The engine class keeps the code's behaviour, since it
models the code; `SinCos.SizeTwoIntended` is the reference definition its
size-2 transform is compared with.
