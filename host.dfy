/** The parts of the JavaScript runtime the engine calls into: the Math object's
    sine, square root and pi, and the bytes of a canvas's pixel data. */
module Host {
  /** `Math.PI`, `Math.sin` and `Math.sqrt`, given to the model as values. */
  datatype MathLib = MathLib(pi: real, sin: real -> real, sqrt: real -> real)

  /** `Math.sqrt` behaves as a square root on the non-negative reals. */
  ghost predicate IsSqrt(sqrt: real -> real)
  {
    forall v: real :: v >= 0.0 ==> sqrt(v) >= 0.0 && sqrt(v) * sqrt(v) == v
  }

  /** One channel byte of canvas pixel data (`Uint8ClampedArray`). */
  newtype byte = x: int | 0 <= x < 256
}
