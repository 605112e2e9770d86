/** The math-library primitives the signal path calls. The transcendental
    ones (cosf, sinf, sqrtf, log10f, powf(10, .)) cannot be computed exactly,
    so they are carried as function values; `roundf` is modelled exactly. */
module Numerics {

  /** The transcendental functions, as supplied by the math library.
      Angles are given in turns: `cosTurn(x)` stands for cos(2*pi*x). */
  datatype Kernels = Kernels(
    cosTurn: real -> real,
    sinTurn: real -> real,
    sqrt: real -> real,
    log10: real -> real,
    exp10: real -> real)

  /** Sign facts of the exact log10 and 10^x that the mel code depends on
      to produce non-negative FFT bin indices. */
  ghost predicate LogSigns(k: Kernels) {
    && (forall y: real :: 1.0 <= y ==> 0.0 <= k.log10(y))
    && (forall x: real :: 0.0 <= x ==> 1.0 <= k.exp10(x))
  }

  /** log10 and 10^x are non-decreasing, as the exact functions are. */
  ghost predicate LogMonotone(k: Kernels) {
    && (forall x: real, y: real :: 0.0 < x <= y ==> k.log10(x) <= k.log10(y))
    && (forall x: real, y: real :: x <= y ==> k.exp10(x) <= k.exp10(y))
  }

  /** 10^x undoes log10 on positive arguments, as the exact functions do. */
  ghost predicate LogInverse(k: Kernels) {
    forall y: real :: 0.0 < y ==> k.exp10(k.log10(y)) == y
  }

  /** `roundf`: round half away from zero. */
  function RoundF(x: real): (r: int)
    ensures x - 0.5 <= r as real <= x + 0.5
    ensures 0.0 <= x ==> 0 <= r
  {
    if x >= 0.0 then (x + 0.5).Floor else -((-x + 0.5).Floor)
  }

  /** `roundf` never reverses the order of its arguments. */
  lemma RoundFMonotone(x: real, y: real)
    requires x <= y
    ensures RoundF(x) <= RoundF(y)
  {
    if x >= 0.0 {
      assert (x + 0.5).Floor <= (y + 0.5).Floor;
    } else if y < 0.0 {
      assert (-y + 0.5).Floor <= (-x + 0.5).Floor;
    }
  }
}
