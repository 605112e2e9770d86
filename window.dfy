/** The Hann analysis window (applyHannWindow). */
module Window {
  import opened Numerics

  /** The Hann weight of sample `i` in a window of `size` samples:
      0.5 * (1 - cos(2*pi*i / (size - 1))). */
  function HannCoeff(k: Kernels, i: nat, size: nat): real
    requires i < size && size != 1
  {
    0.5 * (1.0 - k.cosTurn(i as real / (size - 1) as real))
  }

  /** The segment after windowing. */
  function Windowed(k: Kernels, seg: seq<real>): (w: seq<real>)
    requires |seg| != 1
    ensures |w| == |seg|
  {
    seq(|seg|, i requires 0 <= i < |seg| => seg[i] * HannCoeff(k, i, |seg|))
  }

  /** Multiplies the first `size` samples of `buffer` by the window, in place.
      The divisor size - 1 makes a one-sample window meaningless, so it is
      excluded; the configured FFT_SIZE is 512. */
  method ApplyHannWindow(k: Kernels, buffer: array<real>, size: nat)
    requires size <= buffer.Length && size != 1
    modifies buffer
    ensures buffer[..size] == Windowed(k, old(buffer[..size]))
    ensures buffer[size..] == old(buffer[size..])
  {
    ghost var input := buffer[..size];
    for i := 0 to size
      invariant forall j :: 0 <= j < i ==> buffer[j] == input[j] * HannCoeff(k, j, size)
      invariant forall j :: i <= j < buffer.Length ==> buffer[j] == old(buffer[j])
    {
      buffer[i] := buffer[i] * HannCoeff(k, i, size);
    }
    assert forall j :: 0 <= j < size ==> buffer[..size][j] == Windowed(k, input)[j];
  }

  /** With exact cosine values at the ends of the period, the window is zero
      at both ends and leaves the centre sample of an odd window untouched. */
  lemma HannEndpoints(k: Kernels, seg: seq<real>)
    requires |seg| > 1
    requires k.cosTurn(0.0) == 1.0 && k.cosTurn(1.0) == 1.0 && k.cosTurn(0.5) == -1.0
    ensures Windowed(k, seg)[0] == 0.0 && Windowed(k, seg)[|seg| - 1] == 0.0
    ensures |seg| % 2 == 1 ==> Windowed(k, seg)[|seg| / 2] == seg[|seg| / 2]
  {
    var n := |seg|;
    assert (n - 1) as real / (n - 1) as real == 1.0;
    if n % 2 == 1 {
      assert (n / 2) as real / (n - 1) as real == 0.5;
    }
  }

  /** Every window weight lies in [0, 1] when the cosine does. */
  lemma HannCoeffInUnitRange(k: Kernels, i: nat, size: nat)
    requires i < size && size != 1
    requires -1.0 <= k.cosTurn(i as real / (size - 1) as real) <= 1.0
    ensures 0.0 <= HannCoeff(k, i, size) <= 1.0
  {
  }
}
