/** The mel filterbank (hzToMel, melToHz, computeMelFilterbank): 40
    triangular filters whose edges are spaced evenly on the mel scale
    between MIN_FREQ and MAX_FREQ and rounded to FFT bins. */
module Mel {
  import opened AudioConfig
  import opened Numerics

  /** hzToMel: 2595 * log10(1 + hz / 700); with a log10 of the right sign,
      non-negative frequencies have non-negative mel values. */
  function HzToMel(k: Kernels, hz: real): (mel: real)
    ensures LogSigns(k) && 0.0 <= hz ==> 0.0 <= mel
  {
    2595.0 * k.log10(1.0 + hz / 700.0)
  }

  /** melToHz: 700 * (10^(mel / 2595) - 1); with a 10^x of the right sign,
      non-negative mel values have non-negative frequencies. */
  function MelToHz(k: Kernels, mel: real): (hz: real)
    ensures LogSigns(k) && 0.0 <= mel ==> 0.0 <= hz
  {
    700.0 * (k.exp10(mel / 2595.0) - 1.0)
  }

  /** With an exact 10^x undoing log10, melToHz undoes hzToMel on every
      frequency above -700 Hz, where the logarithm is defined. */
  lemma MelRoundTrip(k: Kernels, hz: real)
    requires LogInverse(k) && -700.0 < hz
    ensures MelToHz(k, HzToMel(k, hz)) == hz
  {
    var y := 1.0 + hz / 700.0;
    assert 0.0 < y;
    assert HzToMel(k, hz) / 2595.0 == k.log10(y);
    assert k.exp10(k.log10(y)) == y;
  }

  /** hzToMel preserves the order of frequencies. */
  lemma HzToMelMonotone(k: Kernels, a: real, b: real)
    requires LogMonotone(k) && -700.0 < a <= b
    ensures HzToMel(k, a) <= HzToMel(k, b)
  {
    assert k.log10(1.0 + a / 700.0) <= k.log10(1.0 + b / 700.0);
  }

  function MelMin(k: Kernels): real {
    HzToMel(k, MIN_FREQ as real)
  }

  function MelMax(k: Kernels): real {
    HzToMel(k, MAX_FREQ as real)
  }

  /** The distance between consecutive filter edges on the mel scale. */
  function MelStep(k: Kernels): real {
    (MelMax(k) - MelMin(k)) / (NUM_MELS + 1) as real
  }

  /** The NUM_MELS + 2 filter edges on the mel scale (mel_points). */
  function MelPoints(k: Kernels): (p: seq<real>)
    ensures |p| == NUM_MELS + 2
  {
    seq(NUM_MELS + 2, i => MelMin(k) + i as real * MelStep(k))
  }

  /** The filter edges in Hz (freq_points). */
  function FreqPoints(k: Kernels): (f: seq<real>)
    ensures |f| == NUM_MELS + 2
  {
    seq(NUM_MELS + 2, i requires 0 <= i < NUM_MELS + 2 => MelToHz(k, MelPoints(k)[i]))
  }

  /** The FFT bin nearest to a frequency: roundf(hz * FFT_SIZE / SAMPLE_RATE). */
  function BinOf(hz: real): (b: int)
    ensures hz * FFT_SIZE as real / SAMPLE_RATE as real - 0.5 <= b as real <= hz * FFT_SIZE as real / SAMPLE_RATE as real + 0.5
    ensures 0.0 <= hz ==> 0 <= b
  {
    RoundF(hz * FFT_SIZE as real / SAMPLE_RATE as real)
  }

  /** The filter edges as FFT bins (fft_indices). */
  function FftIndices(k: Kernels): (idx: seq<int>)
    ensures |idx| == NUM_MELS + 2
  {
    seq(NUM_MELS + 2, i requires 0 <= i < NUM_MELS + 2 => BinOf(FreqPoints(k)[i]))
  }

  /** The edges run from the mel image of MIN_FREQ to that of MAX_FREQ in
      NUM_MELS + 1 equal steps. */
  lemma MelPointsSpacing(k: Kernels)
    ensures MelPoints(k)[0] == MelMin(k)
    ensures MelPoints(k)[NUM_MELS + 1] == MelMax(k)
    ensures forall i :: 0 <= i < NUM_MELS + 1 ==> MelPoints(k)[i + 1] - MelPoints(k)[i] == MelStep(k)
  {
    var p := MelPoints(k);
    assert (NUM_MELS + 1) as real * MelStep(k) == MelMax(k) - MelMin(k);
    forall i | 0 <= i < NUM_MELS + 1
      ensures p[i + 1] - p[i] == MelStep(k)
    {
      assert (i + 1) as real * MelStep(k) == i as real * MelStep(k) + MelStep(k);
    }
  }

  lemma ScaleMonotone(a: real, b: real, s: real)
    requires a <= b && 0.0 <= s
    ensures a * s <= b * s
  {
  }

  /** With an order-preserving logarithm the step is non-negative and the
      mel edges ascend. */
  lemma MelPointsAscend(k: Kernels)
    requires LogMonotone(k)
    ensures 0.0 <= MelStep(k)
    ensures forall i, j :: 0 <= i <= j < NUM_MELS + 2 ==> MelPoints(k)[i] <= MelPoints(k)[j]
  {
    HzToMelMonotone(k, MIN_FREQ as real, MAX_FREQ as real);
    forall i, j | 0 <= i <= j < NUM_MELS + 2
      ensures MelPoints(k)[i] <= MelPoints(k)[j]
    {
      ScaleMonotone(i as real, j as real, MelStep(k));
    }
  }

  /** The bin edges never decrease, so each filter's left, centre and right
      edges come in order. */
  lemma {:induction false} FftIndicesAscend(k: Kernels)
    requires LogMonotone(k)
    ensures forall i, j :: 0 <= i <= j < NUM_MELS + 2 ==> FftIndices(k)[i] <= FftIndices(k)[j]
  {
    MelPointsAscend(k);
    var p, f, idx := MelPoints(k), FreqPoints(k), FftIndices(k);
    forall i, j | 0 <= i <= j < NUM_MELS + 2
      ensures idx[i] <= idx[j]
    {
      assert p[i] / 2595.0 <= p[j] / 2595.0;
      assert k.exp10(p[i] / 2595.0) <= k.exp10(p[j] / 2595.0);
      assert f[i] <= f[j];
      RoundFMonotone(f[i] * FFT_SIZE as real / SAMPLE_RATE as real, f[j] * FFT_SIZE as real / SAMPLE_RATE as real);
    }
  }

  /** Every bin edge is a valid (non-negative) index into the magnitudes
      when log10 and 10^x have the signs and order of the exact functions. */
  lemma {:induction false} FftIndicesNonNegative(k: Kernels)
    requires LogSigns(k) && LogMonotone(k)
    ensures forall i :: 0 <= i < NUM_MELS + 2 ==> 0 <= FftIndices(k)[i]
  {
    MelPointsAscend(k);
    var p, f, idx := MelPoints(k), FreqPoints(k), FftIndices(k);
    assert 0.0 <= MelMin(k) by {
      assert 1.0 <= 1.0 + MIN_FREQ as real / 700.0;
    }
    forall i | 0 <= i < NUM_MELS + 2
      ensures 0 <= idx[i]
    {
      assert p[0] <= p[i];
      assert 1.0 <= k.exp10(p[i] / 2595.0);
      assert 0.0 <= f[i];
    }
  }

  /** With exact logarithms the first edge is bin 1 (20 Hz) and the last is
      bin FFT_SIZE / 2 (8000 Hz, the Nyquist frequency). */
  lemma FftIndicesEnds(k: Kernels)
    requires LogInverse(k)
    ensures FftIndices(k)[0] == 1
    ensures FftIndices(k)[NUM_MELS + 1] == FFT_SIZE / 2
  {
    MelPointsSpacing(k);
    MelRoundTrip(k, MIN_FREQ as real);
    MelRoundTrip(k, MAX_FREQ as real);
    assert FreqPoints(k)[0] == 20.0;
    assert FreqPoints(k)[NUM_MELS + 1] == 8000.0;
  }

  /** With exact logarithms every bin edge is at most FFT_SIZE / 2, so the
      guard j < FFT_SIZE / 2 of the filter loop never skips a bin. */
  lemma FftIndicesWithinHalf(k: Kernels)
    requires LogMonotone(k) && LogInverse(k)
    ensures forall i :: 0 <= i < NUM_MELS + 2 ==> FftIndices(k)[i] <= FFT_SIZE / 2
  {
    FftIndicesAscend(k);
    FftIndicesEnds(k);
  }

  /** Edge indices usable by the filter loop. */
  predicate ValidIndices(idx: seq<int>) {
    |idx| == NUM_MELS + 2 && forall i :: 0 <= i < |idx| ==> 0 <= idx[i]
  }

  /** The triangular weight of bin j in the filter with edges l, c, r, for
      l <= j < r: rising from 0 at l to 1 at c, then falling towards r. In
      each branch the divisor is positive, whatever the order of the edges.
      Every weight lies in [0, 1]. */
  function Weight(l: int, c: int, r: int, j: int): (w: real)
    requires l <= j < r
    ensures 0.0 <= w <= 1.0
  {
    if j < c then (j - l) as real / (c - l) as real
    else (r - j) as real / (r - c) as real
  }

  /** Whatever the order of the edges, every bin the loop visits divides by
      a positive width: c - l on the rising side, r - c on the falling side. */
  lemma WeightDenominatorsPositive(l: int, c: int, r: int, j: int)
    requires l <= j < r
    ensures j < c ==> 0 < c - l
    ensures c <= j ==> 0 < r - c
  {
  }

  /** The weight is 1 at the centre bin when the filter falls after it, and
      0 at the left edge when the filter rises. */
  lemma WeightShape(l: int, c: int, r: int)
    requires l <= c && l < r
    ensures c < r ==> Weight(l, c, r, c) == 1.0
    ensures l < c ==> Weight(l, c, r, l) == 0.0
  {
    if c < r {
      var d := (r - c) as real;
      assert d / d == 1.0;
    }
  }

  /** The energy gathered by the filter loop after visiting bins l .. n-1;
      bins at or above FFT_SIZE / 2 are skipped. */
  function PartialEnergy(mags: seq<real>, l: int, c: int, r: int, n: int): real
    requires 0 <= l <= n && (n == l || n <= r) && FFT_SIZE / 2 <= |mags|
    decreases n - l
  {
    if n == l then 0.0 else PartialEnergy(mags, l, c, r, n - 1) + BinTerm(mags, l, c, r, n - 1)
  }

  /** The contribution of bin j to the filter with edges l, c, r. */
  function BinTerm(mags: seq<real>, l: int, c: int, r: int, j: int): real
    requires 0 <= l <= j < r && FFT_SIZE / 2 <= |mags|
  {
    if j < FFT_SIZE / 2 then mags[j] * Weight(l, c, r, j) else 0.0
  }

  /** The energy of the filter with edges l, c, r (zero when r <= l). */
  function FilterEnergy(mags: seq<real>, l: int, c: int, r: int): real
    requires 0 <= l && FFT_SIZE / 2 <= |mags|
  {
    PartialEnergy(mags, l, c, r, if r < l then l else r)
  }

  /** The energies of all NUM_MELS filters (mel_energies). */
  function MelEnergies(mags: seq<real>, idx: seq<int>): (e: seq<real>)
    requires ValidIndices(idx) && FFT_SIZE / 2 <= |mags|
    ensures |e| == NUM_MELS
  {
    seq(NUM_MELS, i requires 0 <= i < NUM_MELS => FilterEnergy(mags, idx[i], idx[i + 1], idx[i + 2]))
  }

  ghost predicate NonNegativeHalf(mags: seq<real>)
    requires FFT_SIZE / 2 <= |mags|
  {
    forall j :: 0 <= j < FFT_SIZE / 2 ==> 0.0 <= mags[j]
  }

  lemma BinTermNonNegative(mags: seq<real>, l: int, c: int, r: int, j: int)
    requires 0 <= l <= j < r && FFT_SIZE / 2 <= |mags| && NonNegativeHalf(mags)
    ensures 0.0 <= BinTerm(mags, l, c, r, j)
  {
    if j < FFT_SIZE / 2 {
      var w := Weight(l, c, r, j);
      assert 0.0 <= mags[j];
      assert 0.0 <= mags[j] * w;
    }
  }

  /** Partial energies never decrease as the loop goes on when the
      magnitudes are non-negative. */
  lemma {:induction false} PartialEnergyGrows(mags: seq<real>, l: int, c: int, r: int, m: int, n: int)
    requires 0 <= l <= m <= n && (n == l || n <= r) && FFT_SIZE / 2 <= |mags|
    requires NonNegativeHalf(mags)
    ensures 0.0 <= PartialEnergy(mags, l, c, r, m) <= PartialEnergy(mags, l, c, r, n)
    decreases n - l
  {
    if n > l {
      BinTermNonNegative(mags, l, c, r, n - 1);
      if m < n {
        PartialEnergyGrows(mags, l, c, r, m, n - 1);
      } else {
        PartialEnergyGrows(mags, l, c, r, n - 1, n - 1);
      }
    }
  }

  /** A filter's energy is non-negative when the magnitudes are. */
  lemma FilterEnergyNonNegative(mags: seq<real>, l: int, c: int, r: int)
    requires 0 <= l && FFT_SIZE / 2 <= |mags| && NonNegativeHalf(mags)
    ensures 0.0 <= FilterEnergy(mags, l, c, r)
  {
    var n := if r < l then l else r;
    PartialEnergyGrows(mags, l, c, r, n, n);
  }

  /** A filter whose centre bin carries energy has positive energy. */
  lemma FilterEnergyPositiveAtCentre(mags: seq<real>, l: int, c: int, r: int)
    requires 0 <= l <= c < r && c < FFT_SIZE / 2 && FFT_SIZE / 2 <= |mags|
    requires NonNegativeHalf(mags) && 0.0 < mags[c]
    ensures 0.0 < FilterEnergy(mags, l, c, r)
  {
    PartialEnergyGrows(mags, l, c, r, c, c);
    PartialEnergyGrows(mags, l, c, r, c + 1, r);
    WeightShape(l, c, r);
  }

  /** The filters read only the first FFT_SIZE / 2 entries: whatever lies
      above them in the buffer does not change the energies. */
  lemma {:induction false} PartialEnergyReadsLowerHalf(a: seq<real>, b: seq<real>, l: int, c: int, r: int, n: int)
    requires 0 <= l <= n && (n == l || n <= r) && FFT_SIZE / 2 <= |a| && FFT_SIZE / 2 <= |b|
    requires a[..FFT_SIZE / 2] == b[..FFT_SIZE / 2]
    ensures PartialEnergy(a, l, c, r, n) == PartialEnergy(b, l, c, r, n)
    decreases n - l
  {
    if n > l {
      PartialEnergyReadsLowerHalf(a, b, l, c, r, n - 1);
      if n - 1 < FFT_SIZE / 2 {
        assert a[n - 1] == a[..FFT_SIZE / 2][n - 1] == b[..FFT_SIZE / 2][n - 1] == b[n - 1];
      }
    }
  }

  lemma MelEnergiesReadLowerHalf(a: seq<real>, b: seq<real>, idx: seq<int>)
    requires ValidIndices(idx) && FFT_SIZE / 2 <= |a| && FFT_SIZE / 2 <= |b|
    requires a[..FFT_SIZE / 2] == b[..FFT_SIZE / 2]
    ensures MelEnergies(a, idx) == MelEnergies(b, idx)
  {
    forall i | 0 <= i < NUM_MELS
      ensures MelEnergies(a, idx)[i] == MelEnergies(b, idx)[i]
    {
      var l, r := idx[i], idx[i + 2];
      PartialEnergyReadsLowerHalf(a, b, l, idx[i + 1], r, if r < l then l else r);
    }
  }

  /** Every mel energy is non-negative when the magnitudes are. */
  lemma MelEnergiesNonNegative(mags: seq<real>, idx: seq<int>)
    requires ValidIndices(idx) && FFT_SIZE / 2 <= |mags| && NonNegativeHalf(mags)
    ensures forall i :: 0 <= i < NUM_MELS ==> 0.0 <= MelEnergies(mags, idx)[i]
  {
    forall i | 0 <= i < NUM_MELS
      ensures 0.0 <= MelEnergies(mags, idx)[i]
    {
      FilterEnergyNonNegative(mags, idx[i], idx[i + 1], idx[i + 2]);
    }
  }

  /** computeMelFilterbank: fills in the edge tables, then accumulates
      each filter's energy by visiting its bins in order. */
  method ComputeMelFilterbank(k: Kernels, fftMagnitudes: array<real>, melEnergies: array<real>)
    requires LogSigns(k) && LogMonotone(k)
    requires FFT_SIZE / 2 <= fftMagnitudes.Length && melEnergies.Length == NUM_MELS
    requires fftMagnitudes != melEnergies
    modifies melEnergies
    ensures ValidIndices(FftIndices(k))
    ensures melEnergies[..] == MelEnergies(fftMagnitudes[..], FftIndices(k))
  {
    var melPoints := ComputeMelPoints(k);
    var freqPoints := ComputeFreqPoints(k, melPoints);
    var fftIndices := ComputeFftIndices(k, freqPoints);
    FftIndicesNonNegative(k);
    ghost var idx := FftIndices(k);
    ghost var mags := fftMagnitudes[..];
    ghost var energies := MelEnergies(mags, idx);

    for i := 0 to NUM_MELS
      modifies melEnergies
      invariant forall p :: 0 <= p < i ==> melEnergies[p] == energies[p]
    {
      assert fftIndices[i] == idx[i] && fftIndices[i + 1] == idx[i + 1] && fftIndices[i + 2] == idx[i + 2];
      AccumulateFilter(fftMagnitudes, melEnergies, i, fftIndices[i], fftIndices[i + 1], fftIndices[i + 2]);
    }
    assert forall p :: 0 <= p < NUM_MELS ==> melEnergies[..][p] == energies[p];
  }

  /** The mel edges: mel_min plus i steps. */
  method ComputeMelPoints(k: Kernels) returns (melPoints: array<real>)
    ensures fresh(melPoints)
    ensures melPoints[..] == MelPoints(k)
  {
    var melMin := HzToMel(k, MIN_FREQ as real);
    var melMax := HzToMel(k, MAX_FREQ as real);
    var melStep := (melMax - melMin) / (NUM_MELS + 1) as real;
    melPoints := new real[NUM_MELS + 2];
    for i := 0 to NUM_MELS + 2
      invariant forall p :: 0 <= p < i ==> melPoints[p] == MelPoints(k)[p]
    {
      melPoints[i] := melMin + i as real * melStep;
    }
  }

  /** The edges converted back to Hz. */
  method ComputeFreqPoints(k: Kernels, melPoints: array<real>) returns (freqPoints: array<real>)
    requires melPoints[..] == MelPoints(k)
    ensures fresh(freqPoints)
    ensures freqPoints[..] == FreqPoints(k)
  {
    freqPoints := new real[NUM_MELS + 2];
    for i := 0 to NUM_MELS + 2
      invariant forall p :: 0 <= p < i ==> freqPoints[p] == FreqPoints(k)[p]
    {
      freqPoints[i] := MelToHz(k, melPoints[i]);
    }
  }

  /** The edges converted to FFT bins. */
  method ComputeFftIndices(k: Kernels, freqPoints: array<real>) returns (fftIndices: array<int>)
    requires freqPoints[..] == FreqPoints(k)
    ensures fresh(fftIndices)
    ensures fftIndices[..] == FftIndices(k)
  {
    fftIndices := new int[NUM_MELS + 2];
    for i := 0 to NUM_MELS + 2
      invariant forall p :: 0 <= p < i ==> fftIndices[p] == FftIndices(k)[p]
    {
      fftIndices[i] := RoundF(freqPoints[i] * FFT_SIZE as real / SAMPLE_RATE as real);
    }
  }

  /** The body of the filter loop for filter i with edges l, c, r: clears
      mel_energies[i], then adds each bin's weighted magnitude. */
  method AccumulateFilter(fftMagnitudes: array<real>, melEnergies: array<real>, i: nat, l: int, c: int, r: int)
    requires i < melEnergies.Length && 0 <= l && FFT_SIZE / 2 <= fftMagnitudes.Length
    requires fftMagnitudes != melEnergies
    modifies melEnergies
    ensures melEnergies[i] == FilterEnergy(fftMagnitudes[..], l, c, r)
    ensures forall p :: 0 <= p < melEnergies.Length && p != i ==> melEnergies[p] == old(melEnergies[p])
  {
    ghost var mags := fftMagnitudes[..];
    melEnergies[i] := 0.0;
    var j := l;
    while j < r
      invariant l <= j && (j == l || j <= r)
      invariant melEnergies[i] == PartialEnergy(mags, l, c, r, j)
      invariant forall p :: 0 <= p < melEnergies.Length && p != i ==> melEnergies[p] == old(melEnergies[p])
    {
      if j < FFT_SIZE / 2 {
        var weight := 1.0;
        if j < c {
          weight := (j - l) as real / (c - l) as real;
        } else {
          weight := (r - j) as real / (r - c) as real;
        }
        melEnergies[i] := melEnergies[i] + fftMagnitudes[j] * weight;
      }
      j := j + 1;
    }
  }
}
