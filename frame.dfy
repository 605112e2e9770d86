/** The checks loop() applies to each frame of PCM samples before any
    signal processing: the extremes and non-zero count of the validator, the
    data_varies decision, and the conversion of samples to [-1, 1). */
module AudioFrame {
  import opened AudioConfig

  /** max_sample after the scan: it starts at 0 and takes every sample
      strictly greater than the best so far, so it is max(0, max of s). */
  function MaxFrom0(s: seq<int16>): (m: int16)
    ensures 0 <= m
    ensures forall i :: 0 <= i < |s| ==> s[i] <= m
    ensures m == 0 || exists i :: 0 <= i < |s| && s[i] == m
  {
    if |s| == 0 then 0
    else
      var m := MaxFrom0(s[..|s| - 1]);
      assert forall i :: 0 <= i < |s| - 1 ==> s[..|s| - 1][i] == s[i];
      if s[|s| - 1] > m then s[|s| - 1] else m
  }

  /** min_sample after the scan: min(0, min of s). */
  function MinFrom0(s: seq<int16>): (m: int16)
    ensures m <= 0
    ensures forall i :: 0 <= i < |s| ==> m <= s[i]
    ensures m == 0 || exists i :: 0 <= i < |s| && s[i] == m
  {
    if |s| == 0 then 0
    else
      var m := MinFrom0(s[..|s| - 1]);
      assert forall i :: 0 <= i < |s| - 1 ==> s[..|s| - 1][i] == s[i];
      if s[|s| - 1] < m then s[|s| - 1] else m
  }

  /** non_zero_count after the scan. */
  function CountNonZero(s: seq<int16>): (n: nat)
    ensures n <= |s|
  {
    if |s| == 0 then 0
    else CountNonZero(s[..|s| - 1]) + (if s[|s| - 1] != 0 then 1 else 0)
  }

  /** The count is zero exactly when every sample is zero, and |s| exactly
      when none is. */
  lemma {:induction false} CountNonZeroBounds(s: seq<int16>)
    ensures CountNonZero(s) == 0 <==> forall i :: 0 <= i < |s| ==> s[i] == 0
    ensures CountNonZero(s) == |s| <==> forall i :: 0 <= i < |s| ==> s[i] != 0
  {
    if |s| > 0 {
      var p := s[..|s| - 1];
      CountNonZeroBounds(p);
      assert forall i :: 0 <= i < |p| ==> p[i] == s[i];
    }
  }

  /** data_varies: the extremes differ and more than a tenth of the frame
      is non-zero. A frame that varies has a non-zero sample. */
  predicate DataVaries(s: seq<int16>)
    ensures DataVaries(s) ==> exists i :: 0 <= i < |s| && s[i] != 0
  {
    MaxFrom0(s) != MinFrom0(s) && CountNonZero(s) > BUFFER_SIZE / 10
  }

  /** Because both extremes start at 0, they differ exactly when some
      sample is non-zero; a constant non-zero frame thus passes this half
      of the check. */
  lemma ExtremesDiffer(s: seq<int16>)
    ensures MaxFrom0(s) != MinFrom0(s) <==> exists i :: 0 <= i < |s| && s[i] != 0
  {
    if exists i :: 0 <= i < |s| && s[i] != 0 {
      var i :| 0 <= i < |s| && s[i] != 0;
      assert MinFrom0(s) <= s[i] <= MaxFrom0(s);
    }
  }

  /** The comparison of the extremes adds nothing to the decision: a frame
      varies exactly when more than BUFFER_SIZE / 10 samples are non-zero. */
  lemma DataVariesIffEnoughNonZero(s: seq<int16>)
    ensures DataVaries(s) <==> CountNonZero(s) > BUFFER_SIZE / 10
  {
    if CountNonZero(s) > BUFFER_SIZE / 10 {
      CountNonZeroBounds(s);
      ExtremesDiffer(s);
    }
  }

  /** A silent (all-zero) frame is rejected. */
  lemma SilentFrameRejected(s: seq<int16>)
    requires forall i :: 0 <= i < |s| ==> s[i] == 0
    ensures !DataVaries(s)
  {
    CountNonZeroBounds(s);
  }

  /** A full frame holding one non-zero value throughout is accepted. */
  lemma ConstantFrameAccepted(s: seq<int16>, c: int16)
    requires |s| == BUFFER_SIZE && c != 0
    requires forall i :: 0 <= i < |s| ==> s[i] == c
    ensures MaxFrom0(s) != MinFrom0(s)
    ensures DataVaries(s)
  {
    CountNonZeroBounds(s);
    ExtremesDiffer(s);
    assert s[0] != 0;
  }

  /** The validator pass of loop() over sampleBuffer. */
  method ValidateFrame(sampleBuffer: array<int16>) returns (maxSample: int16, minSample: int16, nonZeroCount: int, dataVaries: bool)
    requires sampleBuffer.Length == BUFFER_SIZE
    ensures maxSample == MaxFrom0(sampleBuffer[..])
    ensures minSample == MinFrom0(sampleBuffer[..])
    ensures nonZeroCount == CountNonZero(sampleBuffer[..])
    ensures 0 <= nonZeroCount <= BUFFER_SIZE
    ensures dataVaries == DataVaries(sampleBuffer[..])
  {
    ghost var s := sampleBuffer[..];
    maxSample, minSample, nonZeroCount := 0, 0, 0;
    for i := 0 to BUFFER_SIZE
      invariant maxSample == MaxFrom0(s[..i])
      invariant minSample == MinFrom0(s[..i])
      invariant nonZeroCount == CountNonZero(s[..i])
    {
      assert s[..i + 1][..i] == s[..i];
      if sampleBuffer[i] > maxSample {
        maxSample := sampleBuffer[i];
      }
      if sampleBuffer[i] < minSample {
        minSample := sampleBuffer[i];
      }
      if sampleBuffer[i] != 0 {
        nonZeroCount := nonZeroCount + 1;
      }
    }
    assert s[..BUFFER_SIZE] == s;
    dataVaries := (maxSample != minSample) && (nonZeroCount > BUFFER_SIZE / 10);
  }

  /** A sample converted to float: s / 32768, in [-1, 1). */
  function Scale(x: int16): (r: real)
    ensures -1.0 <= r < 1.0
    ensures (x < 0 <==> r < 0.0) && (x == 0 <==> r == 0.0)
  {
    x as real / 32768.0
  }

  /** The division by a power of two loses nothing: the sample is recovered
      from its scaled value, and the order of samples is kept. */
  lemma ScaleRecoversSample(x: int16, y: int16)
    ensures (Scale(x) * 32768.0).Floor == x
    ensures x <= y <==> Scale(x) <= Scale(y)
  {
  }

  /** The whole frame converted. */
  function ScaledSamples(s: seq<int16>): (a: seq<real>)
    ensures |a| == |s|
  {
    seq(|s|, i requires 0 <= i < |s| => Scale(s[i]))
  }

  /** The conversion loop filling audioBuffer from sampleBuffer. */
  method ScaleSamples(sampleBuffer: array<int16>, audioBuffer: array<real>)
    requires sampleBuffer.Length == BUFFER_SIZE && audioBuffer.Length == BUFFER_SIZE
    modifies audioBuffer
    ensures audioBuffer[..] == ScaledSamples(sampleBuffer[..])
    ensures forall i :: 0 <= i < BUFFER_SIZE ==> -1.0 <= audioBuffer[i] < 1.0
  {
    for i := 0 to BUFFER_SIZE
      invariant forall j :: 0 <= j < i ==> audioBuffer[j] == Scale(sampleBuffer[j])
    {
      audioBuffer[i] := sampleBuffer[i] as real / 32768.0;
    }
    assert forall j :: 0 <= j < BUFFER_SIZE ==> audioBuffer[..][j] == ScaledSamples(sampleBuffer[..])[j];
  }
}
