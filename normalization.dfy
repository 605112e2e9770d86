/** Global-maximum normalisation of the spectrogram (normalizeSpectrogram). */
module Normalization {

  /** The value the scan ends with: it starts at 0 and takes every element
      strictly greater than the best so far. */
  function Peak(s: seq<real>): (m: real)
    ensures 0.0 <= m
    ensures forall i :: 0 <= i < |s| ==> s[i] <= m
    ensures m == 0.0 || exists i :: 0 <= i < |s| && s[i] == m
  {
    if |s| == 0 then 0.0
    else
      var m := Peak(s[..|s| - 1]);
      assert forall i :: 0 <= i < |s| - 1 ==> s[..|s| - 1][i] == s[i];
      if s[|s| - 1] > m then s[|s| - 1] else m
  }

  /** The array after normalisation: divided by the peak when it is
      positive, untouched otherwise. */
  function Normalized(s: seq<real>): (t: seq<real>)
    ensures |t| == |s|
  {
    var m := Peak(s);
    if m > 0.0 then seq(|s|, i requires 0 <= i < |s| => s[i] / m) else s
  }

  /** normalizeSpectrogram: one pass for the peak, then an in-place division
      of the first `size` elements when the peak is positive. */
  method NormalizeSpectrogram(spectrogram: array<real>, size: nat)
    requires size <= spectrogram.Length
    modifies spectrogram
    ensures spectrogram[..size] == Normalized(old(spectrogram[..size]))
    ensures spectrogram[size..] == old(spectrogram[size..])
  {
    var maxVal := FindPeak(spectrogram, size);
    if maxVal > 0.0 {
      DivideBy(spectrogram, size, maxVal);
    }
  }

  /** The first loop: the peak of the first `size` elements. */
  method FindPeak(spectrogram: array<real>, size: nat) returns (maxVal: real)
    requires size <= spectrogram.Length
    ensures maxVal == Peak(spectrogram[..size])
  {
    ghost var s := spectrogram[..size];
    maxVal := 0.0;
    for i := 0 to size
      invariant maxVal == Peak(s[..i])
    {
      assert s[..i + 1][..i] == s[..i];
      if spectrogram[i] > maxVal {
        maxVal := spectrogram[i];
      }
    }
    assert s[..size] == s;
  }

  /** The second loop: each of the first `size` elements divided by the
      peak. */
  method DivideBy(spectrogram: array<real>, size: nat, maxVal: real)
    requires size <= spectrogram.Length && maxVal == Peak(spectrogram[..size]) && maxVal > 0.0
    modifies spectrogram
    ensures spectrogram[..size] == Normalized(old(spectrogram[..size]))
    ensures spectrogram[size..] == old(spectrogram[size..])
  {
    ghost var s := spectrogram[..size];
    for i := 0 to size
      invariant forall j :: 0 <= j < i ==> spectrogram[j] == s[j] / maxVal
      invariant forall j :: i <= j < spectrogram.Length ==> spectrogram[j] == old(spectrogram[j])
    {
      spectrogram[i] := spectrogram[i] / maxVal;
    }
    assert forall j :: 0 <= j < size ==> spectrogram[..size][j] == Normalized(s)[j];
  }

  /** With no element above 0 the array is left as it was. */
  lemma NormalizedWithoutPositive(s: seq<real>)
    requires forall i :: 0 <= i < |s| ==> s[i] <= 0.0
    ensures Normalized(s) == s
  {
  }

  /** With some element above 0, every result is at most 1 and the largest
      element becomes exactly 1. */
  lemma NormalizedPeakIsOne(s: seq<real>)
    requires exists i :: 0 <= i < |s| && s[i] > 0.0
    ensures forall i :: 0 <= i < |s| ==> Normalized(s)[i] <= 1.0
    ensures exists i :: 0 <= i < |s| && Normalized(s)[i] == 1.0
    ensures Peak(Normalized(s)) == 1.0
  {
    var m := Peak(s);
    var t := Normalized(s);
    forall i | 0 <= i < |s|
      ensures t[i] <= 1.0
    {
      DivideBelow(s[i], m);
    }
    PeakBecomesOne(s);
  }

  /** The element where the peak is attained becomes exactly 1. */
  lemma PeakBecomesOne(s: seq<real>)
    requires 0.0 < Peak(s)
    ensures exists i :: 0 <= i < |s| && Normalized(s)[i] == 1.0
  {
    var m := Peak(s);
    var w :| 0 <= w < |s| && s[w] == m;
    DivideSelf(m);
    assert Normalized(s)[w] == 1.0;
  }

  lemma DivideSelf(m: real)
    requires 0.0 < m
    ensures m / m == 1.0
  {
  }

  lemma DivideBelow(a: real, m: real)
    requires a <= m && 0.0 < m
    ensures a / m <= 1.0
  {
  }

  /** Non-negative inputs land in [0, 1]. */
  lemma NormalizedInUnitRange(s: seq<real>)
    requires forall i :: 0 <= i < |s| ==> 0.0 <= s[i]
    ensures forall i :: 0 <= i < |s| ==> 0.0 <= Normalized(s)[i] <= 1.0
  {
    var m := Peak(s);
    if m > 0.0 {
      forall i | 0 <= i < |s|
        ensures 0.0 <= Normalized(s)[i] <= 1.0
      {
        DivideBelow(s[i], m);
        DivideNonNegative(s[i], m);
      }
    }
  }

  lemma DivideNonNegative(a: real, m: real)
    requires 0.0 <= a && 0.0 < m
    ensures 0.0 <= a / m
  {
  }

  /** Normalising a second time changes nothing. */
  lemma NormalizedIdempotent(s: seq<real>)
    ensures Normalized(Normalized(s)) == Normalized(s)
  {
    if Peak(s) > 0.0 {
      NormalizedPeakIsOne(s);
      var t := Normalized(s);
      assert forall i :: 0 <= i < |t| ==> t[i] / 1.0 == t[i];
    } else {
      assert Normalized(s) == s;
    }
  }
}
