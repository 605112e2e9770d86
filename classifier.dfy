/** Reading the model's three class scores: the arg-max with its -1000
    sentinel and the confidence tier of the winning score. */
module Classifier {

  const NUM_CLASSES: int := 3

  /** class_names: glass breaking, door opening, floor creaking. */
  const CLASS_NAMES: seq<string> := ["Разбитие стекла", "Открытие двери", "Скрип пола"]

  /** Initial max_score: below any score the model is expected to give. */
  const SENTINEL: real := -1000.0

  /** Thresholds of the confidence tiers. The float literals 0.3f and 0.6f
      are the nearest floats above 0.3 and 0.6, so for float scores the
      comparisons agree with these exact values. */
  const LOW_CONFIDENCE: real := 0.3
  const HIGH_CONFIDENCE: real := 0.6

  /** The state of the arg-max scan. */
  datatype Best = Best(index: nat, score: real)

  /** max_index and max_score after scanning s: the scan starts at
      (0, -1000) and moves only on a strictly greater score. */
  function Scan(s: seq<real>): (b: Best)
    ensures b.index == 0 || b.index < |s|
    ensures SENTINEL <= b.score
    ensures forall i :: 0 <= i < |s| ==> s[i] <= b.score
    ensures b.score == SENTINEL || (b.index < |s| && s[b.index] == b.score)
    ensures b.index < |s| && s[b.index] == b.score ==> forall i :: 0 <= i < b.index ==> s[i] < b.score
    ensures b.score == SENTINEL ==> b.index == 0
  {
    if |s| == 0 then Best(0, SENTINEL)
    else
      var b := Scan(s[..|s| - 1]);
      assert forall i :: 0 <= i < |s| - 1 ==> s[..|s| - 1][i] == s[i];
      if s[|s| - 1] > b.score then Best(|s| - 1, s[|s| - 1]) else b
  }

  /** The arg-max loop: copies the three scores out of the output tensor and
      keeps the first strictly greatest. */
  method ArgMax(output: array<real>) returns (maxScore: real, maxIndex: nat)
    requires NUM_CLASSES <= output.Length
    ensures Best(maxIndex, maxScore) == Scan(output[..NUM_CLASSES])
    ensures maxIndex < NUM_CLASSES
  {
    var scores := new real[NUM_CLASSES](_ => 0.0);
    ghost var s := output[..NUM_CLASSES];
    maxScore, maxIndex := SENTINEL, 0;
    for i := 0 to NUM_CLASSES
      invariant Best(maxIndex, maxScore) == Scan(s[..i])
      invariant forall j :: 0 <= j < i ==> scores[j] == s[j]
    {
      assert s[..i + 1][..i] == s[..i];
      scores[i] := output[i];
      if scores[i] > maxScore {
        maxScore := scores[i];
        maxIndex := i;
      }
    }
    assert s[..NUM_CLASSES] == s;
  }

  /** The winner is the first score equal to the largest one: later equal
      scores never displace it. */
  lemma ScanTieGoesToLowestIndex(s: seq<real>, i: nat, j: nat)
    requires i < j < |s| && s[i] == s[j] && Scan(s).score == s[j]
    ensures Scan(s).index != j
  {
  }

  /** When no score rises above the sentinel the result is class 0 with
      score -1000. */
  lemma ScanAllLow(s: seq<real>)
    requires forall i :: 0 <= i < |s| ==> s[i] <= SENTINEL
    ensures Scan(s) == Best(0, SENTINEL)
  {
  }

  /** When some score exceeds the sentinel, the scan finds the maximum: an
      element of s that no element exceeds. */
  lemma ScanFindsMaximum(s: seq<real>)
    requires exists i :: 0 <= i < |s| && SENTINEL < s[i]
    ensures Scan(s).index < |s| && s[Scan(s).index] == Scan(s).score
    ensures forall i :: 0 <= i < |s| ==> s[i] <= s[Scan(s).index]
  {
  }

  /** Every possible winner names a class. */
  lemma WinnerHasName(s: seq<real>)
    requires |s| == NUM_CLASSES
    ensures Scan(s).index < |CLASS_NAMES|
  {
  }

  /** The three messages of the confidence analysis. */
  datatype Tier = VeryLow | Low | High

  /** The tier of the winning score. */
  function TierOf(score: real): (t: Tier)
    ensures t == VeryLow <==> score < LOW_CONFIDENCE
    ensures t == Low <==> LOW_CONFIDENCE <= score < HIGH_CONFIDENCE
    ensures t == High <==> HIGH_CONFIDENCE <= score
  {
    if score < LOW_CONFIDENCE then VeryLow
    else if score < HIGH_CONFIDENCE then Low
    else High
  }

  function Rank(t: Tier): nat {
    match t
    case VeryLow => 0
    case Low => 1
    case High => 2
  }

  /** A higher score never gets a lower tier. */
  lemma TierMonotone(a: real, b: real)
    requires a <= b
    ensures Rank(TierOf(a)) <= Rank(TierOf(b))
  {
  }
}
