/** The similarity score of `difflib.SequenceMatcher(None, a, b).ratio()`, in exact arithmetic. */
module Similarity {

  /** The number of matching characters `M` that difflib's matching-block search finds
      between two strings. The search itself is library code and is taken as given. */
  type MatchCounter = (string, string) -> nat

  /** The acceptance threshold of the fuzzy matcher. */
  const Threshold: real := 0.6

  /** `2 * M / T` where `T` is the combined length; difflib returns 1.0 when `T` is 0. */
  function Ratio(matches: nat, length: nat): (r: real)
    ensures r >= 0.0
    ensures length == 0 ==> r == 1.0
    ensures 2 * matches <= length ==> r <= 1.0
    ensures 0 < length && matches == 0 ==> r == 0.0
  {
    if length == 0 then 1.0 else (2 * matches) as real / length as real
  }

  /** `SequenceMatcher(None, a, b).ratio()`: the score of `a` (the input) against `b` (the
      pattern), in that order, since the matcher need not be symmetric. It clears the threshold
      exactly when `10M >= 3T`, and it is 0.0 when no character of non-empty text matches. */
  function Score(count: MatchCounter, a: string, b: string): (r: real)
    ensures r >= Threshold <==> 10 * count(a, b) >= 3 * (|a| + |b|)
    ensures 0 < |a| + |b| && count(a, b) == 0 ==> r == 0.0
  {
    RatioMeetsThreshold(count(a, b), |a| + |b|);
    Ratio(count(a, b), |a| + |b|)
  }

  /** The threshold test `2M/T >= 0.6` is the integer comparison `10M >= 3T`, also when both
      strings are empty and the ratio is 1.0. */
  lemma RatioMeetsThreshold(matches: nat, length: nat)
    ensures Ratio(matches, length) >= Threshold <==> 10 * matches >= 3 * length
  {
    if length == 0 {
      return;
    }
    var r := Ratio(matches, length);
    var t := length as real;
    assert r * t == 2.0 * matches as real;
    assert (10 * matches) as real == 10.0 * matches as real;
    assert (3 * length) as real == 3.0 * t;
    if r >= 0.6 {
      assert r * t >= 0.6 * t;
    } else {
      assert r * t < 0.6 * t;
    }
  }

  /** A string compared with itself, all of whose characters match, scores 1.0. */
  lemma IdenticalScoresOne(count: MatchCounter, a: string)
    requires count(a, a) == |a|
    ensures Score(count, a, a) == 1.0
  {
    var n := |a| + |a|;
    assert Score(count, a, a) == Ratio(|a|, n);
    if n > 0 {
      assert 2 * |a| == n;
      assert Ratio(|a|, n) == n as real / n as real;
    }
  }
}
