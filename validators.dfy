/**
 * The length validator: compares the word counts of the original and the
 * translation. Floating-point values are modelled as exact reals.
 */
module LengthValidator {
  import opened TextUtil
  import opened Wrappers
  import opened ValueObjects

  const MaxRatio: real := 2.5
  const MinRatio: real := 0.4

  function Abs(x: real): real
  {
    if x < 0.0 then -x else x
  }

  /** LengthValidator.validate(original, translated) */
  function Validate(original: string, translated: string): (r: ValidationScore)
    ensures InUnitRange(r.score)
    ensures |Words(original)| == 0 ==> r == ValidationScore(false, 0.0, [EmptyOriginal])
    ensures |Words(original)| > 0 ==>
      var ratio := |Words(translated)| as real / |Words(original)| as real;
      (r.isValid <==> MinRatio <= ratio <= MaxRatio)
      && (r.isValid ==> r.issues == [] && r.score == 1.0 - Abs(1.0 - ratio) / 2.0 && r.score >= 0.25)
      && (!r.isValid ==> r.score == 0.3 && r.issues == [SuspiciousRatio(ratio)])
  {
    var origLen := |Words(original)|;
    var transLen := |Words(translated)|;
    if origLen == 0 then ValidationScore(false, 0.0, [EmptyOriginal])
    else
      var ratio := transLen as real / origLen as real;
      if MinRatio <= ratio <= MaxRatio then ValidationScore(true, 1.0 - Abs(1.0 - ratio) / 2.0, [])
      else ValidationScore(false, 0.3, [SuspiciousRatio(ratio)])
  }

  /** The score is the one a ValidationScore would accept: constructing it cannot fail. */
  lemma ValidateConstructs(original: string, translated: string)
    ensures var r := Validate(original, translated);
      NewValidationScore(r.isValid, r.score, r.issues) == Success(r)
  {
  }

  /** A translation with exactly as many words as the original scores 1. */
  lemma SameLengthScoresOne(original: string, translated: string)
    requires |Words(original)| > 0 && |Words(translated)| == |Words(original)|
    ensures Validate(original, translated) == ValidationScore(true, 1.0, [])
  {
    DivSelf(|Words(original)| as real);
  }

  lemma DivSelf(x: real)
    requires x > 0.0
    ensures x / x == 1.0
  {
  }
}
