/**
 * The validation service: runs the length and the number validators and
 * combines their results.
 */
module ValidationService {
  import opened Wrappers
  import TextUtil
  import opened ValueObjects
  import LengthValidator
  import NumberValidator

  const LengthWeight: real := 0.4
  const NumberWeight: real := 0.6

  /** The combination of two validator results. */
  function Combine(length: ValidationScore, number: ValidationScore): (r: ValidationScore)
    ensures r.isValid <==> length.isValid && number.isValid
    ensures r.issues == length.issues + number.issues
    ensures InUnitRange(length.score) && InUnitRange(number.score) ==> InUnitRange(r.score)
    ensures r.score == LengthWeight * length.score + NumberWeight * number.score
  {
    ValidationScore(
      length.isValid && number.isValid,
      length.score * LengthWeight + number.score * NumberWeight,
      length.issues + number.issues)
  }

  /** ValidationService.validate(original, translated) */
  function Validate(original: string, translated: string): (r: ValidationScore)
    ensures InUnitRange(r.score)
    ensures var l := LengthValidator.Validate(original, translated);
      var n := NumberValidator.Validate(original, translated);
      (r.isValid <==> l.isValid && n.isValid) && r.issues == l.issues + n.issues
      && r.score == LengthWeight * l.score + NumberWeight * n.score
  {
    Combine(LengthValidator.Validate(original, translated), NumberValidator.Validate(original, translated))
  }

  /**
   * A translation that keeps the word count and the numbers of the original
   * passes with the full score and no issues.
   */
  lemma FaithfulTranslationPasses(original: string, translated: string)
    requires |TextUtil.Words(original)| > 0
    requires |TextUtil.Words(translated)| == |TextUtil.Words(original)|
    requires NumberValidator.Numbers(original) == NumberValidator.Numbers(translated)
    ensures Validate(original, translated) == ValidationScore(true, 1.0, [])
  {
    LengthValidator.SameLengthScoresOne(original, translated);
  }

  /** The combined score can always be constructed as a ValidationScore. */
  lemma ValidateConstructs(original: string, translated: string)
    ensures var r := Validate(original, translated);
      NewValidationScore(r.isValid, r.score, r.issues) == Success(r)
  {
  }
}
