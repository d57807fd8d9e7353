/**
 * The translator's frozen value objects: a language pair and a validation
 * score. Construction checks that raise `ValueError` in the program are
 * modelled as constructors returning a `Result` whose failure carries the
 * error message.
 */
module ValueObjects {
  import opened Wrappers

  /** A language pair: source and target language codes. */
  datatype LanguagePair = LanguagePair(source: string, target: string)

  /** The invariant every constructed pair satisfies. */
  predicate ValidPair(p: LanguagePair)
  {
    p.source != [] && p.target != [] && p.source != p.target
  }

  /** LanguagePair(source, target), with the checks of its __post_init__. */
  function NewLanguagePair(source: string, target: string): (r: Result<LanguagePair, string>)
    ensures r.Success? <==> source != [] && target != [] && source != target
    ensures r.Success? ==> r.value.source == source && r.value.target == target && ValidPair(r.value)
    ensures (source == [] || target == []) ==> r == Failure("Languages required")
    ensures (source != [] && target != [] && source == target) ==> r == Failure("Same language pair")
  {
    if source == [] || target == [] then Failure("Languages required")
    else if source == target then Failure("Same language pair")
    else Success(LanguagePair(source, target))
  }

  /**
   * What a validator reports. The program renders each issue as a message
   * string; the ratio and the number sets are kept here as values.
   */
  datatype Issue =
    | EmptyOriginal
    | SuspiciousRatio(ratio: real)
    | MissingNumbers(numbers: set<string>)
    | ExtraNumbers(numbers: set<string>)

  /** A validation result: validity, a score in [0, 1] and the issues found. */
  datatype ValidationScore = ValidationScore(isValid: bool, score: real, issues: seq<Issue>)

  predicate InUnitRange(x: real)
  {
    0.0 <= x <= 1.0
  }

  /** ValidationScore(is_valid, score, issues), with the range check of its __post_init__. */
  function NewValidationScore(isValid: bool, score: real, issues: seq<Issue>): (r: Result<ValidationScore, string>)
    ensures r.Success? <==> InUnitRange(score)
    ensures r.Success? ==> r.value == ValidationScore(isValid, score, issues)
    ensures r.Failure? ==> r.error == "Score must be 0-1"
  {
    if 0.0 <= score <= 1.0 then Success(ValidationScore(isValid, score, issues))
    else Failure("Score must be 0-1")
  }

  /** Both bounds of the range are accepted. */
  lemma ScoreBoundsAccepted(isValid: bool, issues: seq<Issue>)
    ensures NewValidationScore(isValid, 0.0, issues) == Success(ValidationScore(isValid, 0.0, issues))
    ensures NewValidationScore(isValid, 1.0, issues) == Success(ValidationScore(isValid, 1.0, issues))
  {
  }
}
