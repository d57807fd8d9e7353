/**
 * The grammar checker's records: an error found by the checker, with its
 * place in the text and an optional replacement, and the result of
 * correcting one file.
 */
module GrammarModels {
  import opened Wrappers

  datatype ErrorType = Spelling | Grammar | Punctuation | Typography | Style
  {
    /** The enum's string value. */
    function Value(): (v: string)
      ensures v != []
    {
      match this
      case Spelling => "spelling"
      case Grammar => "grammar"
      case Punctuation => "punctuation"
      case Typography => "typography"
      case Style => "style"
    }
  }

  datatype Severity = Low | Medium | High
  {
    /** The enum's string value. */
    function Value(): (v: string)
      ensures v != []
    {
      match this
      case Low => "low"
      case Medium => "medium"
      case High => "high"
    }
  }

  /** Distinct members have distinct values, so counting by value counts by member. */
  lemma ValuesDistinct(t1: ErrorType, t2: ErrorType, s1: Severity, s2: Severity)
    ensures t1.Value() == t2.Value() ==> t1 == t2
    ensures s1.Value() == s2.Value() ==> s1 == s2
  {
  }

  datatype GrammarError = GrammarError(
    lineNumber: int,
    offset: int,
    length: int,
    errorType: ErrorType,
    severity: Severity,
    message: string,
    originalText: string,
    suggestedReplacement: Option<string>,
    ruleId: Option<string>)

  /** `if error.suggested_replacement`: present and not empty. */
  predicate HasSuggestion(e: GrammarError)
  {
    e.suggestedReplacement.Some? && e.suggestedReplacement.value != ""
  }

  /** The dictionary to_dict builds, with the enums as their values. */
  datatype ErrorRecord = ErrorRecord(
    line: int,
    offset: int,
    length: int,
    errorType: string,
    severity: string,
    message: string,
    original: string,
    suggested: Option<string>,
    rule: Option<string>)

  /** to_dict: every field, the enums by value. */
  function ToDict(e: GrammarError): (d: ErrorRecord)
    ensures d.line == e.lineNumber && d.offset == e.offset && d.length == e.length
    ensures d.errorType == e.errorType.Value() && d.severity == e.severity.Value()
    ensures d.message == e.message && d.original == e.originalText
    ensures d.suggested == e.suggestedReplacement && d.rule == e.ruleId
  {
    ErrorRecord(e.lineNumber, e.offset, e.length, e.errorType.Value(), e.severity.Value(),
                e.message, e.originalText, e.suggestedReplacement, e.ruleId)
  }

  /** to_dict loses nothing: two errors with the same record are the same error. */
  lemma ToDictInjective(e1: GrammarError, e2: GrammarError)
    ensures ToDict(e1) == ToDict(e2) ==> e1 == e2
  {
    ValuesDistinct(e1.errorType, e2.errorType, e1.severity, e2.severity);
  }

  datatype CorrectionResult = CorrectionResult(
    originalFile: string,
    correctedFile: string,
    totalErrors: int,
    fixedErrors: int,
    errors: seq<GrammarError>,
    success: bool,
    errorMessage: Option<string>)
}
