/**
 * The summary written next to a corrected file: the statistics of the
 * correction, the errors counted by type and by severity, and the errors
 * split into those that were fixed and those that were not.
 *
 * The timestamp comes from the caller (the program reads the clock).
 */
module GrammarSummary {
  import opened Wrappers
  import opened TextUtil
  import opened SeqUtil
  import opened GrammarModels
  import GrammarCorrector
  import Sorting

  /** `counts.get(k, 0)` */
  function Get(m: map<string, int>, k: string): int
  {
    if k in m then m[k] else 0
  }

  /** One iteration of a grouping loop: one more error under the key k. */
  function Bump(m: map<string, int>, k: string): (r: map<string, int>)
    ensures r.Keys == m.Keys + {k}
    ensures Get(r, k) == Get(m, k) + 1
    ensures forall j :: j != k ==> Get(r, j) == Get(m, j)
  {
    m[k := Get(m, k) + 1]
  }

  /** The counts after the grouping loop has seen every error of es. */
  function CountsSpec(es: seq<GrammarError>, key: GrammarError -> string): map<string, int>
  {
    if es == [] then map[] else Bump(CountsSpec(es[..|es| - 1], key), key(es[|es| - 1]))
  }

  /** The key of _group_by_type. */
  function TypeName(e: GrammarError): string
  {
    e.errorType.Value()
  }

  /** The key of _group_by_severity. */
  function SeverityName(e: GrammarError): string
  {
    e.severity.Value()
  }

  /**
   * A key is present exactly when some error has it, and its count is the
   * number of errors with that key.
   */
  lemma CountsMeaning(es: seq<GrammarError>, key: GrammarError -> string, k: string)
    ensures var m := CountsSpec(es, key);
      (k in m <==> exists i :: 0 <= i < |es| && key(es[i]) == k)
      && Get(m, k) == |Filter(es, e => key(e) == k)|
  {
    CountsKeys(es, key, k);
    CountsValue(es, key, k);
  }

  lemma {:induction false} CountsKeys(es: seq<GrammarError>, key: GrammarError -> string, k: string)
    ensures k in CountsSpec(es, key) <==> exists i :: 0 <= i < |es| && key(es[i]) == k
  {
    if es != [] {
      var n := |es| - 1;
      CountsKeys(es[..n], key, k);
      if k in CountsSpec(es, key) && key(es[n]) != k {
        var i :| 0 <= i < n && key(es[..n][i]) == k;
        assert es[..n][i] == es[i];
      }
      forall i | 0 <= i < n ensures es[..n][i] == es[i] { }
    }
  }

  lemma {:induction false} CountsValue(es: seq<GrammarError>, key: GrammarError -> string, k: string)
    ensures Get(CountsSpec(es, key), k) == |Filter(es, e => key(e) == k)|
  {
    if es != [] {
      var n := |es| - 1;
      var p := (e: GrammarError) => key(e) == k;
      CountsValue(es[..n], key, k);
      assert es == es[..n] + [es[n]];
      FilterAppend(es[..n], [es[n]], p);
      assert [es[n]][1..] == [];
    }
  }

  /** Every error is counted under one of the five type names. */
  lemma {:induction false} TypeCountsSum(es: seq<GrammarError>)
    ensures var m := CountsSpec(es, TypeName);
      Get(m, "spelling") + Get(m, "grammar") + Get(m, "punctuation") + Get(m, "typography") + Get(m, "style") == |es|
      && m.Keys <= {"spelling", "grammar", "punctuation", "typography", "style"}
  {
    if es != [] {
      TypeCountsSum(es[..|es| - 1]);
    }
  }

  /** Every error is counted under one of the three severity names. */
  lemma {:induction false} SeverityCountsSum(es: seq<GrammarError>)
    ensures var m := CountsSpec(es, SeverityName);
      Get(m, "low") + Get(m, "medium") + Get(m, "high") == |es|
      && m.Keys <= {"low", "medium", "high"}
  {
    if es != [] {
      SeverityCountsSum(es[..|es| - 1]);
    }
  }

  /** The loop shared by _group_by_type and _group_by_severity. */
  method GroupBy(errors: seq<GrammarError>, key: GrammarError -> string) returns (counts: map<string, int>)
    ensures counts == CountsSpec(errors, key)
  {
    counts := map[];
    for i := 0 to |errors|
      invariant counts == CountsSpec(errors[..i], key)
    {
      var name := key(errors[i]);
      counts := counts[name := (if name in counts then counts[name] else 0) + 1];
      assert errors[..i + 1][..i] == errors[..i];
    }
    assert errors[..|errors|] == errors;
  }

  /** _group_by_type: the count per type name, summing to the number of errors. */
  method GroupByType(errors: seq<GrammarError>) returns (counts: map<string, int>)
    ensures counts == CountsSpec(errors, TypeName)
    ensures Get(counts, "spelling") + Get(counts, "grammar") + Get(counts, "punctuation")
            + Get(counts, "typography") + Get(counts, "style") == |errors|
  {
    counts := GroupBy(errors, TypeName);
    TypeCountsSum(errors);
  }

  /** _group_by_severity: the count per severity name, summing to the number of errors. */
  method GroupBySeverity(errors: seq<GrammarError>) returns (counts: map<string, int>)
    ensures counts == CountsSpec(errors, SeverityName)
    ensures Get(counts, "low") + Get(counts, "medium") + Get(counts, "high") == |errors|
  {
    counts := GroupBy(errors, SeverityName);
    SeverityCountsSum(errors);
  }

  /** `round(fixed / total * 100, 2) if total > 0 else 0`, on exact rationals. */
  function FixRate(fixed: int, total: int): real
  {
    if total > 0 then (RoundHalfEven(10000 * fixed, total) as real) / 100.0 else 0.0
  }

  lemma MulMonotone(a: int, b: int, c: int)
    requires a <= b && c > 0
    ensures a * c <= b * c
  {
    assert b * c - a * c == (b - a) * c;
  }

  /** Rounding a share of the errors, in hundredths of a percent, stays within 0 and 10000. */
  lemma RoundedShare(fixed: int, total: int)
    requires 0 <= fixed <= total && total > 0
    ensures 0 <= RoundHalfEven(10000 * fixed, total) <= 10000
  {
    var q := RoundHalfEven(10000 * fixed, total);
    RoundHalfEvenClose(10000 * fixed, total);
    if q < 0 {
      MulMonotone(q, -1, total);
      assert false;
    }
    if q > 10000 {
      MulMonotone(10001, q, total);
      MulMonotone(fixed, total, 10000);
      assert false;
    }
  }

  /** The rate is a percentage when the fixes are part of the errors, and the ends are exact. */
  lemma FixRateBounds(fixed: int, total: int)
    ensures total <= 0 ==> FixRate(fixed, total) == 0.0
    ensures 0 <= fixed <= total ==> 0.0 <= FixRate(fixed, total) <= 100.0
    ensures 0 < total ==> FixRate(0, total) == 0.0 && FixRate(total, total) == 100.0
  {
    if 0 <= fixed <= total && total > 0 {
      RoundedShare(fixed, total);
    }
    if total > 0 {
      assert RoundHalfEven(10000 * total, total) == 10000 by {
        assert (10000 * total) / total == 10000;
        assert (10000 * total) % total == 0;
      }
      assert RoundHalfEven(0, total) == 0;
    }
  }

  datatype Statistics = Statistics(totalErrors: int, fixedErrors: int, unfixedErrors: int, fixRate: real)

  datatype Metadata = Metadata(version: string, timestamp: string, originalFile: string, correctedFile: string)

  datatype Summary = Summary(
    metadata: Metadata,
    statistics: Statistics,
    errorsByType: map<string, int>,
    errorsBySeverity: map<string, int>,
    detailedFixes: seq<ErrorRecord>,
    unfixedErrors: seq<ErrorRecord>)

  predicate NoSuggestion(e: GrammarError)
  {
    !HasSuggestion(e)
  }

  /** `[error.to_dict() for error in errors]` */
  function Records(es: seq<GrammarError>): (rs: seq<ErrorRecord>)
    ensures |rs| == |es| && forall i :: 0 <= i < |es| ==> rs[i] == ToDict(es[i])
  {
    if es == [] then [] else [ToDict(es[0])] + Records(es[1..])
  }

  /** generate_summary */
  function GenerateSummary(result: CorrectionResult, version: string, timestamp: string): Summary
  {
    Summary(
      Metadata(version, timestamp, result.originalFile, result.correctedFile),
      Statistics(result.totalErrors, result.fixedErrors, result.totalErrors - result.fixedErrors,
                 FixRate(result.fixedErrors, result.totalErrors)),
      CountsSpec(result.errors, TypeName),
      CountsSpec(result.errors, SeverityName),
      Records(Filter(result.errors, HasSuggestion)),
      Records(Filter(result.errors, NoSuggestion)))
  }

  /** A record lists an error whose filter condition holds. */
  lemma RecordsOfFilter(es: seq<GrammarError>, p: GrammarError -> bool, r: ErrorRecord)
    requires r in Records(Filter(es, p))
    ensures exists e :: e in es && p(e) && r == ToDict(e)
  {
    var fs := Filter(es, p);
    var i :| 0 <= i < |fs| && Records(fs)[i] == r;
    assert fs[i] in fs;
  }

  /**
   * The fixed list holds only records with a non-empty replacement and the
   * unfixed list only records without one.
   */
  lemma SummarySides(result: CorrectionResult, version: string, timestamp: string)
    ensures var s := GenerateSummary(result, version, timestamp);
      (forall r :: r in s.detailedFixes ==> r.suggested.Some? && r.suggested.value != "")
      && (forall r :: r in s.unfixedErrors ==> r.suggested.None? || r.suggested.value == "")
  {
    var s := GenerateSummary(result, version, timestamp);
    forall r | r in s.detailedFixes ensures r.suggested.Some? && r.suggested.value != "" {
      RecordsOfFilter(result.errors, HasSuggestion, r);
    }
    forall r | r in s.unfixedErrors ensures r.suggested.None? || r.suggested.value == "" {
      RecordsOfFilter(result.errors, NoSuggestion, r);
    }
  }

  /**
   * The fixed and the unfixed lists partition the errors: between them they
   * hold one record per error, and each error is on the side its
   * replacement decides.
   */
  lemma SummaryPartition(result: CorrectionResult, version: string, timestamp: string)
    ensures var s := GenerateSummary(result, version, timestamp);
      |s.detailedFixes| + |s.unfixedErrors| == |result.errors|
      && (forall e :: e in result.errors && HasSuggestion(e) ==> ToDict(e) in s.detailedFixes)
      && (forall e :: e in result.errors && !HasSuggestion(e) ==> ToDict(e) in s.unfixedErrors)
  {
    var es := result.errors;
    FilterPartition(es, HasSuggestion, NoSuggestion);
    var fixes := Filter(es, HasSuggestion);
    var unfixed := Filter(es, NoSuggestion);
    forall e | e in es && HasSuggestion(e) ensures ToDict(e) in Records(fixes) {
      FilterKeeps(es, HasSuggestion, e);
      var i :| 0 <= i < |fixes| && fixes[i] == e;
      assert Records(fixes)[i] == ToDict(e);
    }
    forall e | e in es && !HasSuggestion(e) ensures ToDict(e) in Records(unfixed) {
      FilterKeeps(es, NoSuggestion, e);
      var i :| 0 <= i < |unfixed| && unfixed[i] == e;
      assert Records(unfixed)[i] == ToDict(e);
    }
  }

  /**
   * For the result of correcting a text with fixes applied, as the program
   * builds it (the total is the number of errors, the fixed count that of
   * the corrector), the statistics agree with the two lists.
   */
  lemma CorrectionSummary(text: string, errors: seq<GrammarError>, originalFile: string, correctedFile: string,
                          version: string, timestamp: string)
    ensures var result := CorrectionResult(originalFile, correctedFile, |errors|,
                                           GrammarCorrector.ApplyCorrectionsSpec(text, errors).1, errors, true, None);
      var s := GenerateSummary(result, version, timestamp);
      s.statistics.fixedErrors == |s.detailedFixes| && s.statistics.unfixedErrors == |s.unfixedErrors|
      && 0.0 <= s.statistics.fixRate <= 100.0
  {
    var sorted := Sorting.SortByDesc(errors, GrammarCorrector.Offset);
    GrammarCorrector.ApplyAllCount(text, sorted);
    Sorting.SortByDescCount(errors, GrammarCorrector.Offset, HasSuggestion);
    FilterPartition(errors, HasSuggestion, NoSuggestion);
    var fixed := GrammarCorrector.ApplyCorrectionsSpec(text, errors).1;
    FixRateBounds(fixed, |errors|);
  }
}
