/**
 * The number validator: the set of numbers found in the original must equal
 * the set found in the translation. Numbers are the matches of the pattern
 * `\b\d+(?:[.,]\d+)?\b`, found left to right without overlap as `re.findall`
 * does; the scanner below follows the pattern's backtracking by hand.
 */
module NumberValidator {
  import opened TextUtil
  import opened Wrappers
  import opened ValueObjects

  predicate AllDigits(s: string)
  {
    forall i :: 0 <= i < |s| ==> IsDigit(s[i])
  }

  /** The strings the pattern matches: digits, optionally a '.' or ',' and more digits. */
  predicate IsNumberToken(t: string)
  {
    (t != [] && AllDigits(t))
    || exists k :: 0 < k < |t| - 1 && (t[k] == '.' || t[k] == ',') && AllDigits(t[..k]) && AllDigits(t[k + 1..])
  }

  /** The end of the run of digits that starts at i. */
  function DigitRunEnd(s: string, i: nat): (j: nat)
    requires i <= |s|
    ensures i <= j <= |s| && AllDigits(s[i..j])
    ensures j == |s| || !IsDigit(s[j])
    decreases |s| - i
  {
    if i == |s| || !IsDigit(s[i]) then i else DigitRunEnd(s, i + 1)
  }

  /** `\b` before position i, where s[i] is a word character. */
  predicate BoundaryBefore(s: string, i: nat)
    requires i <= |s|
  {
    i == 0 || !IsWordChar(s[i - 1])
  }

  /** `\b` after position j, where s[j-1] is a word character. */
  predicate BoundaryAfter(s: string, j: nat)
    requires j <= |s|
  {
    j == |s| || !IsWordChar(s[j])
  }

  /**
   * The end of the match that starts at i, if any. The optional fraction is
   * tried first; when the boundary after it fails, the match falls back to
   * the integer part, whose end is then the separator and so a boundary.
   */
  function MatchEnd(s: string, i: nat): (e: Option<nat>)
    requires i < |s| && IsDigit(s[i])
    ensures e.Some? ==> i < e.value <= |s| && IsNumberToken(s[i..e.value]) && BoundaryAfter(s, e.value)
  {
    var j := DigitRunEnd(s, i);
    if j + 1 < |s| && (s[j] == '.' || s[j] == ',') && IsDigit(s[j + 1]) then
      var k := DigitRunEnd(s, j + 1);
      if BoundaryAfter(s, k) then
        assert s[i..k][..j - i] == s[i..j] && s[i..k][j - i + 1..] == s[j + 1..k];
        Some(k)
      else
        Some(j)
    else if BoundaryAfter(s, j) then Some(j)
    else None
  }

  /** re.findall of the number pattern on s, from position i on. */
  function NumbersFrom(s: string, i: nat): (ns: seq<string>)
    requires i <= |s|
    ensures forall k :: 0 <= k < |ns| ==> IsNumberToken(ns[k])
    decreases |s| - i
  {
    if i == |s| then []
    else if IsDigit(s[i]) && BoundaryBefore(s, i) && MatchEnd(s, i).Some? then
      var e := MatchEnd(s, i).value;
      [s[i..e]] + NumbersFrom(s, e)
    else NumbersFrom(s, i + 1)
  }

  function Numbers(s: string): (ns: set<string>)
    ensures forall t :: t in ns ==> IsNumberToken(t)
  {
    var all := NumbersFrom(s, 0);
    set k | 0 <= k < |all| :: all[k]
  }

  /** t occurs in s at or after position i. */
  ghost predicate OccursFrom(s: string, t: string, i: nat)
  {
    exists p :: i <= p && OccursAt(s, t, p)
  }

  /** Every number found is a piece of the text. */
  lemma {:induction false} NumbersFromOccur(s: string, i: nat)
    requires i <= |s|
    ensures forall k :: 0 <= k < |NumbersFrom(s, i)| ==> OccursFrom(s, NumbersFrom(s, i)[k], i)
    decreases |s| - i
  {
    var ns := NumbersFrom(s, i);
    if i < |s| {
      if IsDigit(s[i]) && BoundaryBefore(s, i) && MatchEnd(s, i).Some? {
        var e := MatchEnd(s, i).value;
        NumbersFromOccur(s, e);
        var rest := NumbersFrom(s, e);
        assert ns == [s[i..e]] + rest;
        forall k | 0 <= k < |ns| ensures OccursFrom(s, ns[k], i) {
          if k == 0 {
            assert OccursAt(s, ns[0], i);
          } else {
            assert ns[k] == rest[k - 1];
            var p :| e <= p && OccursAt(s, ns[k], p);
          }
        }
      } else {
        NumbersFromOccur(s, i + 1);
        assert ns == NumbersFrom(s, i + 1);
        forall k | 0 <= k < |ns| ensures OccursFrom(s, ns[k], i) {
          var p :| i + 1 <= p && OccursAt(s, ns[k], p);
        }
      }
    }
  }

  /** A text without digits contains no numbers. */
  lemma {:induction false} NoDigitsNoNumbers(s: string, i: nat)
    requires i <= |s|
    requires forall p :: i <= p < |s| ==> !IsDigit(s[p])
    ensures NumbersFrom(s, i) == []
    decreases |s| - i
  {
    if i < |s| {
      NoDigitsNoNumbers(s, i + 1);
    }
  }

  /** NumberValidator.validate(original, translated) */
  function Validate(original: string, translated: string): (r: ValidationScore)
    ensures InUnitRange(r.score)
    ensures r.isValid <==> Numbers(original) == Numbers(translated)
    ensures r.isValid ==> r.score == 1.0 && r.issues == []
    ensures !r.isValid ==> r.score == 0.5
  {
    var origNums := Numbers(original);
    var transNums := Numbers(translated);
    if origNums == transNums then ValidationScore(true, 1.0, [])
    else
      var missing := origNums - transNums;
      var extra := transNums - origNums;
      var issues :=
        (if missing != {} then [MissingNumbers(missing)] else [])
        + (if extra != {} then [ExtraNumbers(extra)] else []);
      ValidationScore(false, 0.5, issues)
  }

  /**
   * The issues of a failed check: the missing numbers come first, the extra
   * numbers second, each only when there are some, and there is always at
   * least one.
   */
  lemma ValidateIssues(original: string, translated: string)
    ensures var o := Numbers(original);
      var t := Numbers(translated);
      var r := Validate(original, translated);
      o != t ==>
        |r.issues| >= 1
        && r.issues == (if o - t != {} then [MissingNumbers(o - t)] else [])
                       + (if t - o != {} then [ExtraNumbers(t - o)] else [])
  {
    var o := Numbers(original);
    var t := Numbers(translated);
    if o - t == {} && t - o == {} {
      NoDifferenceEqual(o, t);
    }
  }

  lemma NoDifferenceEqual<T>(a: set<T>, b: set<T>)
    requires a - b == {} && b - a == {}
    ensures a == b
  {
    forall x ensures x in a <==> x in b {
      if x in a { assert x !in a - b; }
      if x in b { assert x !in b - a; }
    }
  }

  lemma ValidateConstructs(original: string, translated: string)
    ensures var r := Validate(original, translated);
      NewValidationScore(r.isValid, r.score, r.issues) == Success(r)
  {
  }
}
