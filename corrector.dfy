/**
 * Applying the checker's suggestions to a text: the errors are taken in
 * descending order of offset, and each one that carries a replacement
 * splices it over its span, so that the offsets of the errors still to come,
 * all further left, stay valid.
 */
module GrammarCorrector {
  import opened Wrappers
  import opened TextUtil
  import opened SeqUtil
  import opened Sorting
  import opened GrammarModels

  function Offset(e: GrammarError): int
  {
    e.offset
  }

  /** One iteration of the loop: `corrected[:start] + replacement + corrected[end:]`, for errors with a replacement. */
  function Fix(s: string, e: GrammarError): (r: string)
    ensures !HasSuggestion(e) ==> r == s
    ensures HasSuggestion(e) && 0 <= e.offset && 0 <= e.length && e.offset + e.length <= |s| ==>
      r == s[..e.offset] + e.suggestedReplacement.value + s[e.offset + e.length..]
  {
    if HasSuggestion(e) then
      PySlice(s, 0, e.offset) + e.suggestedReplacement.value + PySlice(s, e.offset + e.length, |s|)
    else s
  }

  /** The loop over the errors in the given order: the text and the number of fixes. */
  function ApplyAll(s: string, es: seq<GrammarError>): (string, nat)
    decreases |es|
  {
    if es == [] then (s, 0)
    else
      var rest := ApplyAll(Fix(s, es[0]), es[1..]);
      (rest.0, rest.1 + (if HasSuggestion(es[0]) then 1 else 0))
  }

  /** _apply_corrections, as a value: the loop over the errors sorted by descending offset. */
  function ApplyCorrectionsSpec(text: string, errors: seq<GrammarError>): (string, nat)
  {
    ApplyAll(text, SortByDesc(errors, Offset))
  }

  /** The count is the number of errors that carry a replacement. */
  lemma {:induction false} ApplyAllCount(s: string, es: seq<GrammarError>)
    ensures ApplyAll(s, es).1 == CountWhere(es, HasSuggestion)
    decreases |es|
  {
    if es != [] {
      ApplyAllCount(Fix(s, es[0]), es[1..]);
      FilterAppend([es[0]], es[1..], HasSuggestion);
      assert [es[0]] + es[1..] == es;
    }
  }

  /** Errors without a replacement change nothing: the text is that of the fixes alone. */
  lemma {:induction false} ApplyAllIgnoresUnsuggested(s: string, es: seq<GrammarError>)
    ensures ApplyAll(s, es).0 == ApplyAll(s, Filter(es, HasSuggestion)).0
    decreases |es|
  {
    if es != [] {
      ApplyAllIgnoresUnsuggested(Fix(s, es[0]), es[1..]);
      var f := Filter(es[1..], HasSuggestion);
      if HasSuggestion(es[0]) {
        assert Filter(es, HasSuggestion) == [es[0]] + f;
        assert ([es[0]] + f)[1..] == f;
      } else {
        assert Filter(es, HasSuggestion) == f;
      }
    }
  }

  /**
   * The errors with a replacement lie within s and, in the order given, each
   * ends at or before the start of every earlier one.
   */
  predicate RightToLeft(s: string, d: seq<GrammarError>)
  {
    (forall i :: 0 <= i < |d| && HasSuggestion(d[i]) ==>
       0 <= d[i].offset && 0 <= d[i].length && d[i].offset + d[i].length <= |s|)
    && (forall i, j :: 0 <= i < j < |d| && HasSuggestion(d[i]) && HasSuggestion(d[j]) ==>
          d[j].offset + d[j].length <= d[i].offset)
  }

  /**
   * The original text with each replacement put over its own span of the
   * original, for replacements that do not overlap, the rightmost first.
   */
  function SpliceAll(s: string, d: seq<GrammarError>): (r: string)
    requires RightToLeft(s, d)
    decreases |d|
  {
    if d == [] then s
    else if !HasSuggestion(d[0]) then
      assert RightToLeft(s, d[1..]) by {
        forall i | 0 <= i < |d[1..]| ensures d[1..][i] == d[i + 1] { }
      }
      SpliceAll(s, d[1..])
    else
      var o := d[0].offset;
      assert RightToLeft(s[..o], d[1..]) by {
        forall i | 0 <= i < |d[1..]| ensures d[1..][i] == d[i + 1] { }
      }
      SpliceAll(s[..o], d[1..]) + d[0].suggestedReplacement.value + s[o + d[0].length..]
  }

  lemma RightToLeftTail(s: string, d: seq<GrammarError>)
    requires d != [] && RightToLeft(s, d)
    ensures RightToLeft(s, d[1..])
    ensures HasSuggestion(d[0]) ==> RightToLeft(s[..d[0].offset], d[1..])
  {
    forall i | 0 <= i < |d[1..]| ensures d[1..][i] == d[i + 1] { }
  }

  /** Fixes that all lie within x leave a text y after x alone. */
  lemma {:induction false} ApplyAllLocal(x: string, y: string, d: seq<GrammarError>)
    requires RightToLeft(x, d)
    ensures ApplyAll(x + y, d).0 == ApplyAll(x, d).0 + y
    decreases |d|
  {
    if d != [] {
      RightToLeftTail(x, d);
      var e := d[0];
      if HasSuggestion(e) {
        var o := e.offset;
        var rep := e.suggestedReplacement.value;
        assert (x + y)[..o] == x[..o];
        assert (x + y)[o + e.length..] == x[o + e.length..] + y;
        assert Fix(x + y, e) == Fix(x, e) + y;
        assert RightToLeft(Fix(x, e), d[1..]) by {
          forall i | 0 <= i < |d[1..]| ensures d[1..][i] == d[i + 1] { }
        }
        ApplyAllLocal(Fix(x, e), y, d[1..]);
      } else {
        ApplyAllLocal(x, y, d[1..]);
      }
    }
  }

  /**
   * Taking non-overlapping fixes from right to left puts each replacement
   * exactly over its span of the original text.
   */
  lemma {:induction false} ApplyRightToLeft(s: string, d: seq<GrammarError>)
    requires RightToLeft(s, d)
    ensures ApplyAll(s, d).0 == SpliceAll(s, d)
    decreases |d|
  {
    if d != [] {
      RightToLeftTail(s, d);
      var e := d[0];
      if HasSuggestion(e) {
        var o := e.offset;
        var tail := e.suggestedReplacement.value + s[o + e.length..];
        assert Fix(s, e) == s[..o] + tail;
        ApplyAllLocal(s[..o], tail, d[1..]);
        ApplyRightToLeft(s[..o], d[1..]);
      } else {
        ApplyRightToLeft(s, d[1..]);
      }
    }
  }

  /**
   * The replacements of the errors are within the text and do not overlap:
   * two different errors with replacements are side by side at most, and an
   * error that spans any characters is not listed twice.
   */
  predicate Disjoint(text: string, errors: seq<GrammarError>)
  {
    (forall e :: e in errors && HasSuggestion(e) ==>
       0 <= e.offset && 0 <= e.length && e.offset + e.length <= |text|)
    && (forall e1, e2 ::
          (e1 in errors && e2 in errors && HasSuggestion(e1) && HasSuggestion(e2) && e1 != e2 && e1.offset <= e2.offset)
          ==> e1.offset + e1.length <= e2.offset)
    && (forall e :: e in errors && HasSuggestion(e) && e.length > 0 ==> multiset(errors)[e] == 1)
  }

  lemma RepeatedCount<T>(s: seq<T>, i: nat, j: nat)
    requires i < j < |s| && s[i] == s[j]
    ensures multiset(s)[s[i]] >= 2
  {
    assert s == s[..j] + [s[j]] + s[j + 1..];
    assert s[i] in multiset(s[..j]) by {
      assert s[..j][i] == s[i];
    }
  }

  /** Sorting non-overlapping fixes by descending offset lines them up from right to left. */
  lemma SortedRightToLeft(text: string, errors: seq<GrammarError>)
    requires Disjoint(text, errors)
    ensures RightToLeft(text, SortByDesc(errors, Offset))
  {
    var d := SortByDesc(errors, Offset);
    SortByDescOrdered(errors, Offset);
    forall i | 0 <= i < |d| ensures d[i] in errors {
      assert d[i] in multiset(d);
    }
    forall i, j | 0 <= i < j < |d| && HasSuggestion(d[i]) && HasSuggestion(d[j])
      ensures d[j].offset + d[j].length <= d[i].offset
    {
      assert Offset(d[i]) >= Offset(d[j]);
      if d[i] == d[j] {
        RepeatedCount(d, i, j);
      }
    }
  }

  /**
   * The correction of a text whose fixes do not overlap is the original with
   * each replacement over its own span, and the count is the number of fixes.
   */
  lemma CorrectionSplices(text: string, errors: seq<GrammarError>)
    requires Disjoint(text, errors)
    ensures var d := SortByDesc(errors, Offset);
      RightToLeft(text, d) && ApplyCorrectionsSpec(text, errors).0 == SpliceAll(text, d)
  {
    SortedRightToLeft(text, errors);
    ApplyRightToLeft(text, SortByDesc(errors, Offset));
  }

  /** Two errors at different offsets sort right one first, whichever way they are listed. */
  lemma SortTwo(e1: GrammarError, e2: GrammarError)
    requires e1.offset < e2.offset
    ensures SortByDesc([e1, e2], Offset) == [e2, e1] && SortByDesc([e2, e1], Offset) == [e2, e1]
  {
    var neg := Neg(Offset);
    assert neg(e1) == -Offset(e1) && neg(e2) == -Offset(e2);
    assert [e1, e2][1..] == [e2] && [e2, e1][1..] == [e1];
    assert [e1][1..] == [] && [e2][1..] == [];
    assert SortBy([e2], neg) == [e2] && SortBy([e1], neg) == [e1];
    assert Insert(e1, [], neg) == [e1];
    assert Insert(e1, [e2], neg) == [e2, e1];
    assert Insert(e2, [e1], neg) == [e2, e1];
    assert SortByDesc([e1, e2], Offset) == [e2, e1];
    assert SortByDesc([e2, e1], Offset) == [e2, e1];
  }

  /** Two fixes side by side, listed in either order, land at their own offsets in the original. */
  lemma TwoFixes(text: string, e1: GrammarError, e2: GrammarError)
    requires HasSuggestion(e1) && HasSuggestion(e2)
    requires 0 <= e1.offset && 0 <= e1.length && 0 <= e2.length
    requires e1.offset < e2.offset && e1.offset + e1.length <= e2.offset && e2.offset + e2.length <= |text|
    ensures ApplyCorrectionsSpec(text, [e1, e2]) == ApplyCorrectionsSpec(text, [e2, e1])
    ensures ApplyCorrectionsSpec(text, [e1, e2]) ==
      (text[..e1.offset] + e1.suggestedReplacement.value + text[e1.offset + e1.length..e2.offset]
       + e2.suggestedReplacement.value + text[e2.offset + e2.length..], 2)
  {
    FixTwice(text, e1, e2);
    ApplyAllTwo(text, e2, e1);
    SortTwo(e1, e2);
  }

  /** The right fix first, then the left one: both land in the original. */
  lemma FixTwice(text: string, e1: GrammarError, e2: GrammarError)
    requires HasSuggestion(e1) && HasSuggestion(e2)
    requires 0 <= e1.offset && 0 <= e1.length && 0 <= e2.length
    requires e1.offset < e2.offset && e1.offset + e1.length <= e2.offset && e2.offset + e2.length <= |text|
    ensures Fix(Fix(text, e2), e1) ==
      text[..e1.offset] + e1.suggestedReplacement.value + text[e1.offset + e1.length..e2.offset]
      + e2.suggestedReplacement.value + text[e2.offset + e2.length..]
  {
    var r1, r2 := e1.suggestedReplacement.value, e2.suggestedReplacement.value;
    var s1 := Fix(text, e2);
    SpliceTwo(text, e1.offset, e1.length, r1, e2.offset, e2.length, r2, s1);
  }

  /** Two errors that both carry a replacement: both fixes, in list order. */
  lemma ApplyAllTwo(s: string, a: GrammarError, b: GrammarError)
    requires HasSuggestion(a) && HasSuggestion(b)
    ensures ApplyAll(s, [a, b]) == (Fix(Fix(s, a), b), 2)
  {
    ApplyAllOne(Fix(s, a), b);
    assert [a, b][1..] == [b];
  }

  lemma ApplyAllOne(s: string, b: GrammarError)
    requires HasSuggestion(b)
    ensures ApplyAll(s, [b]) == (Fix(s, b), 1)
  {
    assert [b][1..] == [];
  }

  /** Splicing at o2 and then at o1, left of it, is splicing both into the original. */
  lemma SpliceTwo(text: string, o1: nat, l1: nat, r1: string, o2: nat, l2: nat, r2: string, s1: string)
    requires o1 + l1 <= o2 && o2 + l2 <= |text|
    requires s1 == text[..o2] + r2 + text[o2 + l2..]
    ensures o1 + l1 <= |s1|
    ensures s1[..o1] + r1 + s1[o1 + l1..] == text[..o1] + r1 + text[o1 + l1..o2] + r2 + text[o2 + l2..]
  {
    assert s1[..o1] == text[..o1];
    assert s1[o1 + l1..] == text[o1 + l1..o2] + r2 + text[o2 + l2..];
  }

  /**
   * _apply_corrections: sorts the errors by descending offset, then splices
   * each replacement over its span and counts it.
   */
  method ApplyCorrections(text: string, errors: seq<GrammarError>) returns (corrected: string, fixedCount: nat)
    ensures (corrected, fixedCount) == ApplyCorrectionsSpec(text, errors)
    ensures fixedCount == CountWhere(errors, HasSuggestion)
    ensures errors == [] ==> corrected == text && fixedCount == 0
  {
    var sortedErrors := SortByDesc(errors, Offset);
    corrected, fixedCount := ApplyInOrder(text, sortedErrors);
    ApplyAllCount(text, sortedErrors);
    SortByDescCount(errors, Offset, HasSuggestion);
  }

  /** The loop of _apply_corrections over the already sorted errors. */
  method ApplyInOrder(text: string, sortedErrors: seq<GrammarError>) returns (corrected: string, fixedCount: nat)
    ensures (corrected, fixedCount) == ApplyAll(text, sortedErrors)
  {
    ghost var final := ApplyAll(text, sortedErrors);
    corrected := text;
    fixedCount := 0;
    for i := 0 to |sortedErrors|
      invariant ApplyAll(corrected, sortedErrors[i..]).0 == final.0
      invariant fixedCount + ApplyAll(corrected, sortedErrors[i..]).1 == final.1
    {
      var error := sortedErrors[i];
      assert sortedErrors[i..][1..] == sortedErrors[i + 1..];
      if HasSuggestion(error) {
        var start := error.offset;
        var end := start + error.length;
        corrected := PySlice(corrected, 0, start) + error.suggestedReplacement.value + PySlice(corrected, end, |corrected|);
        fixedCount := fixedCount + 1;
      }
    }
    assert sortedErrors[|sortedErrors|..] == [];
  }
}
