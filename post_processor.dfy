/**
 * Post-processing of a translated text: the numbers of the original are put
 * back, the spacing around punctuation is repaired, and the line structure,
 * capitalisation and surrounding whitespace of the original are restored.
 */
module PostProcessor {
  import opened Wrappers
  import opened TextUtil
  import NumberValidator
  import Formatting
  import SeqUtil

  // ---------------------------------------------------------------------------
  // _preserve_numbers

  /**
   * The first n zipped pairs applied in order: each time the first
   * occurrence of the translation's number is replaced by the original's,
   * in the text as rewritten so far.
   */
  function ReplaceNumbers(t: string, origNums: seq<string>, transNums: seq<string>, n: nat): string
    requires n <= |origNums| && n <= |transNums|
  {
    if n == 0 then t
    else ReplaceFirst(ReplaceNumbers(t, origNums, transNums, n - 1), transNums[n - 1], origNums[n - 1])
  }

  /** _preserve_numbers(original, translated) */
  function PreserveNumbersSpec(original: string, translated: string): (r: string)
    ensures |NumberValidator.NumbersFrom(original, 0)| != |NumberValidator.NumbersFrom(translated, 0)| ==> r == translated
  {
    var origNums := NumberValidator.NumbersFrom(original, 0);
    var transNums := NumberValidator.NumbersFrom(translated, 0);
    if |origNums| == |transNums| then ReplaceNumbers(translated, origNums, transNums, |origNums|)
    else translated
  }

  /** Replacing each number by itself changes nothing. */
  lemma {:induction false} ReplaceSameNumbers(t: string, nums: seq<string>, n: nat)
    requires n <= |nums|
    ensures ReplaceNumbers(t, nums, nums, n) == t
  {
    if n > 0 {
      ReplaceSameNumbers(t, nums, n - 1);
      ReplaceFirstSelf(t, nums[n - 1]);
    }
  }

  /** A translation whose numbers already are the original's, in order, is left as it is. */
  lemma PreserveNumbersAgreeing(original: string, translated: string)
    requires NumberValidator.NumbersFrom(original, 0) == NumberValidator.NumbersFrom(translated, 0)
    ensures PreserveNumbersSpec(original, translated) == translated
  {
    var nums := NumberValidator.NumbersFrom(original, 0);
    ReplaceSameNumbers(translated, nums, |nums|);
  }

  lemma NumbersOfOneFive()
    ensures NumberValidator.NumbersFrom("1 5", 0) == ["1", "5"]
  {
    var s := "1 5";
    assert NumberValidator.MatchEnd(s, 2) == Some(3);
    assert s[2..3] == "5";
    assert NumberValidator.NumbersFrom(s, 2) == ["5"] + NumberValidator.NumbersFrom(s, 3);
    assert NumberValidator.NumbersFrom(s, 1) == NumberValidator.NumbersFrom(s, 2);
    assert NumberValidator.MatchEnd(s, 0) == Some(1);
    assert s[0..1] == "1";
    assert NumberValidator.NumbersFrom(s, 0) == ["1"] + NumberValidator.NumbersFrom(s, 1);
  }

  lemma NumbersOfTwelveOne()
    ensures NumberValidator.NumbersFrom("12 1", 0) == ["12", "1"]
  {
    var s := "12 1";
    assert NumberValidator.MatchEnd(s, 3) == Some(4);
    assert s[3..4] == "1";
    assert NumberValidator.NumbersFrom(s, 3) == ["1"] + NumberValidator.NumbersFrom(s, 4);
    assert NumberValidator.NumbersFrom(s, 2) == NumberValidator.NumbersFrom(s, 3);
    assert NumberValidator.DigitRunEnd(s, 0) == 2;
    assert NumberValidator.MatchEnd(s, 0) == Some(2);
    assert s[0..2] == "12";
    assert NumberValidator.NumbersFrom(s, 0) == ["12"] + NumberValidator.NumbersFrom(s, 2);
  }

  /**
   * Each replacement searches the text as already rewritten: with the
   * numbers 1, 5 in the original and 12, 1 in the translation, "12" first
   * becomes "1", and then that new "1" becomes "5", so the result carries
   * the original's numbers in the wrong order.
   */
  lemma PreserveNumbersRewritesEarlier()
    ensures PreserveNumbersSpec("1 5", "12 1") == "5 1"
  {
    NumbersOfOneFive();
    NumbersOfTwelveOne();
    ReplaceTwelveByOne();
    ReplaceOneByFive();
    assert ReplaceNumbers("12 1", ["1", "5"], ["12", "1"], 1) == "1 1";
  }

  lemma ReplaceTwelveByOne()
    ensures ReplaceFirst("12 1", "12", "1") == "1 1"
  {
    assert Find("12 1", "12", 0) == 0;
  }

  lemma ReplaceOneByFive()
    ensures ReplaceFirst("1 1", "1", "5") == "5 1"
  {
    assert Find("1 1", "1", 0) == 0;
  }

  /** The loop of _preserve_numbers, which rebinds the translation pair by pair. */
  method PreserveNumbers(original: string, translated: string) returns (r: string)
    ensures r == PreserveNumbersSpec(original, translated)
  {
    var origNums := NumberValidator.NumbersFrom(original, 0);
    var transNums := NumberValidator.NumbersFrom(translated, 0);
    r := translated;
    if |origNums| == |transNums| {
      for i := 0 to |origNums|
        invariant r == ReplaceNumbers(translated, origNums, transNums, i)
      {
        r := ReplaceFirst(r, transNums[i], origNums[i]);
      }
    }
  }

  // ---------------------------------------------------------------------------
  // _fix_punctuation

  /** The marks of the character class [.,;:!?]. */
  predicate IsPunct(c: char)
  {
    c == '.' || c == ',' || c == ';' || c == ':' || c == '!' || c == '?'
  }

  /** The characters of s that are not whitespace, in order. */
  function Visible(s: string): (v: string)
    ensures |v| <= |s|
  {
    if s == [] then [] else (if IsSpace(s[0]) then [] else [s[0]]) + Visible(s[1..])
  }

  lemma {:induction false} VisibleAppend(a: string, b: string)
    ensures Visible(a + b) == Visible(a) + Visible(b)
  {
    if a != [] {
      var h := if IsSpace(a[0]) then [] else [a[0]];
      assert (a + b)[0] == a[0] && (a + b)[1..] == a[1..] + b;
      VisibleAppend(a[1..], b);
      SeqUtil.ConcatAssoc(h, Visible(a[1..]), Visible(b));
    } else {
      assert a + b == b;
    }
  }

  /** Visible of a text with one more character in front. */
  lemma VisibleCons(c: char, t: string)
    ensures Visible([c] + t) == (if IsSpace(c) then [] else [c]) + Visible(t)
  {
    assert ([c] + t)[0] == c && ([c] + t)[1..] == t;
  }

  lemma {:induction false} VisibleOfSpace(s: string)
    requires AllSpace(s)
    ensures Visible(s) == []
  {
    if s != [] {
      VisibleOfSpace(s[1..]);
    }
  }

  /** No two neighbouring characters a, b of s satisfy bad(a, b). */
  predicate NoPair(s: string, bad: (char, char) -> bool)
  {
    forall i :: 0 <= i < |s| - 1 ==> !bad(s[i], s[i + 1])
  }

  lemma NoPairSuffix(s: string, bad: (char, char) -> bool, k: nat)
    requires NoPair(s, bad) && k <= |s|
    ensures NoPair(s[k..], bad)
  {
    forall i | 0 <= i < |s[k..]| - 1
      ensures !bad(s[k..][i], s[k..][i + 1])
    {
      assert s[k..][i] == s[k + i] && s[k..][i + 1] == s[k + i + 1];
    }
  }

  predicate SpaceThenPunct(a: char, b: char)
  {
    IsSpace(a) && IsPunct(b)
  }

  predicate PunctThenText(a: char, b: char)
  {
    IsPunct(a) && !IsSpace(b)
  }

  predicate PunctThenPunct(a: char, b: char)
  {
    IsPunct(a) && IsPunct(b)
  }

  /** No whitespace character is directly followed by a punctuation mark. */
  predicate NoSpaceBeforePunct(s: string)
  {
    NoPair(s, SpaceThenPunct)
  }

  /** No punctuation mark is directly followed by a character other than whitespace. */
  predicate NoTextAfterPunct(s: string)
  {
    NoPair(s, PunctThenText)
  }

  /** No two punctuation marks are adjacent. */
  predicate NoAdjacentPunct(s: string)
  {
    NoPair(s, PunctThenPunct)
  }

  /** The number of whitespace characters s starts with. */
  function SpaceRun(s: string): (n: nat)
    ensures n <= |s| && (n == |s| || !IsSpace(s[n]))
    ensures forall k :: 0 <= k < n ==> IsSpace(s[k])
  {
    if s != [] && IsSpace(s[0]) then 1 + SpaceRun(s[1..]) else 0
  }

  /** s opens with a run of whitespace that a punctuation mark follows. */
  predicate RunBeforePunct(s: string)
  {
    s != [] && IsSpace(s[0]) && SpaceRun(s) < |s| && IsPunct(s[SpaceRun(s)])
  }

  /**
   * re.sub(r'\s+([.,;:!?])', r'\1', s): a run of whitespace followed by a
   * mark is replaced by the mark. Where the run is not followed by a mark,
   * no match starts at its first character, which is kept.
   */
  function DropSpaceBeforePunct(s: string): (r: string)
    ensures |r| <= |s|
    ensures s != [] && !RunBeforePunct(s) ==> r != [] && r[0] == s[0]
  {
    if s == [] then []
    else if RunBeforePunct(s) then [s[SpaceRun(s)]] + DropSpaceBeforePunct(s[SpaceRun(s) + 1..])
    else [s[0]] + DropSpaceBeforePunct(s[1..])
  }

  /** Only whitespace is removed: the other characters stay, in order. */
  lemma {:induction false} DropSpaceBeforePunctVisible(s: string)
    ensures Visible(DropSpaceBeforePunct(s)) == Visible(s)
    decreases |s|
  {
    if s != [] {
      if RunBeforePunct(s) {
        DropSpaceBeforePunctVisible(s[SpaceRun(s) + 1..]);
        DropRunVisible(s);
      } else {
        DropSpaceBeforePunctVisible(s[1..]);
        DropKeepVisible(s);
      }
    }
  }

  /** Dropping a leading whitespace run keeps the visible characters. */
  lemma DropRunVisible(s: string)
    requires RunBeforePunct(s)
    requires Visible(DropSpaceBeforePunct(s[SpaceRun(s) + 1..])) == Visible(s[SpaceRun(s) + 1..])
    ensures Visible(DropSpaceBeforePunct(s)) == Visible(s)
  {
    var j := SpaceRun(s);
    DropRunUnfold(s);
    RunVisible(s, j, DropSpaceBeforePunct(s[j + 1..]));
  }

  lemma DropRunUnfold(s: string)
    requires RunBeforePunct(s)
    ensures DropSpaceBeforePunct(s) == [s[SpaceRun(s)]] + DropSpaceBeforePunct(s[SpaceRun(s) + 1..])
  {
  }

  /** A whitespace run in front of s[j] holds nothing visible. */
  lemma RunVisible(s: string, j: nat, rest: string)
    requires j < |s| && forall k :: 0 <= k < j ==> IsSpace(s[k])
    requires Visible(rest) == Visible(s[j + 1..])
    ensures Visible([s[j]] + rest) == Visible(s)
  {
    VisibleCons(s[j], rest);
    assert AllSpace(s[..j]) by {
      forall k | 0 <= k < j ensures IsSpace(s[..j][k]) {
        assert s[..j][k] == s[k];
      }
    }
    VisibleOfSpace(s[..j]);
    assert s == s[..j] + ([s[j]] + s[j + 1..]);
    VisibleAppend(s[..j], [s[j]] + s[j + 1..]);
    VisibleCons(s[j], s[j + 1..]);
  }

  /** Keeping the first character keeps the visible characters. */
  lemma DropKeepVisible(s: string)
    requires s != [] && !RunBeforePunct(s)
    requires Visible(DropSpaceBeforePunct(s[1..])) == Visible(s[1..])
    ensures Visible(DropSpaceBeforePunct(s)) == Visible(s)
  {
    assert DropSpaceBeforePunct(s) == [s[0]] + DropSpaceBeforePunct(s[1..]);
    KeepFirstVisible(s, DropSpaceBeforePunct(s[1..]));
  }

  /** Keeping the first character and rewriting the rest keeps the visible characters. */
  lemma KeepFirstVisible(s: string, rest: string)
    requires s != [] && Visible(rest) == Visible(s[1..])
    ensures Visible([s[0]] + rest) == Visible(s)
  {
    VisibleCons(s[0], rest);
    VisibleCons(s[0], s[1..]);
    assert s == [s[0]] + s[1..];
  }

  /** Afterwards no whitespace stands directly before a mark. */
  lemma {:induction false} DropSpaceBeforePunctClean(s: string)
    ensures NoSpaceBeforePunct(DropSpaceBeforePunct(s))
    decreases |s|
  {
    if s != [] {
      if RunBeforePunct(s) {
        DropSpaceBeforePunctClean(s[SpaceRun(s) + 1..]);
        DropRunClean(s);
      } else {
        DropSpaceBeforePunctClean(s[1..]);
        DropKeepClean(s);
      }
    }
  }

  /** One more character in front of a text keeps a pair-free text pair-free. */
  lemma NoPairCons(c: char, rest: string, bad: (char, char) -> bool)
    requires NoPair(rest, bad) && (rest != [] ==> !bad(c, rest[0]))
    ensures NoPair([c] + rest, bad)
  {
    var r := [c] + rest;
    forall i | 0 <= i < |r| - 1 ensures !bad(r[i], r[i + 1]) {
      if i > 0 {
        assert r[i] == rest[i - 1] && r[i + 1] == rest[i];
      }
    }
  }

  /** The step of DropSpaceBeforePunctClean where a run is dropped. */
  lemma DropRunClean(s: string)
    requires RunBeforePunct(s)
    requires NoSpaceBeforePunct(DropSpaceBeforePunct(s[SpaceRun(s) + 1..]))
    ensures NoSpaceBeforePunct(DropSpaceBeforePunct(s))
  {
    var j := SpaceRun(s);
    DropRunUnfold(s);
    NoPairCons(s[j], DropSpaceBeforePunct(s[j + 1..]), SpaceThenPunct);
  }

  /** The step of DropSpaceBeforePunctClean where the first character is kept. */
  lemma DropKeepClean(s: string)
    requires s != [] && !RunBeforePunct(s)
    requires NoSpaceBeforePunct(DropSpaceBeforePunct(s[1..]))
    ensures NoSpaceBeforePunct(DropSpaceBeforePunct(s))
  {
    var rest := DropSpaceBeforePunct(s[1..]);
    assert DropSpaceBeforePunct(s) == [s[0]] + rest;
    if IsSpace(s[0]) && |s| > 1 {
      RunBeforePunctTail(s);
      assert !IsPunct(s[1]);
    }
    NoPairCons(s[0], rest, SpaceThenPunct);
  }

  /** A run that reaches a mark from the second character reaches it from the first. */
  lemma RunBeforePunctTail(s: string)
    requires |s| > 1 && IsSpace(s[0])
    ensures RunBeforePunct(s[1..]) ==> RunBeforePunct(s)
  {
    if RunBeforePunct(s[1..]) {
      assert SpaceRun(s) == 1 + SpaceRun(s[1..]);
      assert s[SpaceRun(s)] == s[1..][SpaceRun(s[1..])];
    }
  }

  /** A text without whitespace before a mark is left as it is. */
  lemma {:induction false} DropSpaceBeforePunctKeeps(s: string)
    requires NoSpaceBeforePunct(s)
    ensures DropSpaceBeforePunct(s) == s
    decreases |s|
  {
    if s != [] {
      assert !RunBeforePunct(s) by {
        if IsSpace(s[0]) && SpaceRun(s) < |s| {
          var j := SpaceRun(s);
          assert !SpaceThenPunct(s[j - 1], s[j]);
        }
      }
      NoPairSuffix(s, SpaceThenPunct, 1);
      DropSpaceBeforePunctKeeps(s[1..]);
      assert s == [s[0]] + s[1..];
    }
  }

  /** The first pass changes a text exactly when it has whitespace before a mark. */
  lemma DropSpaceBeforePunctFixed(s: string)
    ensures DropSpaceBeforePunct(s) == s <==> NoSpaceBeforePunct(s)
  {
    DropSpaceBeforePunctClean(s);
    if NoSpaceBeforePunct(s) {
      DropSpaceBeforePunctKeeps(s);
    }
  }

  /**
   * re.sub(r'([.,;:!?])([^\s])', r'\1 \2', s): a space goes between a mark
   * and the character after it unless that is whitespace. Matches do not
   * overlap: the character after the mark is consumed with it.
   */
  function SpaceAfterPunct(s: string): (r: string)
    ensures |r| >= |s|
    ensures s != [] ==> r != [] && r[0] == s[0]
  {
    if |s| >= 2 && IsPunct(s[0]) && !IsSpace(s[1]) then [s[0], ' ', s[1]] + SpaceAfterPunct(s[2..])
    else if s == [] then []
    else [s[0]] + SpaceAfterPunct(s[1..])
  }

  /** Only whitespace is added: the other characters stay, in order. */
  lemma {:induction false} SpaceAfterPunctVisible(s: string)
    ensures Visible(SpaceAfterPunct(s)) == Visible(s)
  {
    if |s| >= 2 && IsPunct(s[0]) && !IsSpace(s[1]) {
      SpaceAfterPunctVisible(s[2..]);
      InsertSpaceVisible(s, SpaceAfterPunct(s[2..]));
    } else if s != [] {
      SpaceAfterPunctVisible(s[1..]);
      KeepFirstVisible(s, SpaceAfterPunct(s[1..]));
    }
  }

  /** A space put between the first two characters is not visible. */
  lemma InsertSpaceVisible(s: string, rest: string)
    requires |s| >= 2 && Visible(rest) == Visible(s[2..])
    ensures Visible([s[0], ' ', s[1]] + rest) == Visible(s)
  {
    VisibleAppend([s[0], ' ', s[1]], rest);
    assert s == [s[0], s[1]] + s[2..];
    VisibleAppend([s[0], s[1]], s[2..]);
    SpacedPairVisible(s[0], s[1]);
  }

  lemma SpacedPairVisible(a: char, b: char)
    ensures Visible([a, ' ', b]) == Visible([a, b])
  {
    assert [a, ' ', b] == [a] + [' ', b] && [' ', b] == [' '] + [b] && [a, b] == [a] + [b];
    VisibleCons(a, [' ', b]);
    VisibleCons(' ', [b]);
    VisibleCons(a, [b]);
  }

  /** A text without a mark directly before text is left as it is. */
  lemma {:induction false} SpaceAfterPunctKeeps(s: string)
    requires NoTextAfterPunct(s)
    ensures SpaceAfterPunct(s) == s
  {
    if s != [] {
      NoPairSuffix(s, PunctThenText, 1);
      SpaceAfterPunctKeeps(s[1..]);
      assert s == [s[0]] + s[1..];
    }
  }

  /** A mark directly before text makes the second pass lengthen the text. */
  lemma {:induction false} SpaceAfterPunctGrows(s: string)
    requires !NoTextAfterPunct(s)
    ensures |SpaceAfterPunct(s)| > |s|
  {
    if !(|s| >= 2 && IsPunct(s[0]) && !IsSpace(s[1])) {
      var i :| 0 <= i < |s| - 1 && PunctThenText(s[i], s[i + 1]);
      assert i > 0;
      assert s[1..][i - 1] == s[i] && s[1..][i] == s[i + 1];
      SpaceAfterPunctGrows(s[1..]);
    }
  }

  /** The second pass changes a text exactly when a mark stands directly before text. */
  lemma SpaceAfterPunctFixed(s: string)
    ensures SpaceAfterPunct(s) == s <==> NoTextAfterPunct(s)
  {
    if NoTextAfterPunct(s) {
      SpaceAfterPunctKeeps(s);
    } else {
      SpaceAfterPunctGrows(s);
    }
  }

  /** Without adjacent marks, every mark in the result is followed by whitespace or ends the text. */
  lemma {:induction false} SpaceAfterPunctSpaces(s: string)
    requires NoAdjacentPunct(s)
    ensures NoTextAfterPunct(SpaceAfterPunct(s))
  {
    var r := SpaceAfterPunct(s);
    if |s| >= 2 && IsPunct(s[0]) && !IsSpace(s[1]) {
      NoPairSuffix(s, PunctThenPunct, 2);
      SpaceAfterPunctSpaces(s[2..]);
      var rest := SpaceAfterPunct(s[2..]);
      assert r == [s[0], ' ', s[1]] + rest;
      assert !PunctThenPunct(s[0], s[1]);
      forall i | 0 <= i < |r| - 1 ensures !PunctThenText(r[i], r[i + 1]) {
        if i > 2 {
          assert r[i] == rest[i - 3] && r[i + 1] == rest[i - 2];
        }
      }
    } else if s != [] {
      NoPairSuffix(s, PunctThenPunct, 1);
      SpaceAfterPunctSpaces(s[1..]);
      var rest := SpaceAfterPunct(s[1..]);
      assert r == [s[0]] + rest;
      forall i | 0 <= i < |r| - 1 ensures !PunctThenText(r[i], r[i + 1]) {
        if i > 0 {
          assert r[i] == rest[i - 1] && r[i + 1] == rest[i];
        }
      }
    }
  }

  /** _fix_punctuation(text): the two substitutions in order. */
  function FixPunctuation(text: string): string
  {
    SpaceAfterPunct(DropSpaceBeforePunct(text))
  }

  /**
   * Punctuation repair only moves whitespace: the other characters of the
   * text are kept in order, and a text whose spacing is already right is
   * returned as it is.
   */
  lemma FixPunctuationVisible(text: string)
    ensures Visible(FixPunctuation(text)) == Visible(text)
    ensures NoSpaceBeforePunct(text) && NoTextAfterPunct(text) ==> FixPunctuation(text) == text
  {
    DropSpaceBeforePunctVisible(text);
    SpaceAfterPunctVisible(DropSpaceBeforePunct(text));
    DropSpaceBeforePunctFixed(text);
    SpaceAfterPunctFixed(text);
  }

  // ---------------------------------------------------------------------------
  // process

  /**
   * process(original, translated): numbers, punctuation, line breaks,
   * formatting and whitespace, in that order, and the result stripped. The
   * formatting step fails where the program raises IndexError.
   */
  function Process(original: string, translated: string): Result<string, string>
  {
    var numbered := PreserveNumbersSpec(original, translated);
    var punctuated := FixPunctuation(numbered);
    var lined := Formatting.PreserveLineBreaksSpec(original, punctuated);
    Finish(original, Formatting.PreserveFormatting(original, lined))
  }

  /** The last two steps of process: whitespace restored, then the result stripped. */
  function Finish(original: string, formatted: Result<string, string>): Result<string, string>
  {
    match formatted
    case Failure(e) => Failure(e)
    case Success(f) => Success(Strip(Formatting.PreserveWhitespace(original, f)))
  }

  /**
   * The whitespace step has no effect on the final result: process returns
   * the stripped output of the formatting step. An empty original fails, and
   * a result neither starts nor ends with whitespace.
   */
  lemma ProcessResult(original: string, translated: string)
    ensures original == [] ==> Process(original, translated).Failure?
    ensures var r := Process(original, translated);
      r.Success? ==> r.value == [] || (!IsSpace(r.value[0]) && !IsSpace(r.value[|r.value| - 1]))
    ensures var lined := Formatting.PreserveLineBreaksSpec(original, FixPunctuation(PreserveNumbersSpec(original, translated)));
      var f := Formatting.PreserveFormatting(original, lined);
      Process(original, translated) == if f.Success? then Success(Strip(f.value)) else f
  {
    var lined := Formatting.PreserveLineBreaksSpec(original, FixPunctuation(PreserveNumbersSpec(original, translated)));
    FinishResult(original, Formatting.PreserveFormatting(original, lined));
  }

  lemma FinishResult(original: string, formatted: Result<string, string>)
    ensures var r := Finish(original, formatted);
      r == (if formatted.Success? then Success(Strip(formatted.value)) else formatted)
      && (r.Success? ==> r.value == [] || (!IsSpace(r.value[0]) && !IsSpace(r.value[|r.value| - 1])))
  {
    if formatted.Success? {
      Formatting.PreserveWhitespaceShape(original, formatted.value);
    }
  }
}
