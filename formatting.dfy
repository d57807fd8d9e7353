/**
 * Formatting preservation after translation: the dialogue dash and the
 * capitalisation of the original, its leading and trailing whitespace, and
 * its line structure.
 */
module Formatting {
  import opened Wrappers
  import opened TextUtil
  import SeqUtil

  /** The em dash that opens a line of dialogue. */
  const Dash: char := '\U{2014}'

  /** _ensure_dialogue_dash: a text that does not open with the dash gets one, replacing any leading dashes or hyphens. */
  function EnsureDialogueDash(text: string): (r: string)
    ensures |r| >= 1 && r[0] == Dash
    ensures StartsWith(text, [Dash]) ==> r == text
    ensures !StartsWith(text, [Dash]) ==> r[1..] == LStripChars(text, {'-', Dash})
  {
    if StartsWith(text, [Dash]) then text else [Dash] + LStripChars(text, {'-', Dash})
  }

  /**
   * preserve_formatting(original, translated). Indexing the first character
   * of an empty string raises IndexError in the program: an empty original,
   * or an empty result to capitalise, is a failure here.
   */
  function PreserveFormatting(original: string, translated: string): (r: Result<string, string>)
    ensures original == [] ==> r.Failure?
    ensures r.Success? && StartsWith(original, [Dash]) ==> |r.value| >= 1 && r.value[0] == Dash
    ensures r.Success? && IsUpperString(original) ==> forall i :: 0 <= i < |r.value| ==> !IsLowerLetter(r.value[i])
    ensures original != [] && !StartsWith(original, [Dash]) && !IsUpperString(original) ==>
      if !IsUpperLetter(original[0]) then r == Success(translated)
      else if translated == [] then r.Failure?
      else r == Success([UpperChar(translated[0])] + translated[1..])
  {
    var result := if StartsWith(original, [Dash]) then EnsureDialogueDash(translated) else translated;
    if IsUpperString(original) then Success(Upper(result))
    else if original == [] then Failure("IndexError: string index out of range")
    else if IsUpperLetter(original[0]) then
      if result == [] then Failure("IndexError: string index out of range")
      else Success([UpperChar(result[0])] + result[1..])
    else Success(result)
  }

  /** Number of leading whitespace characters of s. */
  function LeadingSpace(s: string): (n: nat)
    ensures n <= |s| && AllSpace(s[..n])
  {
    |s| - |LStrip(s)|
  }

  /** Number of trailing whitespace characters of s. */
  function TrailingSpace(s: string): (n: nat)
    ensures n <= |s| && AllSpace(s[|s| - n..])
  {
    |s| - |RStrip(s)|
  }

  /** preserve_whitespace(original, translated) */
  function PreserveWhitespace(original: string, translated: string): (r: string)
  {
    Repeat(' ', LeadingSpace(original)) + Strip(translated) + Repeat(' ', TrailingSpace(original))
  }

  /**
   * The result is the translation's stripped text; when that is not empty,
   * it is surrounded by as many spaces as the original has whitespace
   * characters before and after its text.
   */
  lemma PreserveWhitespaceShape(original: string, translated: string)
    ensures var r := PreserveWhitespace(original, translated);
      Strip(r) == Strip(translated)
      && (Strip(translated) != [] ==>
            LeadingSpace(r) == LeadingSpace(original) && TrailingSpace(r) == TrailingSpace(original))
  {
    var core := Strip(translated);
    var lead := Repeat(' ', LeadingSpace(original));
    var trail := Repeat(' ', TrailingSpace(original));
    var r := PreserveWhitespace(original, translated);
    assert AllSpace(lead) && AllSpace(trail);
    SeqUtil.ConcatAssoc(lead, core, trail);
    if core == [] {
      assert r == lead + trail;
      assert AllSpace(lead + trail);
      StripOfSpaceIsEmpty(lead + trail);
    } else {
      LStripSpacesThen(lead, core + trail);
      RStripThenSpaces(core, trail);
      assert (lead + core)[|lead + core| - 1] == core[|core| - 1];
      RStripThenSpaces(lead + core, trail);
    }
  }

  // ---------------------------------------------------------------------------
  // preserve_line_breaks

  function Max(a: int, b: int): int
  {
    if a >= b then a else b
  }

  /** How many of the n translated words a line with count of the total original words receives. */
  function LineQuota(n: nat, count: nat, total: nat): (q: nat)
    requires total > 0 && count > 0
    ensures q >= 1
  {
    Max(1, RoundHalfEven(n * count, total))
  }

  function WordCounts(lines: seq<string>): (counts: seq<nat>)
    ensures |counts| == |lines| && forall k :: 0 <= k < |lines| ==> counts[k] == |Words(lines[k])|
  {
    if lines == [] then [] else [|Words(lines[0])|] + WordCounts(lines[1..])
  }

  function Sum(xs: seq<nat>): nat
  {
    if xs == [] then 0 else xs[0] + Sum(xs[1..])
  }

  /**
   * The lines built for the original word counts, from translated word idx
   * on, and the index of the first word not yet placed.
   */
  function Distribute(counts: seq<nat>, total: nat, tw: seq<string>, idx: nat): (r: (seq<string>, nat))
    requires total > 0 && idx <= |tw|
    ensures idx <= r.1 <= |tw| && |r.0| == |counts|
  {
    if counts == [] then ([], idx)
    else if counts[0] == 0 then
      var rest := Distribute(counts[1..], total, tw, idx);
      ([""] + rest.0, rest.1)
    else
      var end := LineEnd(counts[0], total, tw, idx);
      var rest := Distribute(counts[1..], total, tw, end);
      ([Join(" ", tw[idx..end])] + rest.0, rest.1)
  }

  /** The lines after the words left over are appended to the last line. */
  function FinalLines(counts: seq<nat>, total: nat, tw: seq<string>): (lines: seq<string>)
    requires total > 0 && |counts| >= 1
    ensures |lines| == |counts|
  {
    var (ls, e) := Distribute(counts, total, tw, 0);
    if e < |tw| then ls[..|ls| - 1] + [ls[|ls| - 1] + " " + Join(" ", tw[e..])]
    else ls
  }

  /** The translated words, as preserve_line_breaks splits them. */
  function TranslatedWords(translated: string): (tw: seq<string>)
    ensures tw == Words(translated)
  {
    WordsOfStrip(ReplaceAll(translated, "\n", " "));
    WordsReplaceNewlines(translated);
    Words(Strip(ReplaceAll(translated, "\n", " ")))
  }

  /** preserve_line_breaks(original, translated) */
  function PreserveLineBreaksSpec(original: string, translated: string): (r: string)
    ensures |SplitOn(original, '\n')| == 1 ==> r == translated
    ensures Words(translated) == [] ==> r == translated
    ensures Words(original) == [] ==> r == translated
  {
    var origLines := SplitOn(original, '\n');
    if |origLines| == 1 then translated
    else
      var tw := TranslatedWords(translated);
      if tw == [] then translated
      else
        var counts := WordCounts(origLines);
        OriginalWordTotal(original);
        if Sum(counts) == 0 then translated
        else Join("\n", FinalLines(counts, Sum(counts), tw))
  }

  /** The word counts of the lines add up to the words of the whole text. */
  lemma {:induction false} SumWordCounts(lines: seq<string>)
    ensures Sum(WordCounts(lines)) == |AllWords(lines)|
  {
    if lines != [] {
      SumWordCounts(lines[1..]);
      assert WordCounts(lines)[1..] == WordCounts(lines[1..]);
    }
  }

  lemma OriginalWordTotal(original: string)
    ensures Sum(WordCounts(SplitOn(original, '\n'))) == |Words(original)|
  {
    var lines := SplitOn(original, '\n');
    JoinSplitOn(original, '\n');
    WordsOfJoinSep("\n", lines);
    SumWordCounts(lines);
  }

  /** The lines hold exactly the words ws, in order, and no newline. */
  predicate LinesHold(lines: seq<string>, ws: seq<string>)
  {
    AllWords(lines) == ws && forall k :: 0 <= k < |lines| ==> '\n' !in lines[k]
  }

  /** A line without a newline in front of lines adds its words in front. */
  lemma LinesHoldCons(line: string, rest: seq<string>, ws: seq<string>)
    requires '\n' !in line && LinesHold(rest, ws)
    ensures LinesHold([line] + rest, Words(line) + ws)
  {
    SingleWords(line);
    AllWordsAppend([line], rest);
    var ls := [line] + rest;
    forall k | 0 < k < |ls| ensures ls[k] == rest[k - 1] { }
  }

  /** The lines built hold the words from idx on, in order, and no newline. */
  lemma {:induction false} DistributeWords(counts: seq<nat>, total: nat, tw: seq<string>, idx: nat)
    requires total > 0 && idx <= |tw| && IsWordList(tw)
    ensures var r := Distribute(counts, total, tw, idx); LinesHold(r.0, tw[idx..r.1])
  {
    if counts != [] {
      if counts[0] == 0 {
        DistributeWords(counts[1..], total, tw, idx);
        DistributeEmptyLine(counts, total, tw, idx);
      } else {
        var end := LineEnd(counts[0], total, tw, idx);
        DistributeWords(counts[1..], total, tw, end);
        DistributeFullLine(counts, total, tw, idx);
      }
    }
  }

  /** Where the words of a line with count original words end. */
  function LineEnd(count: nat, total: nat, tw: seq<string>, idx: nat): (end: nat)
    requires total > 0 && count > 0 && idx <= |tw|
    ensures idx <= end <= |tw|
  {
    if idx + LineQuota(|tw|, count, total) <= |tw| then idx + LineQuota(|tw|, count, total) else |tw|
  }

  lemma DistributeEmptyLine(counts: seq<nat>, total: nat, tw: seq<string>, idx: nat)
    requires total > 0 && idx <= |tw| && counts != [] && counts[0] == 0
    requires var rest := Distribute(counts[1..], total, tw, idx); LinesHold(rest.0, tw[idx..rest.1])
    ensures var r := Distribute(counts, total, tw, idx); LinesHold(r.0, tw[idx..r.1])
  {
    var rest := Distribute(counts[1..], total, tw, idx);
    assert Words("") == [];
    LinesHoldCons("", rest.0, tw[idx..rest.1]);
    assert [] + tw[idx..rest.1] == tw[idx..rest.1];
  }

  lemma DistributeFullLine(counts: seq<nat>, total: nat, tw: seq<string>, idx: nat)
    requires total > 0 && idx <= |tw| && IsWordList(tw) && counts != [] && counts[0] > 0
    requires var end := LineEnd(counts[0], total, tw, idx);
      var rest := Distribute(counts[1..], total, tw, end); LinesHold(rest.0, tw[end..rest.1])
    ensures var r := Distribute(counts, total, tw, idx); LinesHold(r.0, tw[idx..r.1])
  {
    var end := LineEnd(counts[0], total, tw, idx);
    var rest := Distribute(counts[1..], total, tw, end);
    var line := Join(" ", tw[idx..end]);
    assert Distribute(counts, total, tw, idx) == ([line] + rest.0, rest.1);
    assert IsWordList(tw[idx..end]) by {
      forall k | 0 <= k < end - idx ensures tw[idx..end][k] != [] && NoSpace(tw[idx..end][k]) {
        assert tw[idx..end][k] == tw[idx + k];
      }
    }
    WordsOfJoin(tw[idx..end]);
    WordListAvoidsNewline(tw[idx..end]);
    LinesHoldCons(line, rest.0, tw[end..rest.1]);
    assert tw[idx..rest.1] == tw[idx..end] + tw[end..rest.1];
  }

  /** Words joined by spaces contain no newline. */
  lemma WordListAvoidsNewline(ws: seq<string>)
    requires IsWordList(ws)
    ensures '\n' !in Join(" ", ws)
  {
    assert forall k :: 0 <= k < |ws| ==> '\n' !in ws[k];
    JoinAvoids(" ", ws, '\n');
  }

  /** Appending more words to the last line adds them at the end of the words. */
  lemma ExtendLastLine(front: seq<string>, last: string, extra: string)
    ensures AllWords(front + [last + " " + extra]) == AllWords(front + [last]) + Words(extra)
  {
    var joined := last + " " + extra;
    AllWordsAppend(front, [last]);
    SingleWords(last);
    AllWordsAppend(front, [joined]);
    SingleWords(joined);
    WordsOfSpaceSep(last, " ", extra);
    SeqUtil.ConcatAssoc(AllWords(front), Words(last), Words(extra));
  }

  lemma ExtendLastLineAvoids(ls: seq<string>, extra: string, c: char)
    requires |ls| >= 1 && c != ' ' && c !in extra
    requires forall k :: 0 <= k < |ls| ==> c !in ls[k]
    ensures var fl := ls[..|ls| - 1] + [ls[|ls| - 1] + " " + extra];
      forall k :: 0 <= k < |fl| ==> c !in fl[k]
  {
    var fl := ls[..|ls| - 1] + [ls[|ls| - 1] + " " + extra];
    forall k | 0 <= k < |fl| ensures c !in fl[k] {
      if k < |fl| - 1 { assert fl[k] == ls[k]; }
    }
  }

  /** The final lines hold all translated words, in order, and no newline. */
  lemma FinalLinesWords(counts: seq<nat>, total: nat, tw: seq<string>)
    requires total > 0 && |counts| >= 1 && IsWordList(tw)
    ensures var ls := FinalLines(counts, total, tw);
      AllWords(ls) == tw && forall k :: 0 <= k < |ls| ==> '\n' !in ls[k]
  {
    var (ls, e) := Distribute(counts, total, tw, 0);
    DistributeWords(counts, total, tw, 0);
    if e < |tw| {
      var extra := Join(" ", tw[e..]);
      assert ls == ls[..|ls| - 1] + [ls[|ls| - 1]];
      ExtendLastLine(ls[..|ls| - 1], ls[|ls| - 1], extra);
      WordsOfJoin(tw[e..]);
      assert tw == tw[0..e] + tw[e..];
      WordListAvoidsNewline(tw[e..]);
      ExtendLastLineAvoids(ls, extra, '\n');
    } else {
      assert tw[0..e] == tw;
    }
  }

  /**
   * When the original has several lines and both sides have words, the
   * result has exactly as many lines as the original, and its lines hold
   * the translated words in their order.
   */
  lemma PreserveLineBreaksShape(original: string, translated: string)
    requires |SplitOn(original, '\n')| > 1 && Words(translated) != [] && Words(original) != []
    ensures var r := PreserveLineBreaksSpec(original, translated);
      |SplitOn(r, '\n')| == |SplitOn(original, '\n')|
      && AllWords(SplitOn(r, '\n')) == Words(translated)
      && Words(r) == Words(translated)
  {
    var origLines := SplitOn(original, '\n');
    var tw := TranslatedWords(translated);
    var counts := WordCounts(origLines);
    OriginalWordTotal(original);
    var ls := FinalLines(counts, Sum(counts), tw);
    FinalLinesWords(counts, Sum(counts), tw);
    SplitOnJoin(ls, '\n');
    WordsOfJoinSep("\n", ls);
  }

  /** preserve_line_breaks as the program runs it: one line per original line, then the leftover words. */
  method PreserveLineBreaks(original: string, translated: string) returns (r: string)
    ensures r == PreserveLineBreaksSpec(original, translated)
  {
    var origLines := SplitOn(original, '\n');
    if |origLines| == 1 {
      return translated;
    }
    var transWords := TranslatedWords(translated);
    if transWords == [] {
      return translated;
    }
    var counts := WordCounts(origLines);
    var total := Sum(counts);
    OriginalWordTotal(original);
    if total == 0 {
      return translated;
    }
    var resultLines := DistributeLines(counts, total, transWords);
    r := Join("\n", resultLines);
  }

  /** The end of preserve_line_breaks: leftover words go onto the last line. */
  method DistributeLines(counts: seq<nat>, total: nat, transWords: seq<string>) returns (lines: seq<string>)
    requires total > 0 && |counts| >= 1
    ensures lines == FinalLines(counts, total, transWords)
  {
    var wordIdx;
    lines, wordIdx := DistributeLoop(counts, total, transWords);
    if wordIdx < |transWords| {
      var remaining := Join(" ", transWords[wordIdx..]);
      lines := lines[..|lines| - 1] + [lines[|lines| - 1] + " " + remaining];
    }
  }

  /** The loop of preserve_line_breaks over the original word counts. */
  method DistributeLoop(counts: seq<nat>, total: nat, transWords: seq<string>) returns (lines: seq<string>, wordIdx: nat)
    requires total > 0
    ensures (lines, wordIdx) == Distribute(counts, total, transWords, 0)
  {
    lines := [];
    wordIdx := 0;
    ghost var all := Distribute(counts, total, transWords, 0);
    for i := 0 to |counts|
      invariant wordIdx <= |transWords| && |lines| == i
      invariant lines + Distribute(counts[i..], total, transWords, wordIdx).0 == all.0
      invariant Distribute(counts[i..], total, transWords, wordIdx).1 == all.1
    {
      DistributeStep(counts, total, transWords, i, wordIdx);
      var line, endIdx;
      if counts[i] == 0 {
        line, endIdx := "", wordIdx;
      } else {
        var wordsForLine := LineQuota(|transWords|, counts[i], total);
        endIdx := if wordIdx + wordsForLine <= |transWords| then wordIdx + wordsForLine else |transWords|;
        line := Join(" ", transWords[wordIdx..endIdx]);
      }
      ghost var rest := Distribute(counts[i + 1..], total, transWords, endIdx);
      assert Distribute(counts[i..], total, transWords, wordIdx) == ([line] + rest.0, rest.1);
      AppendAssoc(lines, line, rest.0);
      lines := lines + [line];
      wordIdx := endIdx;
    }
    assert counts[|counts|..] == [];
    assert Distribute(counts[|counts|..], total, transWords, wordIdx) == ([], wordIdx);
    assert lines + [] == lines;
  }

  lemma AppendAssoc(a: seq<string>, x: string, b: seq<string>)
    ensures a + ([x] + b) == (a + [x]) + b
  {
  }

  lemma DistributeStep(counts: seq<nat>, total: nat, tw: seq<string>, i: nat, idx: nat)
    requires total > 0 && idx <= |tw| && i < |counts|
    ensures var here := Distribute(counts[i..], total, tw, idx);
      if counts[i] == 0 then
        var rest := Distribute(counts[i + 1..], total, tw, idx);
        here == ([""] + rest.0, rest.1)
      else
        var q := LineQuota(|tw|, counts[i], total);
        var end := if idx + q <= |tw| then idx + q else |tw|;
        var rest := Distribute(counts[i + 1..], total, tw, end);
        here == ([Join(" ", tw[idx..end])] + rest.0, rest.1)
  {
    assert counts[i..][1..] == counts[i + 1..];
  }
}
