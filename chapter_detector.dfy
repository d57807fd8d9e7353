/**
 * The chapter detector: a line holding only a Roman numeral opens a
 * chapter, which runs up to the next chapter's line (or to the end of the
 * text); only chapters longer than 100 lines are kept.
 *
 * The source's chapters are objects whose end line is set after they are
 * collected; here they are values, and setting the end line replaces the
 * element of the list.
 */
module ChapterDetector {
  import opened Wrappers
  import opened TextUtil
  import opened SeqUtil
  import opened Dict
  import RomanConverter

  const MinChapterLines := 100

  datatype Chapter = Chapter(number: int, roman: string, startLine: int, endLine: int)
  {
    /** folder_name: "capitulo_" and the number, zero-padded to two digits. */
    function FolderName(): (name: string)
      ensures |name| >= 11 && name[..9] == "capitulo_"
    {
      "capitulo_" + PadNumber(number, 2)
    }
  }

  /** `f"{n:0{width}d}"`: the digits of n, with zeros after the sign up to the width. */
  function PadNumber(n: int, width: nat): (s: string)
    ensures |s| >= width
  {
    var digits := NatToString(if n < 0 then -n else n);
    var sign := if n < 0 then "-" else "";
    var zeros := width - |sign| - |digits|;
    sign + Repeat('0', zeros) + digits
  }

  // ---------------------------------------------------------------------------
  // _roman_to_int

  /** `values.get(char, 0)` with values I=1, V=5, X=10. */
  function CharValue(c: char): (v: int)
    ensures v >= 0
  {
    if c == 'I' then 1 else if c == 'V' then 5 else if c == 'X' then 10 else 0
  }

  /**
   * The loop over reversed(roman): the pair (result, prev) after every
   * character of s has been seen, the last one first.
   */
  function Scan(s: string): (int, int)
  {
    if s == [] then (0, 0)
    else
      var (result, prev) := Scan(s[1..]);
      var v := CharValue(s[0]);
      if v < prev then (result - v, v) else (result + v, v)
  }

  /** The subtractive rule on its own: a character counts negatively when it is smaller than the one after it. */
  function SubtractiveSum(s: string): int
  {
    if s == [] then 0
    else
      var v := CharValue(s[0]);
      (if |s| > 1 && v < CharValue(s[1]) then -v else v) + SubtractiveSum(s[1..])
  }

  /** The loop computes the subtractive rule. */
  lemma {:induction false} ScanIsSubtractiveSum(s: string)
    ensures Scan(s).0 == SubtractiveSum(s)
    ensures s != [] ==> Scan(s).1 == CharValue(s[0])
  {
    if s != [] {
      ScanIsSubtractiveSum(s[1..]);
      if |s| == 1 {
        assert s[1..] == [];
      } else {
        assert s[1..][0] == s[1];
      }
    }
  }

  predicate AllRoman(s: string)
  {
    forall i :: 0 <= i < |s| ==> RomanConverter.IsRomanChar(s[i])
  }

  /** On I, V and X the running result never falls below the last value seen, which is positive. */
  lemma {:induction false} ScanBound(s: string)
    requires AllRoman(s) && s != []
    ensures Scan(s).0 >= Scan(s).1 >= 1
  {
    if |s| > 1 {
      assert AllRoman(s[1..]) by {
        forall i | 0 <= i < |s[1..]| ensures RomanConverter.IsRomanChar(s[1..][i]) {
          assert s[1..][i] == s[i + 1];
        }
      }
      ScanBound(s[1..]);
    }
    assert RomanConverter.IsRomanChar(s[0]);
  }

  /** _roman_to_int's value: positive for every non-empty string of I, V and X. */
  lemma RomanValuePositive(s: string)
    requires AllRoman(s) && s != []
    ensures Scan(s).0 > 0
  {
    ScanBound(s);
  }

  // _roman_to_int agrees with the converter's table, five entries at a time.

  lemma ScanAgreesFirstFive()
    ensures forall k :: 0 <= k < 5 ==>
      Scan(RomanConverter.RomanToNum[k].0).0 == RomanConverter.RomanToNum[k].1
  {
  }

  lemma ScanAgreesSecondFive()
    ensures forall k :: 5 <= k < 10 ==>
      Scan(RomanConverter.RomanToNum[k].0).0 == RomanConverter.RomanToNum[k].1
  {
  }

  lemma ScanAgreesThirdFive()
    ensures forall k :: 10 <= k < 15 ==>
      Scan(RomanConverter.RomanToNum[k].0).0 == RomanConverter.RomanToNum[k].1
  {
    assert Scan("XI").0 == 11;
    assert Scan("XII").0 == 12;
    assert Scan("XIII").0 == 13;
    assert Scan("XIV").0 == 14;
    assert Scan("XV").0 == 15;
  }

  lemma ScanAgreesFourthFive()
    ensures forall k :: 15 <= k < 20 ==>
      Scan(RomanConverter.RomanToNum[k].0).0 == RomanConverter.RomanToNum[k].1
  {
    assert Scan("XVI").0 == 16;
    assert Scan("XVII").0 == 17;
    assert Scan("XVIII").0 == 18;
    assert Scan("XIX").0 == 19;
    assert Scan("XX").0 == 20;
  }

  /** _roman_to_int agrees with the converter's table on I to XX. */
  lemma ValueAgreesWithTable(k: nat)
    requires k < |RomanConverter.RomanToNum|
    ensures SubtractiveSum(RomanConverter.RomanToNum[k].0) == RomanConverter.RomanToNum[k].1
  {
    ScanIsSubtractiveSum(RomanConverter.RomanToNum[k].0);
    if k < 5 {
      ScanAgreesFirstFive();
    } else if k < 10 {
      ScanAgreesSecondFive();
    } else if k < 15 {
      ScanAgreesThirdFive();
    } else {
      ScanAgreesFourthFive();
    }
  }

  /** _roman_to_int */
  method RomanToInt(roman: string) returns (n: Option<int>)
    ensures n.Some? <==> SubtractiveSum(roman) > 0
    ensures n.Some? ==> n.value == SubtractiveSum(roman)
  {
    var result: int := 0;
    var prev: int := 0;
    var i := |roman|;
    while i > 0
      invariant 0 <= i <= |roman|
      invariant (result, prev) == Scan(roman[i..])
    {
      i := i - 1;
      assert roman[i..][1..] == roman[i + 1..];
      var val := CharValue(roman[i]);
      if val < prev {
        result := result - val;
      } else {
        result := result + val;
      }
      prev := val;
    }
    ScanIsSubtractiveSum(roman);
    n := if result > 0 then Some(result) else None;
  }

  // ---------------------------------------------------------------------------
  // detect_chapters

  /** The chapter marker on line i, if the line is one. */
  function MarkerAt(lines: seq<string>, i: nat): (c: Option<Chapter>)
    requires i < |lines|
    ensures c.Some? <==> RomanConverter.IsRomanLine(lines[i])
    ensures c.Some? ==>
      (c.value.startLine == i && c.value.roman == Strip(lines[i]) && c.value.number > 0
       && c.value.number == SubtractiveSum(c.value.roman) && c.value.endLine == 0)
  {
    if RomanConverter.IsRomanLine(lines[i]) && SubtractiveSum(Strip(lines[i])) > 0 then
      var roman := Strip(lines[i]);
      Some(Chapter(SubtractiveSum(roman), roman, i, 0))
    else
      var roman := Strip(lines[i]);
      assert RomanConverter.IsRomanLine(lines[i]) ==> SubtractiveSum(roman) > 0 by {
        if RomanConverter.IsRomanLine(lines[i]) {
          RomanValuePositive(roman);
          ScanIsSubtractiveSum(roman);
        }
      }
      None
  }

  /** The marker of every line, in line order. */
  function LineMarkers(lines: seq<string>): (ms: seq<Option<Chapter>>)
    ensures |ms| == |lines|
  {
    seq(|lines|, i requires 0 <= i < |lines| => MarkerAt(lines, i))
  }

  /** The chapters the first loop collects: the markers that are present, in line order. */
  function Markers(lines: seq<string>): seq<Chapter>
  {
    Somes(LineMarkers(lines))
  }

  /** Each chapter ends where the next begins; the last ends at the line count. */
  function WithEnds(cs: seq<Chapter>, lineCount: int): (r: seq<Chapter>)
    ensures |r| == |cs|
  {
    seq(|cs|, i requires 0 <= i < |cs| =>
      cs[i].(endLine := if i + 1 < |cs| then cs[i + 1].startLine else lineCount))
  }

  predicate LongEnough(c: Chapter)
  {
    c.endLine - c.startLine > MinChapterLines
  }

  /** The first loop of detect_chapters: one chapter per numeral line, in line order. */
  method CollectMarkers(lines: seq<string>) returns (found: seq<Chapter>)
    ensures found == Markers(lines)
  {
    found := [];
    ghost var ms := LineMarkers(lines);
    for i := 0 to |lines|
      invariant found == Somes(ms[..i])
    {
      assert ms[..i + 1][..i] == ms[..i];
      assert ms[..i + 1][i] == MarkerAt(lines, i);
      var line := lines[i];
      if RomanConverter.IsRomanLine(line) {
        var roman := Strip(line);
        var number := RomanToInt(roman);
        if number.Some? {
          found := found + [Chapter(number.value, roman, i, 0)];
        }
      }
    }
    assert ms[..|lines|] == ms;
  }

  /** The end-line loops of detect_chapters. */
  method SetEnds(chapters: seq<Chapter>, lineCount: int) returns (found: seq<Chapter>)
    ensures found == WithEnds(chapters, lineCount)
  {
    found := chapters;
    if found != [] {
      var i := 0;
      while i + 1 < |found|
        invariant 0 <= i < |found| == |chapters|
        invariant forall k :: 0 <= k < i ==> found[k] == chapters[k].(endLine := chapters[k + 1].startLine)
        invariant forall k :: i <= k < |found| ==> found[k] == chapters[k]
      {
        found := found[i := found[i].(endLine := found[i + 1].startLine)];
        i := i + 1;
      }
      found := found[i := found[i].(endLine := lineCount)];
    }
    assert forall k :: 0 <= k < |found| ==> found[k] == WithEnds(chapters, lineCount)[k];
  }

  /** detect_chapters */
  method DetectChapters(text: string) returns (chapters: seq<Chapter>)
    ensures var lines := SplitOn(text, '\n');
      chapters == Filter(WithEnds(Markers(lines), |lines|), LongEnough)
  {
    var lines := SplitOn(text, '\n');
    var found := CollectMarkers(lines);
    found := SetEnds(found, |lines|);
    chapters := Filter(found, LongEnough);
  }

  // ---------------------------------------------------------------------------
  // Present options, in order

  /** The values of the options that are present, in order. */
  function Somes<T>(ms: seq<Option<T>>): (r: seq<T>)
    ensures |r| <= |ms|
  {
    if ms == [] then []
    else
      var last := ms[|ms| - 1];
      Somes(ms[..|ms| - 1]) + (if last.Some? then [last.value] else [])
  }

  /** Every present value carries its own position as its key. */
  predicate Keyed<T>(ms: seq<Option<T>>, key: T -> int)
  {
    forall k :: 0 <= k < |ms| && ms[k].Some? ==> key(ms[k].value) == k
  }

  /** The keys strictly increase along s. */
  predicate Ascending<T>(s: seq<T>, key: T -> int)
  {
    forall i, j :: 0 <= i < j < |s| ==> key(s[i]) < key(s[j])
  }

  lemma KeyedInit<T>(ms: seq<Option<T>>, key: T -> int)
    requires Keyed(ms, key) && ms != []
    ensures Keyed(ms[..|ms| - 1], key)
  {
    var init := ms[..|ms| - 1];
    forall k | 0 <= k < |init| && init[k].Some? ensures key(init[k].value) == k {
      assert init[k] == ms[k];
    }
  }

  /** Every value kept is the present option at the position of its key. */
  lemma {:induction false} SomesSound<T>(ms: seq<Option<T>>, key: T -> int)
    requires Keyed(ms, key)
    ensures forall x :: x in Somes(ms) ==> 0 <= key(x) < |ms| && ms[key(x)] == Some(x)
  {
    if ms != [] {
      var init := ms[..|ms| - 1];
      KeyedInit(ms, key);
      SomesSound(init, key);
      forall x | x in Somes(ms) ensures 0 <= key(x) < |ms| && ms[key(x)] == Some(x) {
        if x in Somes(init) {
          assert init[key(x)] == ms[key(x)];
        } else {
          assert x == ms[|ms| - 1].value;
        }
      }
    }
  }

  /** The values kept are in the order of their keys. */
  lemma {:induction false} SomesAscending<T>(ms: seq<Option<T>>, key: T -> int)
    requires Keyed(ms, key)
    ensures Ascending(Somes(ms), key)
  {
    if ms != [] {
      var init := ms[..|ms| - 1];
      KeyedInit(ms, key);
      SomesAscending(init, key);
      SomesSound(init, key);
      var prev := Somes(init);
      var r := Somes(ms);
      forall i, j | 0 <= i < j < |r| ensures key(r[i]) < key(r[j]) {
        assert r[i] == prev[i] && prev[i] in prev;
        if j < |prev| {
          assert r[j] == prev[j];
        } else {
          assert r[j] == ms[|ms| - 1].value;
        }
      }
    }
  }

  /** Every present option's value is kept. */
  lemma {:induction false} SomesComplete<T>(ms: seq<Option<T>>, k: nat)
    requires k < |ms| && ms[k].Some?
    ensures ms[k].value in Somes(ms)
  {
    var init := ms[..|ms| - 1];
    if k < |ms| - 1 {
      assert init[k] == ms[k];
      SomesComplete(init, k);
    }
  }

  lemma AscendingTail<T>(s: seq<T>, key: T -> int)
    requires Ascending(s, key) && s != []
    ensures Ascending(s[1..], key)
    ensures forall x :: x in s[1..] ==> key(s[0]) < key(x)
  {
    var tail := s[1..];
    forall i, j | 0 <= i < j < |tail| ensures key(tail[i]) < key(tail[j]) {
      assert tail[i] == s[i + 1] && tail[j] == s[j + 1];
    }
    forall x | x in tail ensures key(s[0]) < key(x) {
      var k :| 0 <= k < |tail| && tail[k] == x;
      assert x == s[k + 1];
    }
  }

  lemma AscendingCons<T>(x: T, rest: seq<T>, key: T -> int)
    requires Ascending(rest, key)
    requires forall y :: y in rest ==> key(x) < key(y)
    ensures Ascending([x] + rest, key)
  {
    var r := [x] + rest;
    forall i, j | 0 <= i < j < |r| ensures key(r[i]) < key(r[j]) {
      assert r[j] == rest[j - 1] && r[j] in rest;
      if i > 0 {
        assert r[i] == rest[i - 1];
      }
    }
  }

  /** Keeping only some elements keeps their order. */
  lemma {:induction false} FilterAscending<T>(s: seq<T>, p: T -> bool, key: T -> int)
    requires Ascending(s, key)
    ensures Ascending(Filter(s, p), key)
  {
    if s != [] {
      AscendingTail(s, key);
      FilterAscending(s[1..], p, key);
      var rest := Filter(s[1..], p);
      if p(s[0]) {
        AscendingCons(s[0], rest, key);
      }
    }
  }

  // ---------------------------------------------------------------------------
  // What the detected chapters satisfy

  function StartLine(c: Chapter): int
  {
    c.startLine
  }

  lemma LineMarkersKeyed(lines: seq<string>)
    ensures Keyed(LineMarkers(lines), StartLine)
  {
  }

  /** Every collected chapter is the marker of its own line. */
  lemma MarkersSound(lines: seq<string>)
    ensures forall c :: c in Markers(lines) ==>
      0 <= c.startLine < |lines| && MarkerAt(lines, c.startLine) == Some(c)
  {
    LineMarkersKeyed(lines);
    SomesSound(LineMarkers(lines), StartLine);
  }

  /** The collected chapters are in line order. */
  lemma MarkersOrdered(lines: seq<string>)
    ensures Ascending(Markers(lines), StartLine)
  {
    LineMarkersKeyed(lines);
    SomesAscending(LineMarkers(lines), StartLine);
  }

  /** Every numeral line opens a collected chapter. */
  lemma MarkersComplete(lines: seq<string>, l: nat)
    requires l < |lines| && RomanConverter.IsRomanLine(lines[l])
    ensures exists c :: c in Markers(lines) && c.startLine == l
  {
    SomesComplete(LineMarkers(lines), l);
    assert MarkerAt(lines, l).value in Markers(lines);
  }

  /** Each chapter runs up to the next one's start, and the last up to the line count. */
  lemma ChapterEnds(cs: seq<Chapter>, lineCount: int)
    ensures var r := WithEnds(cs, lineCount);
      (forall i :: 0 <= i < |r| ==>
         r[i].number == cs[i].number && r[i].roman == cs[i].roman && r[i].startLine == cs[i].startLine)
      && (forall i :: 0 <= i < |r| - 1 ==> r[i].endLine == cs[i + 1].startLine)
      && (r != [] ==> r[|r| - 1].endLine == lineCount)
  {
    var r := WithEnds(cs, lineCount);
    forall i | 0 <= i < |r|
      ensures r[i].number == cs[i].number && r[i].roman == cs[i].roman && r[i].startLine == cs[i].startLine
      ensures r[i].endLine == if i + 1 < |cs| then cs[i + 1].startLine else lineCount
    {
      assert r[i] == cs[i].(endLine := if i + 1 < |cs| then cs[i + 1].startLine else lineCount);
    }
  }

  /**
   * The detected chapters are numeral lines in line order, each longer than
   * 100 lines, and every long enough chapter is among them.
   */
  lemma DetectedChapters(text: string)
    ensures var lines := SplitOn(text, '\n');
      var all := WithEnds(Markers(lines), |lines|);
      var r := Filter(all, LongEnough);
      Ascending(r, StartLine)
      && (forall c :: c in r ==>
            (c.endLine - c.startLine > MinChapterLines
             && 0 <= c.startLine < |lines| && RomanConverter.IsRomanLine(lines[c.startLine])))
      && (forall c :: c in all && LongEnough(c) ==> c in r)
  {
    var lines := SplitOn(text, '\n');
    var cs := Markers(lines);
    MarkersOrdered(lines);
    MarkersSound(lines);
    forall c | c in cs ensures 0 <= c.startLine < |lines| && RomanConverter.IsRomanLine(lines[c.startLine]) {
      assert MarkerAt(lines, c.startLine) == Some(c);
    }
    LongChapters(cs, lines);
  }

  /** The filtering of chapters with ends, for any ordered numeral-line chapters. */
  lemma LongChapters(cs: seq<Chapter>, lines: seq<string>)
    requires Ascending(cs, StartLine)
    requires forall c :: c in cs ==> 0 <= c.startLine < |lines| && RomanConverter.IsRomanLine(lines[c.startLine])
    ensures var all := WithEnds(cs, |lines|);
      var r := Filter(all, LongEnough);
      Ascending(r, StartLine)
      && (forall c :: c in r ==>
            (c.endLine - c.startLine > MinChapterLines
             && 0 <= c.startLine < |lines| && RomanConverter.IsRomanLine(lines[c.startLine])))
      && (forall c :: c in all && LongEnough(c) ==> c in r)
  {
    var all := WithEnds(cs, |lines|);
    ChapterEnds(cs, |lines|);
    assert Ascending(all, StartLine) by {
      assert forall i :: 0 <= i < |all| ==> StartLine(all[i]) == StartLine(cs[i]);
    }
    FilterAscending(all, LongEnough, StartLine);
    forall c | c in all && LongEnough(c) ensures c in Filter(all, LongEnough) {
      FilterKeeps(all, LongEnough, c);
    }
    forall c | c in Filter(all, LongEnough)
      ensures 0 <= c.startLine < |lines| && RomanConverter.IsRomanLine(lines[c.startLine])
    {
      var k :| 0 <= k < |all| && all[k] == c;
      assert c.startLine == cs[k].startLine && cs[k] in cs;
    }
  }


  /** Folder names of one- and two-digit chapters. */
  lemma FolderNameExamples()
    ensures Chapter(3, "III", 0, 0).FolderName() == "capitulo_03"
    ensures Chapter(12, "XII", 0, 0).FolderName() == "capitulo_12"
  {
  }

  /** The folder name gives back the chapter number, in exactly two digits below 100. */
  lemma FolderNameNumber(c: Chapter)
    requires c.number >= 0
    ensures var digits := c.FolderName()[9..];
      (forall i :: 0 <= i < |digits| ==> IsDigit(digits[i]))
      && DigitsValue(digits) == c.number
      && (c.number < 100 ==> |digits| == 2)
  {
    var n := c.number;
    var d := NatToString(n);
    var zeros := Repeat('0', 2 - |d|);
    var digits := c.FolderName()[9..];
    assert digits == zeros + d;
    NatToStringValue(n);
    LeadingZerosValue(zeros, d);
    if n < 100 {
      assert |d| <= 2 by {
        if n >= 10 {
          assert NatToString(n) == NatToString(n / 10) + [DigitChar(n % 10)];
        }
      }
    }
  }

  /** Zeros in front do not change the value of a digit string. */
  lemma {:induction false} LeadingZerosValue(zeros: string, d: string)
    requires forall i :: 0 <= i < |zeros| ==> zeros[i] == '0'
    requires forall i :: 0 <= i < |d| ==> IsDigit(d[i])
    ensures forall i :: 0 <= i < |zeros + d| ==> IsDigit((zeros + d)[i])
    ensures DigitsValue(zeros + d) == DigitsValue(d)
  {
    var s := zeros + d;
    if d == [] {
      assert s == zeros;
      ZerosValue(zeros);
    } else {
      assert s[..|s| - 1] == zeros + d[..|d| - 1];
      LeadingZerosValue(zeros, d[..|d| - 1]);
    }
  }

  lemma {:induction false} ZerosValue(zeros: string)
    requires forall i :: 0 <= i < |zeros| ==> zeros[i] == '0'
    ensures forall i :: 0 <= i < |zeros| ==> IsDigit(zeros[i])
    ensures DigitsValue(zeros) == 0
  {
    if zeros != [] {
      ZerosValue(zeros[..|zeros| - 1]);
    }
  }
}
