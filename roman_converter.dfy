/**
 * The Roman-numeral line converter of the speech pipeline: a line holding
 * only a numeral from I to XX is read as a Spanish ordinal followed by a
 * two-second silence, and the first line with text after such a numeral
 * starts with a half-second silence. Blank lines in between keep that
 * pending; every other line, and a numeral outside the table, is unchanged.
 */
module RomanConverter {
  import opened TextUtil
  import opened SeqUtil
  import opened Dict

  /** ROMAN_TO_NUM */
  const RomanToNum: seq<(string, int)> := [
    ("I", 1), ("II", 2), ("III", 3), ("IV", 4), ("V", 5),
    ("VI", 6), ("VII", 7), ("VIII", 8), ("IX", 9), ("X", 10),
    ("XI", 11), ("XII", 12), ("XIII", 13), ("XIV", 14), ("XV", 15),
    ("XVI", 16), ("XVII", 17), ("XVIII", 18), ("XIX", 19), ("XX", 20)
  ]

  /** NUM_TO_SPANISH */
  const NumToSpanish: seq<(int, string)> := [
    (1, "Primero"), (2, "Segundo"), (3, "Tercero"),
    (4, "Cuarto"), (5, "Quinto"), (6, "Sexto"),
    (7, "Séptimo"), (8, "Octavo"), (9, "Noveno"),
    (10, "Décimo"), (11, "Undécimo"), (12, "Duodécimo"),
    (13, "Decimotercero"), (14, "Decimocuarto"),
    (15, "Decimoquinto"), (16, "Decimosexto"),
    (17, "Decimoséptimo"), (18, "Decimoctavo"),
    (19, "Decimonoveno"), (20, "Vigésimo")
  ]

  const TitleSilence := "<silence:2.0>"
  const WarmupSilence := "<silence:0.5>"

  predicate IsRomanChar(c: char)
  {
    c == 'I' || c == 'V' || c == 'X'
  }

  /**
   * `re.match(r'^([IVX]+)\s*$', line.strip())`: the stripped line is a
   * non-empty run of I, V and X, and that run is the captured numeral.
   */
  predicate IsRomanLine(line: string)
  {
    var t := Strip(line);
    t != [] && forall i :: 0 <= i < |t| ==> IsRomanChar(t[i])
  }

  /** `ROMAN_TO_NUM.get(roman)`, with 0 for a numeral the table does not list. */
  function RomanNumber(roman: string): (n: int)
    ensures 0 <= n <= 20
    ensures n != 0 <==> HasKey(RomanToNum, roman)
  {
    RomanTableFacts();
    GetSpec(RomanToNum, roman, 0);
    Get(RomanToNum, roman, 0)
  }

  /** `NUM_TO_SPANISH.get(num, roman)` */
  function SpanishOrdinal(num: int, roman: string): (s: string)
    ensures '\n' in s ==> s == roman
  {
    SpanishTableFacts();
    GetSpec(NumToSpanish, num, roman);
    Get(NumToSpanish, num, roman)
  }

  /** A numeral line whose numeral is in the table. */
  predicate IsKnownNumeral(line: string)
  {
    IsRomanLine(line) && RomanNumber(Strip(line)) != 0
  }

  /** The ordinal a numeral of the table is read as. */
  function Ordinal(roman: string): string
  {
    SpanishOrdinal(RomanNumber(roman), roman)
  }

  /**
   * One iteration of the loop: the converted line and the new value of
   * prev_was_roman, given the line and the old value.
   */
  function Step(line: string, prev: bool): (string, bool)
  {
    if IsRomanLine(line) then
      var roman := Strip(line);
      var num := RomanNumber(roman);
      if num != 0 then (SpanishOrdinal(num, roman) + TitleSilence, true)
      else (line, if HasText(line) then false else prev)
    else if prev && HasText(line) then (WarmupSilence + line, false)
    else (line, if HasText(line) then false else prev)
  }

  /** The flag a left-to-right pass with step carries after seeing xs, starting from false. */
  function ScanFlag<T>(xs: seq<T>, step: (T, bool) -> (T, bool)): bool
  {
    if xs == [] then false else step(xs[|xs| - 1], ScanFlag(xs[..|xs| - 1], step)).1
  }

  /** The outputs of that pass, one per element. */
  function ScanOut<T>(xs: seq<T>, step: (T, bool) -> (T, bool)): (out: seq<T>)
    ensures |out| == |xs|
  {
    if xs == [] then []
    else ScanOut(xs[..|xs| - 1], step) + [step(xs[|xs| - 1], ScanFlag(xs[..|xs| - 1], step)).0]
  }

  /** Output i of the pass is the step on element i and the flag after the elements before it. */
  lemma {:induction false} ScanOutAt<T>(xs: seq<T>, i: nat, step: (T, bool) -> (T, bool))
    requires i < |xs|
    ensures ScanOut(xs, step)[i] == step(xs[i], ScanFlag(xs[..i], step)).0
    decreases |xs|
  {
    var n := |xs| - 1;
    if i < n {
      ScanOutAt(xs[..n], i, step);
      assert xs[..n][..i] == xs[..i];
    }
  }

  /** prev_was_roman after the loop has seen the lines. */
  function FlagAfter(lines: seq<string>): bool
  {
    ScanFlag(lines, Step)
  }

  /** The converted list after the loop has seen the lines. */
  function Converted(lines: seq<string>): (out: seq<string>)
    ensures |out| == |lines|
  {
    ScanOut(lines, Step)
  }

  /** The body of convert_line's loop: one line, given prev_was_roman. */
  method ConvertOne(line: string, prevWasRoman: bool) returns (out: string, next: bool)
    ensures (out, next) == Step(line, prevWasRoman)
  {
    next := prevWasRoman;
    var stripped := Strip(line);
    if IsRomanLine(line) {
      var roman := stripped;
      var num := RomanNumber(roman);
      if num != 0 {
        var spanish := SpanishOrdinal(num, roman);
        out := spanish + TitleSilence;
        next := true;
      } else {
        out := line;
        if stripped != [] {
          next := false;
        }
      }
    } else {
      if prevWasRoman && stripped != [] {
        out := WarmupSilence + line;
        next := false;
      } else {
        out := line;
        if stripped != [] {
          next := false;
        }
      }
    }
  }

  lemma ConvertedStep(lines: seq<string>, i: nat)
    requires i < |lines|
    ensures Converted(lines[..i + 1]) == Converted(lines[..i]) + [Step(lines[i], FlagAfter(lines[..i])).0]
    ensures FlagAfter(lines[..i + 1]) == Step(lines[i], FlagAfter(lines[..i])).1
  {
    assert lines[..i + 1][..i] == lines[..i];
  }

  /** convert_line */
  method ConvertLine(text: string) returns (r: string)
    ensures r == Join("\n", Converted(SplitOn(text, '\n')))
  {
    var lines := SplitOn(text, '\n');
    var converted := ConvertLines(lines);
    r := Join("\n", converted);
  }

  /** convert_line's loop over the lines, carrying prev_was_roman. */
  method ConvertLines(lines: seq<string>) returns (converted: seq<string>)
    ensures converted == Converted(lines)
  {
    converted := [];
    var prevWasRoman := false;
    for i := 0 to |lines|
      invariant converted == Converted(lines[..i])
      invariant prevWasRoman == FlagAfter(lines[..i])
    {
      var out, next := ConvertOne(lines[i], prevWasRoman);
      ConvertedStep(lines, i);
      converted := converted + [out];
      prevWasRoman := next;
    }
    assert lines[..|lines|] == lines;
  }

  // ---------------------------------------------------------------------------
  // The tables

  lemma RomanTableFacts()
    ensures forall i :: 0 <= i < |RomanToNum| ==> RomanToNum[i].1 == i + 1
  {
  }

  // No numeral is listed twice, checked a block of pairs at a time.

  lemma RomanKeysDistinctLow()
    ensures forall i, j :: 0 <= i < j < 10 ==> RomanToNum[i].0 != RomanToNum[j].0
  {
  }

  lemma RomanKeysDistinctAcross()
    ensures forall i, j :: 0 <= i < 10 <= j < 20 ==> RomanToNum[i].0 != RomanToNum[j].0
  {
  }

  lemma RomanKeysDistinctHigh()
    ensures forall i, j :: 10 <= i < j < 20 ==> RomanToNum[i].0 != RomanToNum[j].0
  {
  }

  lemma RomanKeysDistinct()
    ensures DistinctKeys(RomanToNum)
  {
    RomanKeysDistinctLow();
    RomanKeysDistinctAcross();
    RomanKeysDistinctHigh();
  }

  lemma SpanishTableFacts()
    ensures forall i :: 0 <= i < |NumToSpanish| ==> NumToSpanish[i].0 == i + 1
    ensures forall i :: 0 <= i < |NumToSpanish| ==> '\n' !in NumToSpanish[i].1
  {
  }

  /** Each numeral of the table is read as the ordinal of the same rank: "XIV" as "Decimocuarto". */
  lemma OrdinalOfTable(k: nat)
    requires k < |RomanToNum|
    ensures Ordinal(RomanToNum[k].0) == NumToSpanish[k].1
  {
    RomanTableFacts();
    RomanKeysDistinct();
    SpanishTableFacts();
    GetOfEntry(RomanToNum, k, 0);
    assert RomanNumber(RomanToNum[k].0) == NumToSpanish[k].0;
    GetOfEntry(NumToSpanish, k, RomanToNum[k].0);
  }

  // ---------------------------------------------------------------------------
  // What the conversion does

  /** The flag after a line: set by a known numeral, kept across blank lines, cleared otherwise. */
  lemma StepFlag(line: string, prev: bool)
    ensures Step(line, prev).1 == (IsKnownNumeral(line) || (prev && !HasText(line)))
  {
  }

  /** The converted line, case by case. */
  lemma StepLine(line: string, prev: bool)
    ensures Step(line, prev).0 ==
      if IsKnownNumeral(line) then Ordinal(Strip(line)) + TitleSilence
      else if !IsRomanLine(line) && prev && HasText(line) then WarmupSilence + line
      else line
  {
  }

  /** Some element before i is marked, and every element after it up to i is blank. */
  predicate MarkedSince<T>(s: seq<T>, i: nat, mark: T -> bool, blank: T -> bool)
    requires i <= |s|
  {
    exists j :: 0 <= j < i && mark(s[j]) && forall k :: j < k < i ==> blank(s[k])
  }

  lemma MarkedSinceStep<T>(s: seq<T>, i: nat, mark: T -> bool, blank: T -> bool)
    requires i < |s|
    ensures MarkedSince(s, i + 1, mark, blank) <==> mark(s[i]) || (MarkedSince(s, i, mark, blank) && blank(s[i]))
  {
    if MarkedSince(s, i + 1, mark, blank) && !mark(s[i]) {
      var j :| 0 <= j < i + 1 && mark(s[j]) && forall k :: j < k < i + 1 ==> blank(s[k]);
      assert j < i;
    }
  }

  predicate IsBlank(line: string)
  {
    !HasText(line)
  }

  /** Some earlier line was a known numeral, with only blank lines since. */
  predicate AfterNumeral(lines: seq<string>, i: nat)
    requires i <= |lines|
  {
    MarkedSince(lines, i, IsKnownNumeral, IsBlank)
  }

  /**
   * After the first i lines, a warm-up pause is pending exactly when some
   * line was a known numeral and every line after it was blank.
   */
  lemma {:induction false} FlagMeaning(lines: seq<string>, i: nat)
    requires i <= |lines|
    ensures FlagAfter(lines[..i]) <==> AfterNumeral(lines, i)
  {
    if i > 0 {
      FlagMeaning(lines, i - 1);
      assert lines[..i][..i - 1] == lines[..i - 1];
      StepFlag(lines[i - 1], FlagAfter(lines[..i - 1]));
      MarkedSinceStep(lines, i - 1, IsKnownNumeral, IsBlank);
    }
  }

  /**
   * Line by line: a known numeral becomes its ordinal and the two-second
   * silence; a line with text that is not a numeral line and follows a
   * numeral (blank lines between) gets the half-second silence in front;
   * every other line is kept as it is.
   */
  lemma ConvertedAt(lines: seq<string>, i: nat)
    requires i < |lines|
    ensures Converted(lines)[i] ==
      if IsKnownNumeral(lines[i]) then Ordinal(Strip(lines[i])) + TitleSilence
      else if !IsRomanLine(lines[i]) && HasText(lines[i]) && AfterNumeral(lines, i) then WarmupSilence + lines[i]
      else lines[i]
  {
    ScanOutAt(lines, i, Step);
    FlagMeaning(lines, i);
    StepLine(lines[i], FlagAfter(lines[..i]));
  }

  /** A numeral line has no newline in its numeral. */
  lemma NumeralNoNewline(line: string)
    requires IsRomanLine(line)
    ensures '\n' !in Strip(line)
  {
  }

  lemma SilencesNoNewline()
    ensures '\n' !in TitleSilence && '\n' !in WarmupSilence
  {
  }

  lemma OrdinalNoNewline(roman: string)
    requires '\n' !in roman
    ensures '\n' !in Ordinal(roman)
  {
  }

  lemma StepNoNewline(line: string, prev: bool)
    requires '\n' !in line
    ensures '\n' !in Step(line, prev).0
  {
    StepLine(line, prev);
    if IsKnownNumeral(line) {
      NumeralNoNewline(line);
      OrdinalNoNewline(Strip(line));
    }
    SilencesNoNewline();
  }

  /**
   * The converted text has one line per input line: splitting it on
   * newlines gives back exactly the converted lines.
   */
  lemma ConvertLineLines(text: string)
    ensures SplitOn(Join("\n", Converted(SplitOn(text, '\n'))), '\n') == Converted(SplitOn(text, '\n'))
    ensures |SplitOn(Join("\n", Converted(SplitOn(text, '\n'))), '\n')| == |SplitOn(text, '\n')|
  {
    var lines := SplitOn(text, '\n');
    var out := Converted(lines);
    forall k | 0 <= k < |out| ensures '\n' !in out[k] {
      ScanOutAt(lines, k, Step);
      StepNoNewline(lines[k], FlagAfter(lines[..k]));
    }
    SplitOnJoin(out, '\n');
  }
}
