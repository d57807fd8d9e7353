/**
 * The context analyzer of the speech side: it tells from a piece of text
 * whether it is a question, an exclamation, a line of dialogue, a pause or
 * narrative, so that synthesis can pick its parameters.
 *
 * The classification is an ordered chain of tests on the text lower-cased
 * and stripped: question marks first, then exclamation marks, then a
 * leading dash, then an empty or ellipsis-only text, then the first word.
 */
module ContextAnalyzer {
  import opened TextUtil

  datatype ContextType = Question | Exclamation | Dialogue | Narrative | Pause

  /** Opening words that make a question (lower case). */
  const QuestionWords: set<string> :=
    {"qué", "quién", "cuándo", "dónde", "cómo", "por qué", "cuál", "cuáles"}

  /** Opening words that make an exclamation (lower case). */
  const ExclamationWords: set<string> :=
    {"ay", "oh", "ah", "eh", "uf", "caramba", "dios", "cielos"}

  /** Stripped texts that are nothing but a pause: three dots, the ellipsis character, nothing. */
  const PauseTexts: seq<string> := ["...", "\U{2026}", ""]

  const EmDash: string := "\U{2014}"

  /** The text the marks and words are looked for in: lower-cased, then stripped. */
  function Clean(text: string): string
  {
    Strip(Lower(text))
  }

  predicate AsksQuestion(t: string)
  {
    '¿' in t || EndsWith(t, "?")
  }

  predicate Exclaims(t: string)
  {
    '¡' in t || EndsWith(t, "!")
  }

  /** Dialogue is recognised on the text as given, before any stripping. */
  predicate OpensDialogue(text: string)
  {
    StartsWith(text, EmDash) || StartsWith(text, "-")
  }

  /** The class of a text. */
  function Analyze(text: string): (c: ContextType)
    ensures c == Dialogue ==> OpensDialogue(text)
    ensures c == Pause ==> Strip(text) in PauseTexts
  {
    Classify(text, Clean(text), true)
  }

  /**
   * The chain of tests, on the text as given and on its cleaned form t.
   * As written, a question word must be the first word on its own; the
   * corrected test also tries the first two words (see OpensQuestion).
   */
  function Classify(text: string, t: string, asWritten: bool): (c: ContextType)
    ensures c == Dialogue ==> OpensDialogue(text)
    ensures c == Pause ==> Strip(text) in PauseTexts
  {
    if AsksQuestion(t) then Question
    else if Exclaims(t) then Exclamation
    else if OpensDialogue(text) then Dialogue
    else if Strip(text) in PauseTexts then Pause
    else ByWords(Words(t), asWritten)
  }

  /** The last tests, on the words of the cleaned text: they never make dialogue or a pause. */
  function ByWords(words: seq<string>, asWritten: bool): (c: ContextType)
    ensures c == Question || c == Exclamation || c == Narrative
  {
    if (if asWritten then words != [] && words[0] in QuestionWords else OpensQuestion(words)) then Question
    else if words != [] && words[0] in ExclamationWords then Exclamation
    else Narrative
  }

  /** The opening-word test extended to the two-word question word. */
  predicate OpensQuestion(words: seq<string>)
  {
    (words != [] && words[0] in QuestionWords)
    || (|words| >= 2 && words[0] + " " + words[1] in QuestionWords)
  }

  /** A question mark decides before anything else. */
  lemma MarkDecides(text: string, t: string, asWritten: bool)
    requires AsksQuestion(t)
    ensures Classify(text, t, asWritten) == Question
  {
  }

  /** Without a question mark, an exclamation mark decides. */
  lemma ExclaimDecides(text: string, t: string, asWritten: bool)
    requires !AsksQuestion(t) && Exclaims(t)
    ensures Classify(text, t, asWritten) == Exclamation
  {
  }

  /** Without marks and dash, a pause text decides. */
  lemma PauseDecides(text: string, t: string, asWritten: bool)
    requires !AsksQuestion(t) && !Exclaims(t) && !OpensDialogue(text) && Strip(text) in PauseTexts
    ensures Classify(text, t, asWritten) == Pause
  {
  }

  /** Past the marks, the dash and the pause, the words decide. */
  lemma WordsDecide(text: string, t: string, asWritten: bool)
    requires !AsksQuestion(t) && !Exclaims(t) && !OpensDialogue(text) && Strip(text) !in PauseTexts
    ensures Classify(text, t, asWritten) == ByWords(Words(t), asWritten)
  {
  }

  /** A question word first makes a question. */
  lemma FirstWordAsks(w: string, more: seq<string>)
    requires w in QuestionWords
    ensures ByWords([w] + more, true) == Question
  {
  }

  /** An exclamation word first, that is not also a question word, makes an exclamation. */
  lemma FirstWordExclaims(w: string, more: seq<string>)
    requires w !in QuestionWords && w in ExclamationWords
    ensures ByWords([w] + more, true) == Exclamation
  {
  }

  /** Any other first word leaves narrative. */
  lemma FirstWordNarrates(w: string, more: seq<string>)
    requires w !in QuestionWords && w !in ExclamationWords
    ensures ByWords([w] + more, true) == Narrative
  {
  }

  /** With the corrected test, two opening words that form a question word make a question. */
  lemma TwoWordsAskFixed(a: string, b: string, more: seq<string>)
    requires a + " " + b in QuestionWords
    ensures ByWords([a, b] + more, false) == Question
  {
  }

  // ---------------------------------------------------------------------------
  // The order of the tests

  /** A text without any question or exclamation mark where the tests look for one. */
  predicate Unmarked(text: string)
  {
    '¿' !in text && '¡' !in text && !EndsWith(Strip(text), "?") && !EndsWith(Strip(text), "!")
  }

  /** The question and exclamation marks are not letters. */
  lemma MarksUncased()
    ensures !IsCased('¿') && !IsCased('¡') && !IsCased("?"[0]) && !IsCased("!"[0])
    ensures |"?"| == 1 && |"!"| == 1 && !IsSpace('¿') && !IsSpace('¡')
  {
  }

  /** A mark that is not a letter is found in the cleaned text wherever it is in the text. */
  lemma MarkSurvives(text: string, c: char)
    requires c in text && !IsSpace(c) && !IsCased(c)
    ensures c in Clean(text)
  {
    var i :| 0 <= i < |text| && text[i] == c;
    assert Lower(text)[i] == c;
    StripKeepsIn(Lower(text), i);
  }

  /** The cleaned text ends with an uncased character exactly when the stripped text does. */
  lemma CleanEndsWith(text: string, p: string)
    requires |p| == 1 && !IsCased(p[0])
    ensures EndsWith(Clean(text), p) <==> EndsWith(Strip(text), p)
  {
    StripLower(text);
    LowerEndsWith(Strip(text), p);
  }

  /** An unmarked text has no mark in its cleaned form. */
  lemma UnmarkedClean(text: string)
    requires Unmarked(text)
    ensures !AsksQuestion(Clean(text)) && !Exclaims(Clean(text))
  {
    QuestionMarksAbsent(text);
    ExclamationMarksAbsent(text);
  }

  lemma ExclamationMarksAbsent(text: string)
    requires '¡' !in text && !EndsWith(Strip(text), "!")
    ensures !Exclaims(Clean(text))
  {
    MarksUncased();
    MarkAbsent(text, '¡');
    EndAbsent(text, "!");
  }

  lemma MarkAbsent(text: string, c: char)
    requires c !in text && !IsCased(c)
    ensures c !in Clean(text)
  {
    LowerHas(text, c);
    StripKeepsOut(Lower(text), c);
  }

  lemma EndAbsent(text: string, p: string)
    requires !EndsWith(Strip(text), p) && |p| == 1 && !IsCased(p[0])
    ensures !EndsWith(Clean(text), p)
  {
    CleanEndsWith(text, p);
  }

  /** An inverted question mark anywhere makes a question, whatever else the text holds. */
  lemma InvertedQuestionMarkFirst(text: string)
    requires '¿' in text
    ensures Analyze(text) == Question
  {
    MarksUncased();
    MarkSurvives(text, '¿');
    MarkDecides(text, Clean(text), true);
  }

  /** A text whose last visible character is '?' is a question, whatever else it holds. */
  lemma TrailingQuestionMarkFirst(text: string)
    requires EndsWith(Strip(text), "?")
    ensures Analyze(text) == Question
  {
    QuestionEndingSurvives(text);
    AnalyzeAsks(text);
  }

  lemma QuestionEndingSurvives(text: string)
    requires EndsWith(Strip(text), "?")
    ensures AsksQuestion(Clean(text))
  {
    MarksUncased();
    CleanEndsWith(text, "?");
    EndingAsks(Clean(text));
  }

  lemma AnalyzeAsks(text: string)
    requires AsksQuestion(Clean(text))
    ensures Analyze(text) == Question
  {
    MarkDecides(text, Clean(text), true);
  }

  lemma EndingAsks(t: string)
    requires EndsWith(t, "?")
    ensures AsksQuestion(t)
  {
  }

  /** Without question marks, an exclamation mark wins over a leading dash. */
  lemma ExclamationBeforeDialogue(text: string)
    requires '¿' !in text && !EndsWith(Strip(text), "?")
    requires '¡' in text || EndsWith(Strip(text), "!")
    ensures Analyze(text) == Exclamation
  {
    QuestionMarksAbsent(text);
    ExclamationSurvives(text);
    AnalyzeExclaims(text);
  }

  lemma QuestionMarksAbsent(text: string)
    requires '¿' !in text && !EndsWith(Strip(text), "?")
    ensures !AsksQuestion(Clean(text))
  {
    MarksUncased();
    MarkAbsent(text, '¿');
    EndAbsent(text, "?");
  }

  lemma AnalyzeExclaims(text: string)
    requires !AsksQuestion(Clean(text)) && Exclaims(Clean(text))
    ensures Analyze(text) == Exclamation
  {
    ExclaimDecides(text, Clean(text), true);
  }

  lemma ExclamationSurvives(text: string)
    requires '¡' in text || EndsWith(Strip(text), "!")
    ensures Exclaims(Clean(text))
  {
    MarksUncased();
    if '¡' in text {
      MarkSurvives(text, '¡');
    } else {
      CleanEndsWith(text, "!");
    }
  }

  /** Without any mark, a leading dash makes dialogue, even when the text is a single dash. */
  lemma DialogueBeforePause(text: string)
    requires Unmarked(text) && OpensDialogue(text)
    ensures Analyze(text) == Dialogue
  {
    UnmarkedClean(text);
  }

  /** A text made of dots and ellipsis characters. */
  predicate AllDots(s: string)
  {
    forall k :: 0 <= k < |s| ==> s[k] == '.' || s[k] == '\U{2026}'
  }

  lemma PauseTextsDots(s: string)
    requires s in PauseTexts
    ensures AllDots(s)
  {
  }

  /** Dots hold no letter, no mark and no dash. */
  lemma DotsPlain(s: string)
    requires AllDots(s)
    ensures Lower(s) == s && !AsksQuestion(s) && !Exclaims(s)
    ensures '-' !in s && EmDash[0] !in s
  {
    LowerOfUncased(s);
    if s != [] {
      assert s[|s| - 1..] == [s[|s| - 1]];
    }
  }

  /** The dash that opens dialogue survives stripping. */
  lemma DialogueDashSurvives(text: string)
    requires OpensDialogue(text)
    ensures '-' in Strip(text) || EmDash[0] in Strip(text)
  {
    StripKeepsIn(text, 0);
  }

  /** A text that strips to three dots, the ellipsis character or nothing is a pause. */
  lemma PauseText(text: string)
    requires Strip(text) in PauseTexts
    ensures Analyze(text) == Pause
  {
    PauseTextsDots(Strip(text));
    DotsPlain(Strip(text));
    CleanOfDots(text);
    if OpensDialogue(text) {
      DialogueDashSurvives(text);
      assert false;
    }
    PauseDecides(text, Clean(text), true);
  }

  lemma CleanOfDots(text: string)
    requires AllDots(Strip(text))
    ensures Clean(text) == Strip(text)
  {
    StripLower(text);
    DotsPlain(Strip(text));
  }

  // ---------------------------------------------------------------------------
  // The opening word

  /** The words of a text that opens with the word w are w lower-cased, then the rest's. */
  lemma OpeningWord(w: string, rest: string)
    requires w != [] && NoSpace(w) && (rest == [] || IsSpace(rest[0]))
    ensures Words(Clean(w + rest)) == [Lower(w)] + Words(Lower(rest))
  {
    WordsOfStrip(Lower(w + rest));
    LowerWords(w, rest);
  }

  /** A text that opens with a letter is neither dialogue nor a pause. */
  lemma OpensWithLetter(text: string)
    requires text != [] && IsCased(text[0])
    ensures !OpensDialogue(text) && Strip(text) !in PauseTexts
  {
    LetterNotDash(text);
    LetterNotDots(text);
  }

  lemma LetterNotDash(text: string)
    requires text != [] && IsCased(text[0])
    ensures !OpensDialogue(text)
  {
    assert text[..1] == [text[0]];
  }

  lemma LetterNotDots(text: string)
    requires text != [] && IsCased(text[0])
    ensures Strip(text) !in PauseTexts
  {
    StripKeepsIn(text, 0);
    if Strip(text) in PauseTexts {
      PauseTextsDots(Strip(text));
      assert false;
    }
  }

  /** An unmarked text that opens with a letter is classified by its words. */
  lemma LetterOpensWords(text: string, asWritten: bool)
    requires Unmarked(text) && text != [] && IsCased(text[0])
    ensures Classify(text, Clean(text), asWritten) == ByWords(Words(Clean(text)), asWritten)
  {
    UnmarkedClean(text);
    OpensWithLetter(text);
    WordsDecide(text, Clean(text), asWritten);
  }

  /** A word whose lower case is one of the listed words opens with a letter. */
  lemma ListedWordOpensWithLetter(w: string)
    requires Lower(w) in QuestionWords || Lower(w) in ExclamationWords
    ensures w != [] && IsCased(w[0])
  {
    assert Lower(w)[0] == LowerChar(w[0]);
  }

  /** The one-word entries of the lists contain no whitespace. */
  lemma ListedWordNoSpace(w: string)
    requires (Lower(w) in QuestionWords && Lower(w) != "por qué") || Lower(w) in ExclamationWords
    ensures NoSpace(w)
  {
    ListedNoSpace(Lower(w));
    forall k | 0 <= k < |w| ensures !IsSpace(w[k]) {
      LowerKeepsSpace(w[k]);
      assert Lower(w)[k] == LowerChar(w[k]);
    }
  }

  lemma ListedNoSpace(x: string)
    requires (x in QuestionWords && x != "por qué") || x in ExclamationWords
    ensures NoSpace(x)
  {
  }

  /** An unmarked text opening with a question word, in any case, is a question. */
  lemma QuestionWordOpens(w: string, rest: string)
    requires Lower(w) in QuestionWords && Lower(w) != "por qué"
    requires (rest == [] || IsSpace(rest[0])) && Unmarked(w + rest)
    ensures Analyze(w + rest) == Question
  {
    ListedWordOpensWithLetter(w);
    ListedWordNoSpace(w);
    LetterOpensWords(w + rest, true);
    OpeningWord(w, rest);
    FirstWordAsks(Lower(w), Words(Lower(rest)));
  }

  /** No word is on both lists. */
  lemma ListsDisjoint(x: string)
    requires x in ExclamationWords
    ensures x !in QuestionWords
  {
  }

  /** An unmarked text opening with an exclamation word, in any case, is an exclamation. */
  lemma ExclamationWordOpens(w: string, rest: string)
    requires Lower(w) in ExclamationWords
    requires (rest == [] || IsSpace(rest[0])) && Unmarked(w + rest)
    ensures Analyze(w + rest) == Exclamation
  {
    ListsDisjoint(Lower(w));
    ListedWordOpensWithLetter(w);
    ListedWordNoSpace(w);
    LetterOpensWords(w + rest, true);
    OpeningWord(w, rest);
    FirstWordExclaims(Lower(w), Words(Lower(rest)));
  }

  /** An unmarked text opening with any other word is narrative. */
  lemma OtherWordIsNarrative(w: string, rest: string)
    requires w != [] && NoSpace(w) && (rest == [] || IsSpace(rest[0])) && IsCased(w[0])
    requires Lower(w) !in QuestionWords && Lower(w) !in ExclamationWords && Unmarked(w + rest)
    ensures Analyze(w + rest) == Narrative
  {
    LetterOpensWords(w + rest, true);
    OpeningWord(w, rest);
    FirstWordNarrates(Lower(w), Words(Lower(rest)));
  }

  // ---------------------------------------------------------------------------
  // "por qué": a question word of two words

  /** No word of any text is "por qué": words hold no whitespace. */
  lemma NoWordIsPorQue(ws: seq<string>)
    requires IsWordList(ws)
    ensures ws == [] || ws[0] != "por qué"
  {
    if ws != [] {
      assert NoSpace(ws[0]);
      assert IsSpace("por qué"[3]);
    }
  }

  /** As written, the first word is never "por qué", so that entry of the list never matches. */
  lemma FirstWordNeverPorQue(text: string)
    ensures Words(Clean(text)) == [] || Words(Clean(text))[0] != "por qué"
  {
    NoWordIsPorQue(Words(Clean(text)));
  }

  /** "por" and "qué" in any case: single words, the first one opening with a letter. */
  lemma PorQueWords(a: string, b: string)
    requires Lower(a) == "por" && Lower(b) == "qué"
    ensures a != [] && NoSpace(a) && IsCased(a[0]) && b != [] && NoSpace(b)
    ensures Lower(a) !in QuestionWords && Lower(a) !in ExclamationWords
  {
    assert Lower(a)[0] == LowerChar(a[0]);
    forall k | 0 <= k < |a| ensures !IsSpace(a[k]) {
      LowerKeepsSpace(a[k]);
      assert Lower(a)[k] == LowerChar(a[k]);
    }
    forall k | 0 <= k < |b| ensures !IsSpace(b[k]) {
      LowerKeepsSpace(b[k]);
      assert Lower(b)[k] == LowerChar(b[k]);
    }
  }

  /** As written, an unmarked text opening with "por qué", in any case, is narrative, not a question. */
  lemma PorQueIsNarrative(a: string, b: string, rest: string)
    requires Lower(a) == "por" && Lower(b) == "qué"
    requires (rest == [] || IsSpace(rest[0])) && Unmarked(a + " " + b + rest)
    ensures Analyze(a + " " + b + rest) == Narrative
  {
    PorQueWords(a, b);
    assert a + " " + b + rest == a + (" " + b + rest);
    OtherWordIsNarrative(a, " " + b + rest);
  }

  /** The class of a text, with "por qué" recognised as an opening question word. */
  function AnalyzeFixed(text: string): (c: ContextType)
    ensures c == Dialogue ==> OpensDialogue(text)
    ensures c == Pause ==> Strip(text) in PauseTexts
  {
    Classify(text, Clean(text), false)
  }

  /** The words of a lower-cased text that opens with the words a and b. */
  lemma LowerTwoWords(a: string, b: string, rest: string)
    requires a != [] && NoSpace(a) && b != [] && NoSpace(b) && (rest == [] || IsSpace(rest[0]))
    ensures Words(Lower(a + " " + b + rest)) == [Lower(a), Lower(b)] + Words(Lower(rest))
  {
    var tail := " " + (b + rest);
    assert a + " " + b + rest == a + tail;
    LowerWords(a, tail);
    LowerAppend(" ", b + rest);
    WordsSkipsLeadingSpace(Lower(" "), Lower(b + rest));
    LowerWords(b, rest);
    assert Words(Lower(tail)) == [Lower(b)] + Words(Lower(rest));
  }

  /** The words of a text that opens with the words a and b. */
  lemma TwoOpeningWords(a: string, b: string, rest: string)
    requires a != [] && NoSpace(a) && b != [] && NoSpace(b) && (rest == [] || IsSpace(rest[0]))
    ensures Words(Clean(a + " " + b + rest)) == [Lower(a), Lower(b)] + Words(Lower(rest))
  {
    WordsOfStrip(Lower(a + " " + b + rest));
    LowerTwoWords(a, b, rest);
  }

  lemma FirstOfTwoWords(a: string, b: string, rest: string)
    requires a != []
    ensures (a + " " + b + rest)[0] == a[0]
  {
  }

  lemma PorQueListed()
    ensures "por" + " " + "qué" in QuestionWords
  {
    assert "por" + " " + "qué" == "por qué";
  }

  /** With the fix, an unmarked text opening with "por qué", in any case, is a question. */
  lemma PorQueAsksFixed(a: string, b: string, rest: string)
    requires Lower(a) == "por" && Lower(b) == "qué"
    requires (rest == [] || IsSpace(rest[0])) && Unmarked(a + " " + b + rest)
    ensures AnalyzeFixed(a + " " + b + rest) == Question
  {
    var text := a + " " + b + rest;
    PorQueWords(a, b);
    FirstOfTwoWords(a, b, rest);
    LetterOpensWords(text, false);
    TwoOpeningWords(a, b, rest);
    PorQueListed();
    TwoWordsAskFixed(Lower(a), Lower(b), Words(Lower(rest)));
  }

  /** Where a space sits in a listed question word: only in "por qué", after "por". */
  lemma SpaceInQuestionWord(s: string, j: nat)
    requires s in QuestionWords && j < |s| && s[j] == ' '
    ensures s == "por qué" && j == 3
  {
  }

  /** On a list of words, the extended test adds exactly the openings "por", "qué". */
  lemma OpensQuestionWords(ws: seq<string>)
    requires IsWordList(ws)
    ensures OpensQuestion(ws)
      <==> (ws != [] && ws[0] in QuestionWords) || (|ws| >= 2 && ws[0] == "por" && ws[1] == "qué")
  {
    if |ws| >= 2 {
      var s := ws[0] + " " + ws[1];
      var j := |ws[0]|;
      if ws[0] == "por" && ws[1] == "qué" {
        assert s == "por qué";
      }
      if s in QuestionWords {
        assert s[j] == ' ';
        SpaceInQuestionWord(s, j);
        assert ws[0] == s[..j];
        assert ws[1] == s[j + 1..];
      }
    }
  }

  /** The fix changes nothing but turning a text that opens with "por qué" into a question. */
  lemma FixedOnlyAddsPorQue(text: string)
    ensures AnalyzeFixed(text) == Analyze(text)
      || (AnalyzeFixed(text) == Question
          && |Words(Clean(text))| >= 2 && Words(Clean(text))[0] == "por" && Words(Clean(text))[1] == "qué")
  {
    OpensQuestionWords(Words(Clean(text)));
    FixedDiffers(text, Clean(text));
    ByWordsDiffer(Words(Clean(text)));
  }

  /** The two chains part, if at all, only in the word tests. */
  lemma FixedDiffers(text: string, t: string)
    ensures Classify(text, t, false) == Classify(text, t, true)
      || (Classify(text, t, false) == ByWords(Words(t), false) && Classify(text, t, true) == ByWords(Words(t), true))
  {
  }

  /** The two word tests part only where the corrected opening test says yes and the written one no. */
  lemma ByWordsDiffer(words: seq<string>)
    ensures ByWords(words, false) == ByWords(words, true)
      || (ByWords(words, false) == Question && OpensQuestion(words) && !(words != [] && words[0] in QuestionWords))
  {
  }
}
