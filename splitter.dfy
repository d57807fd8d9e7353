/**
 * The translator's sentence splitter: regex sentence splitting, the
 * word-based token estimate and the greedy grouping of sentences under a
 * token budget.
 */
module Splitter {
  import opened TextUtil
  import Grouping

  /** The look-behind class [.!?…] of the sentence-end pattern. */
  predicate IsSentenceEnd(c: char)
  {
    c == '.' || c == '!' || c == '?' || c == '…'
  }

  /** The look-ahead class [A-ZÁÉÍÓÚÑa-z«"] of the sentence-end pattern. */
  predicate IsSentenceStart(c: char)
  {
    ('A' <= c <= 'Z') || c == 'Á' || c == 'É' || c == 'Í' || c == 'Ó' || c == 'Ú' || c == 'Ñ'
    || ('a' <= c <= 'z') || c == '«' || c == '"'
  }

  /**
   * Whether the pattern (?<=[.!?…])\s+(?=[A-ZÁÉÍÓÚÑa-z«"]) matches at i; if so
   * the match is the whole whitespace run that starts at i (a shorter run
   * would be followed by whitespace, which the look-ahead refuses).
   */
  predicate BreakAt(s: string, i: nat)
  {
    0 < i < |s| && IsSentenceEnd(s[i - 1]) && IsSpace(s[i])
    && i + SpaceLen(s[i..]) < |s| && IsSentenceStart(s[i + SpaceLen(s[i..])])
  }

  /** Length of the match of the sentence-end pattern at i, or 0 when it does not match there. */
  function BreakLen(s: string, i: nat): (n: nat)
    ensures 0 < n <= |s| - i ==> AllSpace(s[i..i + n])
  {
    if i < |s| && BreakAt(s, i) then
      var n := SpaceLen(s[i..]);
      assert s[i..][..n] == s[i..i + n];
      n
    else 0
  }

  /** SENTENCE_END.split(paragraph): the pieces between the matches, leftmost first. */
  function SentencePieces(paragraph: string): (ps: seq<string>)
    ensures |ps| >= 1
  {
    Pieces(paragraph, 0, 0, BreakLen)
  }

  /** split_sentences: the stripped, non-blank pieces. */
  function SplitSentences(paragraph: string): (ss: seq<string>)
    ensures forall k :: 0 <= k < |ss| ==> IsStrippedNonEmpty(ss[k])
  {
    StrippedNonEmpty(SentencePieces(paragraph))
  }

  /** The sentences hold exactly the words of the paragraph, in order. */
  lemma SplitSentencesWords(paragraph: string)
    ensures AllWords(SplitSentences(paragraph)) == Words(paragraph)
  {
    PiecesWords(paragraph, 0, 0, BreakLen);
    assert paragraph[0..] == paragraph;
    StrippedNonEmptyWords(SentencePieces(paragraph));
  }

  /** estimate_tokens: int(words * 1.3), the floor of 13/10 of the word count. */
  function EstimateTokens(text: string): nat
  {
    (13 * |Words(text)|) / 10
  }

  /** The estimate is 13/10 of the word count, rounded down. */
  lemma EstimateTokensBounds(text: string)
    ensures 10 * EstimateTokens(text) <= 13 * |Words(text)| < 10 * EstimateTokens(text) + 10
  {
  }

  /** The class [—\-«"'] of DIALOGUE_START: an em dash, a hyphen, a guillemet or a quote. */
  predicate IsDialogueMark(c: char)
  {
    c == '\U{2014}' || c == '-' || c == '«' || c == '"' || c == '\''
  }

  /** is_dialogue: DIALOGUE_START matches at the start of the sentence. */
  predicate IsDialogue(sentence: string)
  {
    sentence != [] && IsDialogueMark(sentence[0])
  }

  /** Only the opening character decides: what follows it never matters. */
  lemma DialogueByFirstCharacter(s: string, t: string)
    requires s != []
    ensures IsDialogue(s + t) <==> IsDialogue(s)
  {
    assert (s + t)[0] == s[0];
  }

  /** A sentence that opens with a letter, a digit or whitespace is never dialogue. */
  lemma WordOpeningNotDialogue(s: string)
    requires s != [] && (IsCased(s[0]) || IsDigit(s[0]) || IsSpace(s[0]))
    ensures !IsDialogue(s)
  {
  }

  /** group_sentences: the greedy grouping of sentences by estimated tokens. */
  method GroupSentences(sentences: seq<string>, maxTokens: int) returns (groups: seq<seq<string>>)
    ensures groups == Grouping.Greedy(sentences, EstimateTokens, maxTokens)
  {
    groups := [];
    var current: seq<string> := [];
    var currentTokens := 0;
    for i := 0 to |sentences|
      invariant groups + Grouping.GreedyFrom(sentences[i..], EstimateTokens, maxTokens, current, currentTokens)
        == Grouping.Greedy(sentences, EstimateTokens, maxTokens)
    {
      var tokens := EstimateTokens(sentences[i]);
      ghost var before := groups;
      ghost var cur := current;
      assert sentences[i..][1..] == sentences[i + 1..];
      Grouping.GreedyStep(groups, sentences[i..], EstimateTokens, maxTokens, current, currentTokens);
      if currentTokens + tokens > maxTokens {
        if current != [] {
          groups := groups + [current];
        }
        current := [sentences[i]];
        currentTokens := tokens;
        assert groups == before + (if cur == [] then [] else [cur]);
      } else {
        current := current + [sentences[i]];
        currentTokens := currentTokens + tokens;
      }
    }
    if current != [] {
      groups := groups + [current];
    }
  }
}
