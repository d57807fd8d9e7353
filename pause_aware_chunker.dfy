/**
 * The pause-aware chunker of the speech synthesiser: the text is split after
 * every sentence end (., ! or ?) followed by whitespace, blank pieces are
 * dropped, and the sentences are grouped greedily by their character count
 * and joined with single spaces. Unlike the translator's splitter the
 * sentences are not stripped, so the spacing inside them, and the pause
 * markers written in it, reach the synthesiser unchanged.
 *
 * The chunker's only state is the budget it is constructed with, which no
 * method changes; it is a parameter here.
 */
module PauseAwareChunker {
  import opened TextUtil
  import opened SeqUtil
  import Grouping

  /** The budget of a chunker constructed without one. */
  const DefaultMaxChars := 500

  /** The look-behind class [.!?] of the split pattern. */
  predicate IsSentenceEnd(c: char)
  {
    c == '.' || c == '!' || c == '?'
  }

  /**
   * Whether the pattern (?<=[.!?])\s+ matches at i; if so the match is the
   * whole whitespace run that starts at i.
   */
  predicate BreakAt(s: string, i: nat)
  {
    0 < i < |s| && IsSentenceEnd(s[i - 1]) && IsSpace(s[i])
  }

  /** Length of the match of the split pattern at i, or 0 when it does not match there. */
  function BreakLen(s: string, i: nat): (n: nat)
    ensures n > 0 <==> BreakAt(s, i)
    ensures n > 0 ==> n == SpaceLen(s[i..]) && i + n <= |s| && AllSpace(s[i..i + n])
  {
    if BreakAt(s, i) then
      var n := SpaceLen(s[i..]);
      assert s[i..][..n] == s[i..i + n];
      n
    else 0
  }

  /** `re.split(r'(?<=[.!?])\s+', text)` */
  function SentencePieces(text: string): (ps: seq<string>)
    ensures |ps| >= 1
  {
    Pieces(text, 0, 0, BreakLen)
  }

  /** _split_sentences: the pieces that are not blank, unstripped. */
  function SplitSentences(text: string): (ss: seq<string>)
    ensures forall k :: 0 <= k < |ss| ==> HasText(ss[k]) && ss[k] in SentencePieces(text)
  {
    var ss := Filter(SentencePieces(text), HasText);
    assert forall k :: 0 <= k < |ss| ==> ss[k] in ss;
    ss
  }

  /** The length a sentence adds to the running length of a chunk. */
  function Len(sentence: string): nat
  {
    |sentence|
  }

  /** The chunks of a list of groups: each group joined with single spaces. */
  function Joined(groups: seq<seq<string>>): (chunks: seq<string>)
    ensures |chunks| == |groups|
    ensures forall k :: 0 <= k < |groups| ==> chunks[k] == Join(" ", groups[k])
  {
    seq(|groups|, k requires 0 <= k < |groups| => Join(" ", groups[k]))
  }

  /** _group_sentences: the greedy grouping by length, each group joined with spaces. */
  method GroupSentences(sentences: seq<string>, maxChars: int) returns (chunks: seq<string>)
    ensures chunks == Joined(Grouping.Greedy(sentences, Len, maxChars))
  {
    chunks := [];
    ghost var groups: seq<seq<string>> := [];
    var current: seq<string> := [];
    var currentLen := 0;
    for i := 0 to |sentences|
      invariant chunks == Joined(groups)
      invariant groups + Grouping.GreedyFrom(sentences[i..], Len, maxChars, current, currentLen)
        == Grouping.Greedy(sentences, Len, maxChars)
    {
      assert sentences[i..][1..] == sentences[i + 1..];
      Grouping.GreedyStep(groups, sentences[i..], Len, maxChars, current, currentLen);
      var sentenceLen := |sentences[i]|;
      if currentLen + sentenceLen > maxChars {
        if current != [] {
          chunks := chunks + [Join(" ", current)];
          groups := groups + [current];
        }
        current := [sentences[i]];
        currentLen := sentenceLen;
      } else {
        current := current + [sentences[i]];
        currentLen := currentLen + sentenceLen;
      }
    }
    if current != [] {
      chunks := chunks + [Join(" ", current)];
      groups := groups + [current];
    }
  }

  /** chunk_text: split into sentences, then group them. */
  method ChunkText(text: string, maxChars: int) returns (chunks: seq<string>)
    ensures chunks == Joined(Grouping.Greedy(SplitSentences(text), Len, maxChars))
  {
    var sentences := SplitSentences(text);
    chunks := GroupSentences(sentences, maxChars);
  }

  // ---------------------------------------------------------------------------
  // Splitting

  /** No sentence end followed by whitespace inside p: the split pattern does not match within it. */
  predicate NoBreakInside(p: string)
  {
    forall j :: 0 < j < |p| ==> !(IsSentenceEnd(p[j - 1]) && IsSpace(p[j]))
  }

  /**
   * Pieces as re.split leaves them: none has a match of the pattern inside
   * it, and every piece but the last is non-empty and ends with a sentence
   * end.
   */
  predicate Shaped(ps: seq<string>)
  {
    (forall k :: 0 <= k < |ps| ==> NoBreakInside(ps[k]))
    && (forall k :: 0 <= k < |ps| - 1 ==> ps[k] != [] && IsSentenceEnd(ps[k][|ps[k]| - 1]))
  }

  lemma ShapedCons(p: string, rest: seq<string>)
    requires Shaped(rest) && NoBreakInside(p) && p != [] && IsSentenceEnd(p[|p| - 1])
    ensures Shaped([p] + rest)
  {
    var ps := [p] + rest;
    forall k | 0 < k < |ps| ensures ps[k] == rest[k - 1] { }
  }

  lemma {:induction false} PiecesShape(s: string, start: nat, i: nat)
    requires start <= i <= |s|
    requires start == 0 || IsSpace(s[start - 1])
    requires forall j :: start < j < i ==> !BreakAt(s, j)
    ensures Shaped(Pieces(s, start, i, BreakLen))
    decreases |s| - i
  {
    if i == |s| {
      ShapedAtEnd(s, start);
    } else if BreakAt(s, i) {
      var q := i + BreakLen(s, i);
      SpaceRunEnds(s, i);
      PiecesShape(s, q, q);
      ShapedAtBreak(s, start, i);
    } else {
      PiecesShape(s, start, i + 1);
      ShapedSkip(s, start, i);
    }
  }

  /** The last piece runs to the end of the text and has no match inside. */
  lemma ShapedAtEnd(s: string, start: nat)
    requires start <= |s|
    requires forall j :: start < j < |s| ==> !BreakAt(s, j)
    ensures Shaped(Pieces(s, start, |s|, BreakLen))
  {
    NoBreakInPiece(s, start, |s|);
    assert s[start..|s|] == s[start..];
  }

  /** Where the pattern does not match, the scan moves on. */
  lemma ShapedSkip(s: string, start: nat, i: nat)
    requires start <= i < |s| && !BreakAt(s, i)
    requires Shaped(Pieces(s, start, i + 1, BreakLen))
    ensures Shaped(Pieces(s, start, i, BreakLen))
  {
    assert Pieces(s, start, i, BreakLen) == Pieces(s, start, i + 1, BreakLen);
  }

  /** A match runs over at least one whitespace character and ends after one. */
  lemma SpaceRunEnds(s: string, i: nat)
    requires BreakAt(s, i)
    ensures var q := i + BreakLen(s, i); i < q <= |s| && IsSpace(s[q - 1])
  {
    var q := i + BreakLen(s, i);
    assert s[i..q][q - 1 - i] == s[q - 1];
  }

  /** The piece before a match is non-empty, ends with the sentence end and has no match inside. */
  lemma ShapedAtBreak(s: string, start: nat, i: nat)
    requires start <= i < |s| && BreakAt(s, i)
    requires start == 0 || IsSpace(s[start - 1])
    requires forall j :: start < j < i ==> !BreakAt(s, j)
    requires var q := i + BreakLen(s, i); q <= |s| && Shaped(Pieces(s, q, q, BreakLen))
    ensures Shaped(Pieces(s, start, i, BreakLen))
  {
    var q := i + BreakLen(s, i);
    NoBreakInPiece(s, start, i);
    var p := s[start..i];
    assert start < i;
    assert p[|p| - 1] == s[i - 1];
    ShapedCons(p, Pieces(s, q, q, BreakLen));
  }

  /** A piece between two matches has no match inside it. */
  lemma NoBreakInPiece(s: string, start: nat, i: nat)
    requires start <= i <= |s|
    requires forall j :: start < j < i ==> !BreakAt(s, j)
    ensures NoBreakInside(s[start..i])
  {
    var p := s[start..i];
    forall j | 0 < j < |p| ensures !(IsSentenceEnd(p[j - 1]) && IsSpace(p[j])) {
      assert p[j - 1] == s[start + j - 1] && p[j] == s[start + j];
      assert !BreakAt(s, start + j);
    }
  }

  /**
   * re.split cuts the text exactly at the matches: no piece holds a sentence
   * end followed by whitespace, and every piece but the last ends with its
   * sentence end, which the look-behind leaves in the piece.
   */
  lemma SentencePiecesShape(text: string)
    ensures Shaped(SentencePieces(text))
  {
    PiecesShape(text, 0, 0);
  }

  /** Dropping blank strings drops no word. */
  lemma {:induction false} FilterHasTextWords(ss: seq<string>)
    ensures AllWords(Filter(ss, HasText)) == AllWords(ss)
  {
    if ss != [] {
      var head := if HasText(ss[0]) then [ss[0]] else [];
      var rest := Filter(ss[1..], HasText);
      FilterHasTextWords(ss[1..]);
      assert Filter(ss, HasText) == head + rest;
      AllWordsAppend(head, rest);
      assert ss == [ss[0]] + ss[1..];
      AllWordsAppend([ss[0]], ss[1..]);
      SingleWords(ss[0]);
      if !HasText(ss[0]) {
        WordsOfBlank(ss[0]);
      }
    }
  }

  /** The sentences hold exactly the words of the text, in order. */
  lemma SplitSentencesWords(text: string)
    ensures AllWords(SplitSentences(text)) == Words(text)
  {
    PiecesWords(text, 0, 0, BreakLen);
    assert text[0..] == text;
    FilterHasTextWords(SentencePieces(text));
  }

  /** A sentence with text is kept as it is: splitting text without any match gives it back. */
  lemma SplitSentencesOfOne(text: string)
    requires HasText(text) && forall j :: 0 < j < |text| ==> !BreakAt(text, j)
    ensures SplitSentences(text) == [text]
  {
    PiecesSkip(text, 0, 0, |text|);
    assert text[0..] == text;
    assert [text][1..] == [];
  }

  /** Scanning over positions where the pattern does not match changes nothing. */
  lemma {:induction false} PiecesSkip(s: string, start: nat, i: nat, k: nat)
    requires start <= i <= k <= |s| && forall j :: i <= j < k ==> !BreakAt(s, j)
    ensures Pieces(s, start, i, BreakLen) == Pieces(s, start, k, BreakLen)
    decreases k - i
  {
    if i < k {
      PiecesSkip(s, start, i + 1, k);
    }
  }

  // ---------------------------------------------------------------------------
  // Grouping

  /** A group joined with single spaces is as long as its sentences plus one space between each two. */
  lemma {:induction false} JoinedLength(g: seq<string>)
    requires g != []
    ensures |Join(" ", g)| == Grouping.Weight(g, Len) + |g| - 1
  {
    if |g| > 1 {
      JoinedLength(g[1..]);
    }
  }

  /** The words of the chunks are the words of the groups' sentences, in order. */
  lemma {:induction false} JoinedWords(groups: seq<seq<string>>)
    ensures AllWords(Joined(groups)) == AllWords(Flatten(groups))
  {
    if groups != [] {
      JoinedWords(groups[1..]);
      var chunks := Joined(groups);
      assert chunks[1..] == Joined(groups[1..]);
      assert AllWords(chunks) == Words(chunks[0]) + AllWords(chunks[1..]);
      WordsOfJoinSep(" ", groups[0]);
      assert Flatten(groups) == groups[0] + Flatten(groups[1..]);
      AllWordsAppend(groups[0], Flatten(groups[1..]));
    }
  }

  /** A group of sentences with text joins into a chunk with text. */
  lemma {:induction false} JoinHasText(g: seq<string>)
    requires g != [] && forall k :: 0 <= k < |g| ==> HasText(g[k])
    ensures HasText(Join(" ", g))
  {
    WordsOfJoinSep(" ", g);
    AllWordsHasText(g);
    if !HasText(Join(" ", g)) {
      WordsOfBlank(Join(" ", g));
      assert false;
    }
  }

  /** A list whose first string has text has words. */
  lemma AllWordsHasText(g: seq<string>)
    requires g != [] && HasText(g[0])
    ensures AllWords(g) != []
  {
    assert AllWords(g) == Words(g[0]) + AllWords(g[1..]);
    WordsOfStrip(g[0]);
    StrippedHasWords(Strip(g[0]));
  }

  /** A non-empty string that starts with a non-space has a word. */
  lemma StrippedHasWords(t: string)
    requires t != [] && !IsSpace(t[0])
    ensures Words(t) != []
  {
  }

  /**
   * The chunks of a list of sentences with text: they hold the sentences'
   * words in order; each has text; each is its sentences joined with single
   * spaces, whose lengths stay within the budget unless the chunk is a
   * single sentence longer than the budget (the joining spaces are not
   * counted, so a chunk may be longer than the budget by them); and each
   * chunk but the first starts with a sentence that did not fit after the
   * previous chunk.
   */
  lemma GroupedChunks(sentences: seq<string>, maxChars: int)
    requires forall k :: 0 <= k < |sentences| ==> HasText(sentences[k])
    ensures var groups := Grouping.Greedy(sentences, Len, maxChars);
      var chunks := Joined(groups);
      AllWords(chunks) == AllWords(sentences)
      && (forall k :: 0 <= k < |chunks| ==>
            HasText(chunks[k])
            && |chunks[k]| == Grouping.Weight(groups[k], Len) + |groups[k]| - 1
            && (Grouping.Weight(groups[k], Len) <= maxChars || |groups[k]| == 1))
      && Grouping.Maximal(groups, Len, maxChars)
  {
    var groups := Grouping.Greedy(sentences, Len, maxChars);
    Grouping.GreedyFlatten(sentences, Len, maxChars);
    Grouping.GreedyGroups(sentences, Len, maxChars);
    Grouping.GreedyMaximal(sentences, Len, maxChars);
    JoinedWords(groups);
    forall k | 0 <= k < |groups|
      ensures HasText(Join(" ", groups[k]))
      && |Join(" ", groups[k])| == Grouping.Weight(groups[k], Len) + |groups[k]| - 1
    {
      JoinedLength(groups[k]);
      GroupsHaveText(sentences, groups, k);
      JoinHasText(groups[k]);
    }
  }

  /** Every sentence of a group is one of the sentences grouped. */
  lemma GroupsHaveText(sentences: seq<string>, groups: seq<seq<string>>, k: nat)
    requires forall i :: 0 <= i < |sentences| ==> HasText(sentences[i])
    requires Flatten(groups) == sentences && k < |groups|
    ensures forall i :: 0 <= i < |groups[k]| ==> HasText(groups[k][i])
  {
    forall i | 0 <= i < |groups[k]| ensures HasText(groups[k][i]) {
      FlattenHas(groups, k, i);
    }
  }

  lemma {:induction false} FlattenHas<T>(groups: seq<seq<T>>, k: nat, i: nat)
    requires k < |groups| && i < |groups[k]|
    ensures groups[k][i] in Flatten(groups)
  {
    assert Flatten(groups) == groups[0] + Flatten(groups[1..]);
    if k == 0 {
      assert Flatten(groups)[i] == groups[0][i];
    } else {
      FlattenHas(groups[1..], k - 1, i);
    }
  }

  /**
   * The chunks of a text hold its words in order, each chunk has text, and
   * each stays within the budget as above.
   */
  lemma ChunkTextWords(text: string, maxChars: int)
    ensures var groups := Grouping.Greedy(SplitSentences(text), Len, maxChars);
      var chunks := Joined(groups);
      AllWords(chunks) == Words(text)
      && (forall k :: 0 <= k < |chunks| ==>
            HasText(chunks[k]) && (Grouping.Weight(groups[k], Len) <= maxChars || |groups[k]| == 1))
  {
    SplitSentencesWords(text);
    GroupedChunks(SplitSentences(text), maxChars);
  }

  /** Two short sentences share a chunk; a third that does not fit starts the next one. */
  lemma GroupSentencesExample()
    ensures Joined(Grouping.Greedy(["Hola.", "Adiós.", "Sí."], Len, 11)) == ["Hola. Adiós.", "Sí."]
  {
    var a, b, c := "Hola.", "Adiós.", "Sí.";
    assert Len(a) == 5 && Len(b) == 6 && Len(c) == 3;
    assert [a, b, c][1..] == [b, c] && [b, c][1..] == [c] && [c][1..] == [];
    assert [a] + [b] == [a, b] && [] + [a] == [a];
    assert Grouping.GreedyFrom([c], Len, 11, [a, b], 11) == [[a, b], [c]];
    assert Grouping.GreedyFrom([b, c], Len, 11, [a], 5) == [[a, b], [c]];
    assert Grouping.Greedy([a, b, c], Len, 11) == [[a, b], [c]];
    assert [a, b][1..] == [b];
    assert Join(" ", [a, b]) == a + " " + b;
    assert a + " " + b == "Hola. Adiós.";
    var chunks := Joined([[a, b], [c]]);
    assert chunks[0] == "Hola. Adiós." && chunks[1] == c;
  }
}
