/**
 * The semantic chunker: paragraphs, then sentences, then token-budgeted
 * groups of sentences, each located in the original text by its character
 * offsets and given the surrounding paragraphs as context.
 */
module Chunker {
  import opened TextUtil
  import SeqUtil
  import Grouping
  import Splitter
  import Context

  // ---------------------------------------------------------------------------
  // Paragraphs: re.split(r'\n\s*\n', text), stripped, blanks dropped

  /** Index of the last '\n' of t, or -1. */
  function LastNewline(t: string): (k: int)
    ensures -1 <= k < |t|
    ensures k >= 0 ==> t[k] == '\n'
    ensures k == -1 ==> '\n' !in t
  {
    if t == [] then -1
    else if t[|t| - 1] == '\n' then |t| - 1
    else
      var k := LastNewline(t[..|t| - 1]);
      assert k == -1 ==> forall j :: 0 <= j < |t| ==> t[j] != '\n' by {
        if k == -1 {
          forall j | 0 <= j < |t| ensures t[j] != '\n' {
            if j < |t| - 1 { assert t[..|t| - 1][j] == t[j]; }
          }
        }
      }
      k
  }

  /**
   * Length of the match of \n\s*\n at i, or 0 when there is none: the greedy
   * \s* takes the whole whitespace run after the first '\n' and backs off to
   * its last '\n'.
   */
  function BlankLineMatch(s: string, i: nat): (m: nat)
    ensures m == 0 || (2 <= m && i + m <= |s| && AllSpace(s[i..i + m]))
  {
    if i >= |s| || s[i] != '\n' then 0
    else
      var run := s[i + 1..][..SpaceLen(s[i + 1..])];
      var k := LastNewline(run);
      if k < 0 then 0
      else
        assert s[i..i + k + 2] == [s[i]] + run[..k + 1];
        k + 2
  }

  /** _split_paragraphs: the stripped, non-blank pieces of re.split(r'\n\s*\n', text). */
  function SplitParagraphs(text: string): (ps: seq<string>)
    ensures forall k :: 0 <= k < |ps| ==> IsStrippedNonEmpty(ps[k])
  {
    StrippedNonEmpty(Pieces(text, 0, 0, BlankLineMatch))
  }

  /** The paragraphs hold exactly the words of the text, in order. */
  lemma SplitParagraphsWords(text: string)
    ensures AllWords(SplitParagraphs(text)) == Words(text)
  {
    PiecesWords(text, 0, 0, BlankLineMatch);
    assert text[0..] == text;
    StrippedNonEmptyWords(Pieces(text, 0, 0, BlankLineMatch));
  }

  // ---------------------------------------------------------------------------
  // Chunks

  /** One yielded chunk dictionary. */
  datatype ChunkRecord = ChunkRecord(text: string, start: nat, end: nat, contextBefore: string, contextAfter: string)

  /**
   * The offsets of a group of sentences searched from pos: the first
   * occurrence of its first sentence at or after pos (pos when absent), and
   * the end of the first occurrence of its last sentence at or after that
   * start (the start itself when absent).
   */
  function LocateGroup(text: string, group: seq<string>, pos: nat): (r: (nat, nat))
    requires group != [] && pos <= |text|
    ensures pos <= r.0 <= r.1 <= |text|
    ensures Find(text, group[0], pos) == -1 ==> r.0 == pos
    ensures Find(text, group[0], pos) != -1 ==> r.0 == Find(text, group[0], pos)
    ensures Find(text, group[|group| - 1], r.0) == -1 ==> r.1 == r.0
    ensures Find(text, group[|group| - 1], r.0) != -1 ==>
      r.1 - |group[|group| - 1]| == Find(text, group[|group| - 1], r.0)
  {
    var f := Find(text, group[0], pos);
    var start: nat := if f == -1 then pos else f;
    var last := group[|group| - 1];
    var g := Find(text, last, start);
    var end: nat := if g == -1 then start else g + |last|;
    (start, end)
  }

  /** The chunk dictionary yielded for one sentence group of paragraph p, searched from pos. */
  function MakeChunk(text: string, paragraphs: seq<string>, p: nat, n: int, group: seq<string>, pos: nat): (c: ChunkRecord)
    requires p < |paragraphs| && group != [] && pos <= |text|
    ensures pos <= c.start <= c.end <= |text| && c.text == text[c.start..c.end]
    ensures (c.start, c.end) == LocateGroup(text, group, pos)
    ensures c.contextBefore == Context.ContextBefore(paragraphs, p, n)
    ensures c.contextAfter == Context.ContextAfter(paragraphs, p, n)
  {
    var (start, end) := LocateGroup(text, group, pos);
    ChunkRecord(text[start..end], start, end,
      Context.ContextBefore(paragraphs, p, n), Context.ContextAfter(paragraphs, p, n))
  }

  /** Where the search for the next chunk starts: the end of the last chunk, or pos. */
  function NextPos(cs: seq<ChunkRecord>, pos: nat): nat
  {
    if cs == [] then pos else cs[|cs| - 1].end
  }

  /** No sentence group is empty. */
  predicate NonEmptyGroups(gs: seq<seq<string>>)
  {
    forall k :: 0 <= k < |gs| ==> gs[k] != []
  }

  /** The chunks of paragraph p, one per sentence group, each searched from the previous end. */
  function GroupChunks(text: string, paragraphs: seq<string>, p: nat, n: int, gs: seq<seq<string>>, pos: nat): (cs: seq<ChunkRecord>)
    requires p < |paragraphs| && pos <= |text| && NonEmptyGroups(gs)
    ensures |cs| == |gs|
    ensures NextPos(cs, pos) <= |text|
    decreases |gs|
  {
    if gs == [] then []
    else
      var c := MakeChunk(text, paragraphs, p, n, gs[0], pos);
      [c] + GroupChunks(text, paragraphs, p, n, gs[1..], c.end)
  }

  /** The sentence groups of one paragraph. */
  function ParagraphGroups(paragraph: string, maxTokens: int): (gs: seq<seq<string>>)
    ensures NonEmptyGroups(gs)
  {
    var sentences := Splitter.SplitSentences(paragraph);
    Grouping.GreedyGroups(sentences, Splitter.EstimateTokens, maxTokens);
    Grouping.Greedy(sentences, Splitter.EstimateTokens, maxTokens)
  }

  /** Every paragraph's groups are non-empty. */
  predicate Grouped(pgs: seq<seq<seq<string>>>)
  {
    forall p :: 0 <= p < |pgs| ==> NonEmptyGroups(pgs[p])
  }

  /** The sentence groups of every paragraph, in order. */
  function AllGroups(paragraphs: seq<string>, maxTokens: int): (pgs: seq<seq<seq<string>>>)
    ensures |pgs| == |paragraphs| && Grouped(pgs)
  {
    seq(|paragraphs|, p requires 0 <= p < |paragraphs| => ParagraphGroups(paragraphs[p], maxTokens))
  }

  /** The chunks of paragraphs p, p + 1, ..., whose sentence groups are pgs, searched from pos. */
  function ChunksFrom(text: string, paragraphs: seq<string>, pgs: seq<seq<seq<string>>>, n: int, p: nat, pos: nat): seq<ChunkRecord>
    requires |pgs| == |paragraphs| && Grouped(pgs)
    requires p <= |paragraphs| && pos <= |text|
    decreases |paragraphs| - p
  {
    if p == |paragraphs| then []
    else
      var cs := GroupChunks(text, paragraphs, p, n, pgs[p], pos);
      cs + ChunksFrom(text, paragraphs, pgs, n, p + 1, NextPos(cs, pos))
  }

  /** Everything chunk_text yields for a text. */
  function Chunks(text: string, maxTokens: int, n: int): seq<ChunkRecord>
  {
    var paragraphs := SplitParagraphs(text);
    ChunksFrom(text, paragraphs, AllGroups(paragraphs, maxTokens), n, 0, 0)
  }

  // ---------------------------------------------------------------------------
  // Properties of the chunks

  /** Every chunk's text is the slice of the input between its offsets. */
  predicate Spans(text: string, chunks: seq<ChunkRecord>)
  {
    forall k :: 0 <= k < |chunks| ==>
      chunks[k].start <= chunks[k].end <= |text| && chunks[k].text == text[chunks[k].start..chunks[k].end]
  }

  /** Each chunk starts at or after the end of the one before, and the first at or after pos. */
  predicate OrderedFrom(chunks: seq<ChunkRecord>, pos: nat)
  {
    (chunks != [] ==> pos <= chunks[0].start)
    && forall k :: 1 <= k < |chunks| ==> chunks[k - 1].end <= chunks[k].start
  }

  lemma OrderedAppend(a: seq<ChunkRecord>, b: seq<ChunkRecord>, pos: nat)
    requires OrderedFrom(a, pos) && OrderedFrom(b, NextPos(a, pos))
    requires forall k :: 0 <= k < |a| ==> a[k].start <= a[k].end
    ensures OrderedFrom(a + b, pos)
  {
    var s := a + b;
    forall k | 1 <= k < |s| ensures s[k - 1].end <= s[k].start {
      if k < |a| {
        assert s[k - 1] == a[k - 1] && s[k] == a[k];
      } else if k == |a| {
        assert s[k - 1] == a[|a| - 1] && s[k] == b[0];
      } else {
        assert s[k - 1] == b[k - 1 - |a|] && s[k] == b[k - |a|];
      }
    }
    if a == [] {
      assert s == b;
    } else {
      assert s[0] == a[0];
    }
  }

  lemma SpansAppend(text: string, a: seq<ChunkRecord>, b: seq<ChunkRecord>)
    requires Spans(text, a) && Spans(text, b)
    ensures Spans(text, a + b)
  {
    forall k | 0 <= k < |a + b|
      ensures (a + b)[k].start <= (a + b)[k].end <= |text| && (a + b)[k].text == text[(a + b)[k].start..(a + b)[k].end]
    {
      if k < |a| { assert (a + b)[k] == a[k]; } else { assert (a + b)[k] == b[k - |a|]; }
    }
  }

  lemma {:induction false} GroupChunksSpans(text: string, paragraphs: seq<string>, p: nat, n: int, gs: seq<seq<string>>, pos: nat)
    requires p < |paragraphs| && pos <= |text| && NonEmptyGroups(gs)
    ensures Spans(text, GroupChunks(text, paragraphs, p, n, gs, pos))
    ensures OrderedFrom(GroupChunks(text, paragraphs, p, n, gs, pos), pos)
    decreases |gs|
  {
    if gs != [] {
      var c := MakeChunk(text, paragraphs, p, n, gs[0], pos);
      GroupChunksSpans(text, paragraphs, p, n, gs[1..], c.end);
      var rest := GroupChunks(text, paragraphs, p, n, gs[1..], c.end);
      assert NextPos([c], pos) == c.end;
      OrderedAppend([c], rest, pos);
      SpansAppend(text, [c], rest);
    }
  }

  lemma {:induction false} ChunksFromSpans(text: string, paragraphs: seq<string>, pgs: seq<seq<seq<string>>>, n: int, p: nat, pos: nat)
    requires |pgs| == |paragraphs| && Grouped(pgs)
    requires p <= |paragraphs| && pos <= |text|
    ensures Spans(text, ChunksFrom(text, paragraphs, pgs, n, p, pos))
    ensures OrderedFrom(ChunksFrom(text, paragraphs, pgs, n, p, pos), pos)
    decreases |paragraphs| - p
  {
    if p < |paragraphs| {
      var cs := GroupChunks(text, paragraphs, p, n, pgs[p], pos);
      GroupChunksSpans(text, paragraphs, p, n, pgs[p], pos);
      ChunksFromSpans(text, paragraphs, pgs, n, p + 1, NextPos(cs, pos));
      var rest := ChunksFrom(text, paragraphs, pgs, n, p + 1, NextPos(cs, pos));
      OrderedAppend(cs, rest, pos);
      SpansAppend(text, cs, rest);
    }
  }

  /**
   * Every chunk's text is text[start:end] with start <= end, and each chunk
   * starts at or after the end of the one before.
   */
  lemma ChunksSpans(text: string, maxTokens: int, n: int)
    ensures Spans(text, Chunks(text, maxTokens, n))
    ensures OrderedFrom(Chunks(text, maxTokens, n), 0)
  {
    var paragraphs := SplitParagraphs(text);
    ChunksFromSpans(text, paragraphs, AllGroups(paragraphs, maxTokens), n, 0, 0);
  }

  /** A chunk carries the contexts of its paragraph. */
  predicate HasContextOf(paragraphs: seq<string>, n: int, c: ChunkRecord, q: nat)
  {
    q < |paragraphs|
    && c.contextBefore == Context.ContextBefore(paragraphs, q, n)
    && c.contextAfter == Context.ContextAfter(paragraphs, q, n)
  }

  lemma {:induction false} GroupChunksContexts(text: string, paragraphs: seq<string>, p: nat, n: int, gs: seq<seq<string>>, pos: nat)
    requires p < |paragraphs| && pos <= |text| && NonEmptyGroups(gs)
    ensures forall c :: c in GroupChunks(text, paragraphs, p, n, gs, pos) ==> HasContextOf(paragraphs, n, c, p)
    decreases |gs|
  {
    if gs != [] {
      var c := MakeChunk(text, paragraphs, p, n, gs[0], pos);
      GroupChunksContexts(text, paragraphs, p, n, gs[1..], c.end);
    }
  }

  lemma {:induction false} ChunksFromContexts(text: string, paragraphs: seq<string>, pgs: seq<seq<seq<string>>>, n: int, p: nat, pos: nat)
    requires |pgs| == |paragraphs| && Grouped(pgs)
    requires p <= |paragraphs| && pos <= |text|
    ensures forall c :: c in ChunksFrom(text, paragraphs, pgs, n, p, pos) ==>
      exists q :: p <= q && HasContextOf(paragraphs, n, c, q)
    decreases |paragraphs| - p
  {
    if p < |paragraphs| {
      var cs := GroupChunks(text, paragraphs, p, n, pgs[p], pos);
      GroupChunksContexts(text, paragraphs, p, n, pgs[p], pos);
      ChunksFromContexts(text, paragraphs, pgs, n, p + 1, NextPos(cs, pos));
      var rest := ChunksFrom(text, paragraphs, pgs, n, p + 1, NextPos(cs, pos));
      forall c | c in cs + rest ensures exists q :: p <= q && HasContextOf(paragraphs, n, c, q) {
        if c in cs {
          assert HasContextOf(paragraphs, n, c, p);
        } else {
          assert c in rest;
        }
      }
    }
  }

  /**
   * The contexts of a chunk depend only on the index of its paragraph: they
   * are the before- and after-contexts of some paragraph of the text.
   */
  lemma ChunksContexts(text: string, maxTokens: int, n: int)
    ensures forall c :: c in Chunks(text, maxTokens, n) ==>
      exists q :: HasContextOf(SplitParagraphs(text), n, c, q)
  {
    var paragraphs := SplitParagraphs(text);
    ChunksFromContexts(text, paragraphs, AllGroups(paragraphs, maxTokens), n, 0, 0);
  }

  /** The inner loop of chunk_text: the chunks of the sentence groups gs of paragraph p. */
  method ChunkGroups(text: string, paragraphs: seq<string>, p: nat, n: int, gs: seq<seq<string>>, pos0: nat)
    returns (cs: seq<ChunkRecord>)
    requires p < |paragraphs| && pos0 <= |text|
    requires forall k :: 0 <= k < |gs| ==> gs[k] != []
    ensures cs == GroupChunks(text, paragraphs, p, n, gs, pos0)
  {
    cs := [];
    var pos: nat := pos0;
    for g := 0 to |gs|
      invariant pos <= |text|
      invariant cs + GroupChunks(text, paragraphs, p, n, gs[g..], pos) == GroupChunks(text, paragraphs, p, n, gs, pos0)
    {
      var chunk := MakeChunk(text, paragraphs, p, n, gs[g], pos);
      assert gs[g..][1..] == gs[g + 1..];
      cs := cs + [chunk];
      pos := chunk.end;
    }
  }

  /** One pass of chunk_text's outer loop: split paragraph p, group its sentences, chunk the groups. */
  method ChunkParagraph(text: string, paragraphs: seq<string>, p: nat, maxTokens: int, n: int, pos: nat)
    returns (cs: seq<ChunkRecord>)
    requires p < |paragraphs| && pos <= |text|
    ensures cs == GroupChunks(text, paragraphs, p, n, ParagraphGroups(paragraphs[p], maxTokens), pos)
  {
    var sentences := Splitter.SplitSentences(paragraphs[p]);
    var gs := Splitter.GroupSentences(sentences, maxTokens);
    assert gs == ParagraphGroups(paragraphs[p], maxTokens);
    cs := ChunkGroups(text, paragraphs, p, n, gs, pos);
  }

  lemma ChunksFromStep(text: string, paragraphs: seq<string>, pgs: seq<seq<seq<string>>>, n: int, p: nat, pos: nat,
                       done: seq<ChunkRecord>, cs: seq<ChunkRecord>)
    requires |pgs| == |paragraphs| && Grouped(pgs)
    requires p < |paragraphs| && pos <= |text|
    requires cs == GroupChunks(text, paragraphs, p, n, pgs[p], pos)
    ensures NextPos(cs, pos) <= |text|
    ensures done + ChunksFrom(text, paragraphs, pgs, n, p, pos)
      == (done + cs) + ChunksFrom(text, paragraphs, pgs, n, p + 1, NextPos(cs, pos))
  {
    SeqUtil.ConcatAssoc(done, cs, ChunksFrom(text, paragraphs, pgs, n, p + 1, NextPos(cs, pos)));
  }

  /** chunk_text's loop over the paragraphs, collecting the yielded chunks. */
  method ChunkParagraphs(text: string, paragraphs: seq<string>, maxTokens: int, n: int) returns (chunks: seq<ChunkRecord>)
    ensures chunks == ChunksFrom(text, paragraphs, AllGroups(paragraphs, maxTokens), n, 0, 0)
  {
    ghost var pgs := AllGroups(paragraphs, maxTokens);
    var pos: nat := 0;
    chunks := [];
    for p := 0 to |paragraphs|
      invariant pos <= |text|
      invariant chunks + ChunksFrom(text, paragraphs, pgs, n, p, pos) == ChunksFrom(text, paragraphs, pgs, n, 0, 0)
    {
      var cs := ChunkParagraph(text, paragraphs, p, maxTokens, n, pos);
      assert pgs[p] == ParagraphGroups(paragraphs[p], maxTokens);
      ChunksFromStep(text, paragraphs, pgs, n, p, pos, chunks, cs);
      chunks := chunks + cs;
      pos := NextPos(cs, pos);
    }
  }

  /** chunk_text, collecting the yielded chunks. */
  method ChunkText(text: string, maxTokens: int, contextSentences: int) returns (chunks: seq<ChunkRecord>)
    ensures chunks == Chunks(text, maxTokens, contextSentences)
  {
    var paragraphs := SplitParagraphs(text);
    chunks := ChunkParagraphs(text, paragraphs, maxTokens, contextSentences);
  }
}
