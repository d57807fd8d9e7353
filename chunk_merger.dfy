/**
 * The chunk merger: reassembles the translated chunks into one text. With
 * the original text at hand, the text between chunks (the gaps) is copied
 * from the original, so paragraph breaks and spacing survive translation.
 */
module ChunkMerger {
  import opened Wrappers
  import opened TextUtil
  import Sorting
  import SeqUtil
  import opened Models
  import Chunker

  function StartKey(c: ChunkData): int
  {
    c.startPosition
  }

  function Translations(cs: seq<ChunkData>): (ts: seq<string>)
    ensures |ts| == |cs| && forall k :: 0 <= k < |cs| ==> ts[k] == cs[k].translatedText
  {
    if cs == [] then [] else [cs[0].translatedText] + Translations(cs[1..])
  }

  /** gap + translation for each chunk from lastEnd on, then the final gap. */
  function MergeFrom(cs: seq<ChunkData>, original: string, lastEnd: int): string
  {
    if cs == [] then PySlice(original, lastEnd, |original|)
    else PySlice(original, lastEnd, cs[0].startPosition) + cs[0].translatedText
         + MergeFrom(cs[1..], original, cs[0].endPosition)
  }

  /** merge_chunks(chunks, original_text) */
  function Merge(chunks: seq<ChunkData>, original: string): (r: string)
    ensures chunks == [] ==> r == ""
    ensures chunks != [] && original == [] ==>
      r == Join("\n\n", Translations(Sorting.SortBy(chunks, StartKey)))
  {
    if chunks == [] then ""
    else
      var sorted := Sorting.SortBy(chunks, StartKey);
      if original == [] then Join("\n\n", Translations(sorted))
      else MergeFrom(sorted, original, 0)
  }

  /** The order in which merge_chunks visits the chunks: by start position, ties in input order. */
  lemma MergeOrder(chunks: seq<ChunkData>, k: int)
    ensures Sorting.SortedBy(Sorting.SortBy(chunks, StartKey), StartKey)
    ensures multiset(Sorting.SortBy(chunks, StartKey)) == multiset(chunks)
    ensures Sorting.WithKey(Sorting.SortBy(chunks, StartKey), StartKey, k) == Sorting.WithKey(chunks, StartKey, k)
  {
    Sorting.SortBySorted(chunks, StartKey);
    Sorting.SortByStable(chunks, StartKey, k);
  }

  /** merge_chunks as the program runs it. */
  method MergeChunks(chunks: seq<ChunkData>, original: string) returns (r: string)
    ensures r == Merge(chunks, original)
  {
    if chunks == [] {
      return "";
    }
    var sorted := Sorting.SortBy(chunks, StartKey);
    if original == [] {
      return Join("\n\n", Translations(sorted));
    }
    r := MergeSorted(sorted, original);
  }

  /** The loop of merge_chunks: the gap before each chunk and its translation, then the final gap. */
  method MergeSorted(sorted: seq<ChunkData>, original: string) returns (r: string)
    ensures r == MergeFrom(sorted, original, 0)
  {
    r := "";
    var lastEnd := 0;
    ghost var all := MergeFrom(sorted, original, 0);
    for i := 0 to |sorted|
      invariant r + MergeFrom(sorted[i..], original, lastEnd) == all
    {
      var c := sorted[i];
      var piece := PySlice(original, lastEnd, c.startPosition) + c.translatedText;
      MergeFromStep(sorted, original, i, lastEnd);
      SeqUtil.ConcatAssoc(r, piece, MergeFrom(sorted[i + 1..], original, c.endPosition));
      r := r + piece;
      lastEnd := c.endPosition;
    }
    var finalGap := PySlice(original, lastEnd, |original|);
    r := r + finalGap;
  }

  lemma MergeFromStep(cs: seq<ChunkData>, original: string, i: nat, lastEnd: int)
    requires i < |cs|
    ensures MergeFrom(cs[i..], original, lastEnd)
      == PySlice(original, lastEnd, cs[i].startPosition) + cs[i].translatedText
         + MergeFrom(cs[i + 1..], original, cs[i].endPosition)
  {
    assert cs[i..][1..] == cs[i + 1..];
  }

  /**
   * Chunks that translate each span to itself, in order and without
   * overlap, from position p on.
   */
  predicate IdentityFrom(cs: seq<ChunkData>, original: string, p: int)
  {
    cs == [] ||
    (0 <= p <= cs[0].startPosition <= cs[0].endPosition <= |original|
     && cs[0].translatedText == original[cs[0].startPosition..cs[0].endPosition]
     && IdentityFrom(cs[1..], original, cs[0].endPosition))
  }

  /** Untranslated, ordered, non-overlapping chunks merge back to the original from p on. */
  lemma {:induction false} MergeFromIdentity(cs: seq<ChunkData>, original: string, p: int)
    requires 0 <= p <= |original| && IdentityFrom(cs, original, p)
    ensures MergeFrom(cs, original, p) == original[p..]
  {
    if cs != [] {
      var s, e := cs[0].startPosition, cs[0].endPosition;
      MergeFromIdentity(cs[1..], original, e);
      IdentityPiece(original, p, s, e, cs[0].translatedText, MergeFrom(cs[1..], original, e));
    }
  }

  lemma IdentityPiece(original: string, p: int, s: int, e: int, t: string, rest: string)
    requires 0 <= p <= s <= e <= |original| && t == original[s..e] && rest == original[e..]
    ensures PySlice(original, p, s) + t + rest == original[p..]
  {
    assert original[p..] == original[p..s] + original[s..e] + original[e..];
  }

  /** Chunks that tile the original in order are already sorted by start. */
  lemma {:induction false} IdentitySorted(cs: seq<ChunkData>, original: string, p: int)
    requires IdentityFrom(cs, original, p)
    ensures Sorting.SortedBy(cs, StartKey)
    ensures forall k :: 0 <= k < |cs| ==> p <= cs[k].startPosition
  {
    if cs != [] {
      IdentitySorted(cs[1..], original, cs[0].endPosition);
      forall k | 1 <= k < |cs| ensures cs[0].endPosition <= cs[k].startPosition {
        assert cs[k] == cs[1..][k - 1];
      }
      forall i, j | 0 <= i < j < |cs| ensures StartKey(cs[i]) <= StartKey(cs[j]) {
        if i > 0 {
          assert cs[i] == cs[1..][i - 1] && cs[j] == cs[1..][j - 1];
        }
      }
    }
  }

  /**
   * Text outside the chunk spans is copied verbatim: when every chunk is
   * translated to its own span, the merge gives back the original.
   */
  lemma MergeIdentity(chunks: seq<ChunkData>, original: string)
    requires chunks != [] && original != []
    requires IdentityFrom(chunks, original, 0)
    ensures Merge(chunks, original) == original
  {
    IdentitySorted(chunks, original, 0);
    Sorting.SortBySortedIdentity(chunks, StartKey);
    MergeFromIdentity(chunks, original, 0);
  }

  /** The chunks of a text, each translated to itself. */
  predicate IdentityOf(ds: seq<ChunkData>, chunks: seq<Chunker.ChunkRecord>)
  {
    |ds| == |chunks|
    && forall k :: 0 <= k < |ds| ==>
         ds[k].translatedText == chunks[k].text
         && ds[k].startPosition == chunks[k].start && ds[k].endPosition == chunks[k].end
  }

  lemma {:induction false} IdentityFromRecords(ds: seq<ChunkData>, chunks: seq<Chunker.ChunkRecord>, text: string, p: nat)
    requires IdentityOf(ds, chunks) && p <= |text|
    requires Chunker.Spans(text, chunks) && Chunker.OrderedFrom(chunks, p)
    ensures IdentityFrom(ds, text, p)
  {
    if ds != [] {
      var c := chunks[0];
      assert IdentityOf(ds[1..], chunks[1..]) by {
        forall k | 0 <= k < |ds[1..]| ensures ds[1..][k].translatedText == chunks[1..][k].text {
          assert ds[1..][k] == ds[k + 1] && chunks[1..][k] == chunks[k + 1];
        }
        forall k | 0 <= k < |ds[1..]| ensures ds[1..][k].startPosition == chunks[1..][k].start {
          assert ds[1..][k] == ds[k + 1] && chunks[1..][k] == chunks[k + 1];
        }
        forall k | 0 <= k < |ds[1..]| ensures ds[1..][k].endPosition == chunks[1..][k].end {
          assert ds[1..][k] == ds[k + 1] && chunks[1..][k] == chunks[k + 1];
        }
      }
      assert Chunker.Spans(text, chunks[1..]) by {
        forall k | 0 <= k < |chunks[1..]|
          ensures chunks[1..][k].start <= chunks[1..][k].end <= |text|
                  && chunks[1..][k].text == text[chunks[1..][k].start..chunks[1..][k].end] {
          assert chunks[1..][k] == chunks[k + 1];
        }
      }
      assert Chunker.OrderedFrom(chunks[1..], c.end) by {
        forall k | 1 <= k < |chunks[1..]| ensures chunks[1..][k - 1].end <= chunks[1..][k].start {
          assert chunks[1..][k - 1] == chunks[k] && chunks[1..][k] == chunks[k + 1];
        }
        if |chunks| > 1 {
          assert chunks[1..][0] == chunks[1];
        }
      }
      IdentityFromRecords(ds[1..], chunks[1..], text, c.end);
    }
  }

  /**
   * Round trip through the translator's own chunker: chunking a text and
   * merging the chunks untranslated gives back the text, whenever the text
   * yields any chunk.
   */
  lemma ChunkThenMerge(text: string, maxTokens: int, n: int, ds: seq<ChunkData>)
    requires IdentityOf(ds, Chunker.Chunks(text, maxTokens, n))
    requires ds != []
    ensures Merge(ds, text) == text
  {
    var chunks := Chunker.Chunks(text, maxTokens, n);
    Chunker.ChunksSpans(text, maxTokens, n);
    assert text != [] by {
      assert chunks[0].start <= chunks[0].end <= |text|;
      assert ds[0].translatedText == text[chunks[0].start..chunks[0].end];
      if text == [] {
        NoTextNoChunks(text, maxTokens, n);
      }
    }
    IdentityFromRecords(ds, chunks, text, 0);
    MergeIdentity(ds, text);
  }

  lemma NoTextNoChunks(text: string, maxTokens: int, n: int)
    requires text == []
    ensures Chunker.Chunks(text, maxTokens, n) == []
  {
    assert TextUtil.Pieces(text, 0, 0, Chunker.BlankLineMatch) == [[]];
    assert TextUtil.Strip([]) == [];
    assert TextUtil.StrippedNonEmpty([[]]) == [];
  }

  /** preserve_paragraph_breaks(original, merged): returns the merged text unchanged. */
  function PreserveParagraphBreaks(original: string, merged: string): (r: string)
    ensures r == merged
  {
    merged
  }

  /** The three-chunk example: a title, a name and a chapter heading separated by blank lines. */
  const KafkaOriginal: string := "FRANZ KAFKA\n\nAMERICA\n\nCAPÍTULO PRIMERO"

  const KafkaChunks: seq<ChunkData> := [
    ChunkData("FRANZ KAFKA", "FRANÇA KAFKA", 0, 11, "", "", "a", None),
    ChunkData("AMERICA", "AMÉRICA", 13, 20, "", "", "b", None),
    ChunkData("CAPÍTULO PRIMERO", "CAPÍTULO PRIMEIRO", 22, 38, "", "", "c", None)]

  lemma KafkaGaps()
    ensures |KafkaOriginal| == 38
    ensures KafkaOriginal[11..13] == "\n\n" && KafkaOriginal[20..22] == "\n\n"
  {
    assert KafkaOriginal[11] == '\n' && KafkaOriginal[12] == '\n';
    assert KafkaOriginal[20] == '\n' && KafkaOriginal[21] == '\n';
  }

  lemma KafkaSorted()
    ensures Sorting.SortBy(KafkaChunks, StartKey) == KafkaChunks
  {
    assert Sorting.SortedBy(KafkaChunks, StartKey);
    Sorting.SortBySortedIdentity(KafkaChunks, StartKey);
  }

  lemma KafkaThird()
    ensures MergeFrom(KafkaChunks[2..], KafkaOriginal, 20) == "\n\n" + "CAPÍTULO PRIMEIRO"
  {
    KafkaGaps();
    var cs := KafkaChunks[2..];
    assert cs[1..] == [];
    assert MergeFrom(cs[1..], KafkaOriginal, 38) == "";
    assert PySlice(KafkaOriginal, 20, 22) == "\n\n";
  }

  lemma KafkaSecond()
    ensures MergeFrom(KafkaChunks[1..], KafkaOriginal, 11) == "\n\n" + "AMÉRICA" + "\n\n" + "CAPÍTULO PRIMEIRO"
  {
    KafkaGaps();
    KafkaThird();
    assert KafkaChunks[1..][1..] == KafkaChunks[2..];
    assert PySlice(KafkaOriginal, 11, 13) == "\n\n";
  }

  lemma KafkaFirst()
    ensures MergeFrom(KafkaChunks, KafkaOriginal, 0) == "FRANÇA KAFKA" + "\n\n" + "AMÉRICA" + "\n\n" + "CAPÍTULO PRIMEIRO"
  {
    KafkaSecond();
    assert PySlice(KafkaOriginal, 0, 0) == "";
  }

  /** The gaps of "\n\n" are kept between the translations. */
  lemma KafkaExample()
    ensures Merge(KafkaChunks, KafkaOriginal) == "FRANÇA KAFKA" + "\n\n" + "AMÉRICA" + "\n\n" + "CAPÍTULO PRIMEIRO"
  {
    KafkaSorted();
    KafkaGaps();
    KafkaFirst();
  }
}
