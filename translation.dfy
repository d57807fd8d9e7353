/**
 * The Translation aggregate: the original text, its language pair, the
 * translated chunks, the glossary and the completion state. The identifier
 * and the timestamps come from the caller (the program draws them from
 * uuid4 and the clock).
 */
module TranslationAggregate {
  import opened Wrappers
  import opened TextUtil
  import opened ValueObjects
  import opened Models

  /** The state of a translation at one moment, with its chunks and entries as values. */
  datatype TranslationData = TranslationData(
    originalText: string,
    languagePair: LanguagePair,
    translationId: string,
    chunks: seq<ChunkData>,
    glossary: map<string, EntryData>,
    createdAt: string,
    completedAt: Option<string>,
    finalTranslation: string)

  /** The values of a list of chunks. */
  function ChunksData(cs: seq<TranslationChunk>): (ds: seq<ChunkData>)
    reads cs
    ensures |ds| == |cs| && forall i :: 0 <= i < |cs| ==> ds[i] == cs[i].Data()
  {
    if cs == [] then [] else ChunksData(cs[..|cs| - 1]) + [cs[|cs| - 1].Data()]
  }

  /** A glossary with its entries as values. */
  function EntriesData(g: map<string, GlossaryEntry>): (d: map<string, EntryData>)
    reads g.Values
    ensures d.Keys == g.Keys && forall k :: k in g ==> d[k] == g[k].Data()
  {
    map k | k in g :: g[k].Data()
  }

  class Translation {
    var originalText: string
    var languagePair: LanguagePair
    var translationId: string
    var chunks: seq<TranslationChunk>
    var glossary: map<string, GlossaryEntry>
    var createdAt: string
    var completedAt: Option<string>
    var finalTranslation: string

    /** The whole state as a value. */
    function Snapshot(): TranslationData
      reads this, chunks, glossary.Values
    {
      TranslationData(originalText, languagePair, translationId, ChunksData(chunks),
                      EntriesData(glossary), createdAt, completedAt, finalTranslation)
    }



    /** A final translation is recorded only with a completion time. */
    predicate FinalOnlyWhenComplete()
      reads this
    {
      !IsComplete() ==> finalTranslation == ""
    }

    /** A fresh translation: no chunks, empty glossary, not completed. */
    constructor (originalText: string, languagePair: LanguagePair, translationId: string, createdAt: string)
      ensures this.originalText == originalText && this.languagePair == languagePair
      ensures this.translationId == translationId && this.createdAt == createdAt
      ensures chunks == [] && glossary == map[] && finalTranslation == ""
      ensures !IsComplete() && KeysLowered() && FinalOnlyWhenComplete()
    {
      this.originalText := originalText;
      this.languagePair := languagePair;
      this.translationId := translationId;
      this.chunks := [];
      this.glossary := map[];
      this.createdAt := createdAt;
      this.completedAt := None;
      this.finalTranslation := "";
    }

    /** is_complete: a completion time has been recorded. */
    predicate IsComplete()
      reads this
    {
      completedAt.Some?
    }

    /** Every glossary key is in lower case. */
    predicate KeysLowered()
      reads this
    {
      forall k :: k in glossary ==> Lower(k) == k
    }

    /** add_chunk: appends at the end; earlier chunks are unchanged. */
    method AddChunk(chunk: TranslationChunk)
      modifies this`chunks
      ensures chunks == old(chunks) + [chunk]
    {
      chunks := chunks + [chunk];
    }

    /**
     * add_glossary_entry: under the lower-cased source term, counts one more
     * use of an existing entry, or stores the new one.
     */
    method AddGlossaryEntry(entry: GlossaryEntry)
      modifies this`glossary, if Lower(entry.sourceTerm) in glossary then {glossary[Lower(entry.sourceTerm)]} else {}
      ensures var key := old(Lower(entry.sourceTerm));
        if key in old(glossary) then
          glossary == old(glossary)
          && glossary[key].Data() == old(glossary[key].Data()).(frequency := old(glossary[key].frequency) + 1)
        else
          glossary == old(glossary)[key := entry]
      ensures old(KeysLowered()) ==> KeysLowered()
    {
      var key := Lower(entry.sourceTerm);
      LowerIdempotent(entry.sourceTerm);
      if key in glossary {
        glossary[key].IncrementUsage();
      } else {
        glossary := glossary[key := entry];
      }
    }

    /** finalize: stores the merged text and the completion time. */
    method Finalize(mergedText: string, now: string)
      modifies this`finalTranslation, this`completedAt
      ensures finalTranslation == mergedText && completedAt == Some(now)
      ensures IsComplete() && FinalOnlyWhenComplete()
    {
      finalTranslation := mergedText;
      completedAt := Some(now);
    }
  }
}
