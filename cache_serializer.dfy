/**
 * The cache record of a translation, as the serializer writes it: plain
 * fields, one record per chunk in order, and one record per glossary key.
 * Identifiers and timestamps are already strings here (the program turns
 * UUIDs and datetimes into strings with str() and isoformat()).
 */
module CacheSerializer {
  import opened Wrappers
  import opened ValueObjects
  import opened Models
  import opened TranslationAggregate

  datatype CachedChunk = CachedChunk(
    chunkId: string,
    originalText: string,
    translatedText: string,
    startPosition: int,
    endPosition: int,
    contextBefore: string,
    contextAfter: string)

  datatype CachedEntry = CachedEntry(sourceTerm: string, targetTerm: string, context: string, frequency: int)

  datatype CachedPair = CachedPair(source: string, target: string)

  datatype CacheRecord = CacheRecord(
    translationId: string,
    originalText: string,
    languagePair: CachedPair,
    chunks: seq<CachedChunk>,
    glossary: map<string, CachedEntry>,
    createdAt: string,
    completedAt: Option<string>,
    finalTranslation: string)

  /** _serialize_chunk: the seven fields; the validation is not written. */
  function SerializeChunk(c: ChunkData): (r: CachedChunk)
    ensures r.chunkId == c.chunkId && r.originalText == c.originalText && r.translatedText == c.translatedText
    ensures r.startPosition == c.startPosition && r.endPosition == c.endPosition
    ensures r.contextBefore == c.contextBefore && r.contextAfter == c.contextAfter
  {
    CachedChunk(c.chunkId, c.originalText, c.translatedText, c.startPosition, c.endPosition,
                c.contextBefore, c.contextAfter)
  }

  /** _serialize_glossary: the four fields of an entry. */
  function SerializeEntry(e: EntryData): (r: CachedEntry)
    ensures r.sourceTerm == e.sourceTerm && r.targetTerm == e.targetTerm
    ensures r.context == e.context && r.frequency == e.frequency
  {
    CachedEntry(e.sourceTerm, e.targetTerm, e.context, e.frequency)
  }

  /** The chunk comprehension: one record per chunk, in order. */
  function SerializeChunks(cs: seq<ChunkData>): (rs: seq<CachedChunk>)
    ensures |rs| == |cs| && forall i :: 0 <= i < |cs| ==> rs[i] == SerializeChunk(cs[i])
  {
    if cs == [] then [] else [SerializeChunk(cs[0])] + SerializeChunks(cs[1..])
  }

  /** serialize(translation), on the translation's state. */
  function Serialize(t: TranslationData): (r: CacheRecord)
    ensures r.glossary.Keys == t.glossary.Keys
    ensures forall k :: k in t.glossary ==> r.glossary[k] == SerializeEntry(t.glossary[k])
    ensures r.completedAt == t.completedAt
  {
    CacheRecord(t.translationId, t.originalText, CachedPair(t.languagePair.source, t.languagePair.target),
                SerializeChunks(t.chunks), map k | k in t.glossary :: SerializeEntry(t.glossary[k]),
                t.createdAt, t.completedAt, t.finalTranslation)
  }
}
