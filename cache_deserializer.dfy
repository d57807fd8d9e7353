/**
 * Rebuilding a translation from its cache record. A record whose language
 * pair fails the pair's checks fails as the program's constructor raises.
 */
module CacheDeserializer {
  import opened Wrappers
  import opened ValueObjects
  import opened Models
  import opened TranslationAggregate
  import opened CacheSerializer

  /** _deserialize_chunk: the seven fields, and no validation. */
  function RestoreChunk(c: CachedChunk): (d: ChunkData)
    ensures d.validation.None?
    ensures SerializeChunk(d) == c
  {
    ChunkData(c.originalText, c.translatedText, c.startPosition, c.endPosition,
              c.contextBefore, c.contextAfter, c.chunkId, None)
  }

  function RestoreChunks(cs: seq<CachedChunk>): (ds: seq<ChunkData>)
    ensures |ds| == |cs| && forall i :: 0 <= i < |cs| ==> ds[i] == RestoreChunk(cs[i])
  {
    if cs == [] then [] else [RestoreChunk(cs[0])] + RestoreChunks(cs[1..])
  }

  /** _deserialize_glossary: the four fields. */
  function RestoreEntry(e: CachedEntry): (d: EntryData)
    ensures SerializeEntry(d) == e
  {
    EntryData(e.sourceTerm, e.targetTerm, e.context, e.frequency)
  }

  /** The restored glossary: one entry per key. */
  function RestoreGlossary(g: map<string, CachedEntry>): (d: map<string, EntryData>)
    ensures d.Keys == g.Keys && forall k :: k in g ==> d[k] == RestoreEntry(g[k])
  {
    map k | k in g :: RestoreEntry(g[k])
  }

  /** A completion time counts only when present and not empty (`if data["completed_at"]`). */
  predicate Truthy(completedAt: Option<string>)
  {
    completedAt.Some? && completedAt.value != ""
  }

  /** deserialize(data), as the state of the translation it builds. */
  function Restore(data: CacheRecord): (r: Result<TranslationData, string>)
    ensures r.Success? <==> ValidPair(LanguagePair(data.languagePair.source, data.languagePair.target))
    ensures r.Success? ==> !Truthy(data.completedAt) ==> r.value.completedAt.None? && r.value.finalTranslation == ""
    ensures r.Success? ==> forall i :: 0 <= i < |r.value.chunks| ==> r.value.chunks[i].validation.None?
  {
    match NewLanguagePair(data.languagePair.source, data.languagePair.target)
    case Failure(e) => Failure(e)
    case Success(pair) =>
      var complete := Truthy(data.completedAt);
      Success(TranslationData(
        data.originalText, pair, data.translationId, RestoreChunks(data.chunks),
        RestoreGlossary(data.glossary), data.createdAt,
        if complete then data.completedAt else None,
        if complete then data.finalTranslation else ""))
  }

  /** The chunks with their validation dropped, as the cache keeps them. */
  function Unvalidated(cs: seq<ChunkData>): (ds: seq<ChunkData>)
    ensures |ds| == |cs| && forall i :: 0 <= i < |cs| ==> ds[i] == cs[i].(validation := None)
  {
    if cs == [] then [] else [cs[0].(validation := None)] + Unvalidated(cs[1..])
  }

  /**
   * Serializing and then deserializing gives back the translation's state,
   * except that the chunks lose their validation, for any state a
   * translation can be in: a valid pair, a non-empty completion time, and a
   * final text only once completed.
   */
  lemma RoundTrip(t: TranslationData)
    requires ValidPair(t.languagePair)
    requires t.completedAt.Some? ==> t.completedAt.value != ""
    requires t.completedAt.None? ==> t.finalTranslation == ""
    ensures Restore(Serialize(t)) == Success(t.(chunks := Unvalidated(t.chunks)))
  {
    var rec := Serialize(t);
    var r := Restore(rec);
    assert LanguagePair(rec.languagePair.source, rec.languagePair.target) == t.languagePair;
    assert r.value.chunks == Unvalidated(t.chunks);
    assert r.value.glossary == t.glossary;
  }

  /**
   * Deserializing and then serializing gives back the record, for any record
   * with a valid pair whose completion is truthy or absent with an empty
   * final text.
   */
  lemma RecordRoundTrip(data: CacheRecord)
    requires ValidPair(LanguagePair(data.languagePair.source, data.languagePair.target))
    requires Truthy(data.completedAt) || (data.completedAt.None? && data.finalTranslation == "")
    ensures Restore(data).Success? && Serialize(Restore(data).value) == data
  {
    var t := Restore(data).value;
    assert SerializeChunks(t.chunks) == data.chunks;
    assert Serialize(t).glossary == data.glossary;
  }

  /**
   * deserialize(data) as the program runs it: a new translation, then the
   * chunks appended in order, the glossary filled key by key, and the
   * completion copied when truthy.
   */
  method Deserialize(data: CacheRecord) returns (r: Result<Translation, string>)
    ensures r.Success? <==> ValidPair(LanguagePair(data.languagePair.source, data.languagePair.target))
    ensures r.Failure? ==> r == Failure(Restore(data).error)
    ensures r.Success? ==> fresh(r.value) && r.value.Snapshot() == Restore(data).value
  {
    var pair := NewLanguagePair(data.languagePair.source, data.languagePair.target);
    if pair.Failure? {
      return Failure(pair.error);
    }
    var t := Rebuild(data, pair.value);
    CopyCompletion(t, data.completedAt, data.finalTranslation);
    r := Success(t);
  }

  /** A new translation with the record's chunks and glossary, not yet completed. */
  method Rebuild(data: CacheRecord, pair: LanguagePair) returns (t: Translation)
    ensures fresh(t)
    ensures t.originalText == data.originalText && t.languagePair == pair && t.translationId == data.translationId
    ensures t.createdAt == data.createdAt && t.completedAt == None && t.finalTranslation == ""
    ensures ChunksData(t.chunks) == RestoreChunks(data.chunks)
    ensures EntriesData(t.glossary) == RestoreGlossary(data.glossary)
  {
    t := new Translation(data.originalText, pair, data.translationId, data.createdAt);
    AppendChunks(t, data.chunks);
    FillGlossary(t, data.glossary);
  }

  /** The completion step: the time and the final text, copied only when the time is truthy. */
  method CopyCompletion(t: Translation, completedAt: Option<string>, finalTranslation: string)
    modifies t`completedAt, t`finalTranslation
    ensures t.Snapshot() == if Truthy(completedAt) then old(t.Snapshot()).(completedAt := completedAt, finalTranslation := finalTranslation)
                            else old(t.Snapshot())
  {
    if Truthy(completedAt) {
      t.completedAt := completedAt;
      t.finalTranslation := finalTranslation;
    }
  }

  /** The chunk loop: one new chunk per record, appended in order. */
  method AppendChunks(t: Translation, records: seq<CachedChunk>)
    modifies t`chunks
    ensures |t.chunks| == |old(t.chunks)| + |records| && t.chunks[..|old(t.chunks)|] == old(t.chunks)
    ensures forall k :: |old(t.chunks)| <= k < |t.chunks| ==>
      fresh(t.chunks[k]) && t.chunks[k].Data() == RestoreChunk(records[k - |old(t.chunks)|])
  {
    ghost var n := |t.chunks|;
    for i := 0 to |records|
      invariant |t.chunks| == n + i && t.chunks[..n] == old(t.chunks)
      invariant forall k :: n <= k < n + i ==> fresh(t.chunks[k]) && t.chunks[k].Data() == RestoreChunk(records[k - n])
    {
      var rec := records[i];
      ghost var prev := t.chunks;
      var c := new TranslationChunk(rec.originalText, rec.translatedText, rec.startPosition, rec.endPosition,
                                    rec.contextBefore, rec.contextAfter, rec.chunkId);
      t.chunks := t.chunks + [c];
      assert t.chunks[n + i] == c;
      assert forall k :: n <= k < n + i ==> t.chunks[k] == prev[k];
    }
  }

  /** The glossary loop: one new entry per key, stored under that key. */
  method FillGlossary(t: Translation, records: map<string, CachedEntry>)
    requires t.glossary == map[]
    modifies t`glossary
    ensures fresh(t.glossary.Values)
    ensures EntriesData(t.glossary) == RestoreGlossary(records)
  {
    var keys := records.Keys;
    ghost var done: set<string> := {};
    while keys != {}
      invariant keys + done == records.Keys && keys !! done
      invariant t.glossary.Keys == old(t.glossary.Keys) + done
      invariant forall k :: k in done ==> fresh(t.glossary[k]) && t.glossary[k].Data() == RestoreEntry(records[k])
      decreases keys
    {
      var k :| k in keys;
      var rec := records[k];
      var e := new GlossaryEntry(rec.sourceTerm, rec.targetTerm, rec.context, rec.frequency);
      t.glossary := t.glossary[k := e];
      keys := keys - {k};
      done := done + {k};
    }
    assert t.glossary.Keys == records.Keys;
  }
}
