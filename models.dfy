/**
 * The translator's mutable entities: a translation chunk and a glossary
 * entry. Identifiers are opaque strings supplied by the caller.
 */
module Models {
  import opened Wrappers
  import opened ValueObjects

  /** The fields of a chunk at one moment. */
  datatype ChunkData = ChunkData(
    originalText: string,
    translatedText: string,
    startPosition: int,
    endPosition: int,
    contextBefore: string,
    contextAfter: string,
    chunkId: string,
    validation: Option<ValidationScore>)

  /** A single translated segment with its position and context. */
  class TranslationChunk {
    var originalText: string
    var translatedText: string
    var startPosition: int
    var endPosition: int
    var contextBefore: string
    var contextAfter: string
    var chunkId: string
    var validation: Option<ValidationScore>

    function Data(): (d: ChunkData)
      reads this
      ensures d.validation == validation && d.chunkId == chunkId
    {
      ChunkData(originalText, translatedText, startPosition, endPosition,
                contextBefore, contextAfter, chunkId, validation)
    }

    /** A chunk with every field given; it starts unvalidated. */
    constructor (originalText: string, translatedText: string, startPosition: int, endPosition: int,
                 contextBefore: string, contextAfter: string, chunkId: string)
      ensures Data() == ChunkData(originalText, translatedText, startPosition, endPosition,
                                  contextBefore, contextAfter, chunkId, None)
    {
      this.originalText := originalText;
      this.translatedText := translatedText;
      this.startPosition := startPosition;
      this.endPosition := endPosition;
      this.contextBefore := contextBefore;
      this.contextAfter := contextAfter;
      this.chunkId := chunkId;
      this.validation := None;
    }

    /** A chunk built with the dataclass defaults: empty contexts, no validation. */
    constructor Plain(originalText: string, translatedText: string, startPosition: int, endPosition: int,
                      chunkId: string)
      ensures Data() == ChunkData(originalText, translatedText, startPosition, endPosition, "", "", chunkId, None)
    {
      this.originalText := originalText;
      this.translatedText := translatedText;
      this.startPosition := startPosition;
      this.endPosition := endPosition;
      this.contextBefore := "";
      this.contextAfter := "";
      this.chunkId := chunkId;
      this.validation := None;
    }

    /** mark_validated: records the score and changes nothing else. */
    method MarkValidated(score: ValidationScore)
      modifies this`validation
      ensures Data() == old(Data()).(validation := Some(score))
    {
      validation := Some(score);
    }
  }

  /** The fields of a glossary entry at one moment. */
  datatype EntryData = EntryData(sourceTerm: string, targetTerm: string, context: string, frequency: int)

  /** A consistent mapping of a source term to its translation. */
  class GlossaryEntry {
    var sourceTerm: string
    var targetTerm: string
    var context: string
    var frequency: int

    function Data(): (d: EntryData)
      reads this
      ensures d.frequency == frequency && d.targetTerm == targetTerm
    {
      EntryData(sourceTerm, targetTerm, context, frequency)
    }

    /** An entry with every field given. */
    constructor (sourceTerm: string, targetTerm: string, context: string, frequency: int)
      ensures Data() == EntryData(sourceTerm, targetTerm, context, frequency)
    {
      this.sourceTerm := sourceTerm;
      this.targetTerm := targetTerm;
      this.context := context;
      this.frequency := frequency;
    }

    /** An entry built with the dataclass defaults: empty context, frequency 1. */
    constructor Plain(sourceTerm: string, targetTerm: string)
      ensures Data() == EntryData(sourceTerm, targetTerm, "", 1)
    {
      this.sourceTerm := sourceTerm;
      this.targetTerm := targetTerm;
      this.context := "";
      this.frequency := 1;
    }

    /** increment_usage: one more use, nothing else changes. */
    method IncrementUsage()
      modifies this`frequency
      ensures Data() == old(Data()).(frequency := old(frequency) + 1)
    {
      frequency := frequency + 1;
    }
  }
}
