/**
 * The pause table of the speech synthesiser: a pause length in milliseconds
 * per punctuation mark, the structural pauses used when chunking, and the
 * conversion of a pause into the run of periods the synthesiser reads as
 * silence (about 200 ms per period).
 *
 * The table is a dictionary with insertion order; it is modelled as the
 * sequence of its (mark, milliseconds) entries in that order.
 */
module PauseConfig {
  import opened TextUtil
  import opened SeqUtil
  import opened Dict

  /** PAUSE_DURATIONS, in its declaration order. */
  const PauseDurations: seq<(string, int)> := [
    (",", 500), (".", 1000), (";", 800), (":", 800), ("...", 1200),
    ("?", 1000), ("!", 1000), ("¿", 0), ("¡", 0),
    ("—", 600), ("–", 400), ("-", 0),
    ("(", 400), (")", 400), ("[", 400), ("]", 400), ("{", 300), ("}", 300),
    ("\"", 300), ("'", 0), ("«", 300), ("»", 300),
    ("/", 200), ("\\", 200), ("&", 200), ("@", 0), ("#", 0), ("*", 300), ("+", 200), ("=", 200)
  ]

  /** STRUCTURAL_PAUSES, in its declaration order. */
  const StructuralPauses: seq<(string, int)> := [
    ("title", 2000), ("paragraph", 1500), ("chapter", 2500), ("roman", 2000)
  ]

  /** A one-character mark's character; the one longer mark, "...", gets the character 0. */
  function MarkCode(mark: string): char
  {
    if |mark| == 1 then mark[0] else '\U{0000}'
  }

  /** The codes of the table's marks, in table order. */
  const PauseCodes: seq<char> := [
    ',', '.', ';', ':', '\U{0000}', '?', '!', '¿', '¡', '—', '–', '-',
    '(', ')', '[', ']', '{', '}', '"', '\'', '«', '»', '/', '\\', '&', '@', '#', '*', '+', '='
  ]

  lemma PauseCodesListed()
    ensures |PauseCodes| == |PauseDurations|
    ensures forall i :: 0 <= i < |PauseDurations| ==> MarkCode(PauseDurations[i].0) == PauseCodes[i]
  {
  }

  lemma PauseCodesUnique()
    ensures forall i, j :: 0 <= i < j < |PauseCodes| ==> PauseCodes[i] != PauseCodes[j]
  {
  }

  /** No two marks of the pause table share a code. */
  lemma PauseCodesDistinct()
    ensures forall i, j :: 0 <= i < j < |PauseDurations| ==>
      MarkCode(PauseDurations[i].0) != MarkCode(PauseDurations[j].0)
  {
    PauseCodesListed();
    PauseCodesUnique();
  }

  /** The pause table lists every mark once. */
  lemma PauseKeysDistinct()
    ensures DistinctKeys(PauseDurations)
  {
    PauseCodesDistinct();
  }

  /** Every pause in the table lies between 0 and 1200 ms. */
  lemma PauseBounds()
    ensures forall i :: 0 <= i < |PauseDurations| ==> 0 <= PauseDurations[i].1 <= 1200
  {
  }

  /** get_pause_ms: the table's pause for a mark, 0 for a mark it does not list. */
  function GetPauseMs(punctuation: string): (ms: int)
    ensures !HasKey(PauseDurations, punctuation) ==> ms == 0
    ensures 0 <= ms <= 1200
  {
    PauseBounds();
    GetSpec(PauseDurations, punctuation, 0);
    Get(PauseDurations, punctuation, 0)
  }

  /** Every listed mark gets exactly the pause written next to it in the table. */
  lemma GetPauseMsListed(i: nat)
    requires i < |PauseDurations|
    ensures GetPauseMs(PauseDurations[i].0) == PauseDurations[i].1
  {
    PauseKeysDistinct();
    GetOfEntry(PauseDurations, i, 0);
  }

  /** get_pause_seconds: the pause in seconds, a thousandth of the milliseconds. */
  function GetPauseSeconds(punctuation: string): (s: real)
    ensures s * 1000.0 == GetPauseMs(punctuation) as real
    ensures 0.0 <= s <= 1.2
  {
    GetPauseMs(punctuation) as real / 1000.0
  }

  /**
   * ms_to_periods: nothing for a pause that is not positive; otherwise one
   * period per 200 ms, rounded to the nearest count (ties to even), and at
   * least one.
   */
  function MsToPeriods(milliseconds: int): (r: string)
    ensures forall i :: 0 <= i < |r| ==> r[i] == '.'
    ensures milliseconds <= 0 <==> r == ""
  {
    if milliseconds <= 0 then ""
    else
      var count := RoundHalfEven(milliseconds, 200);
      Repeat('.', if count < 1 then 1 else count)
  }

  /**
   * The period count is the count closest to the pause: 200 ms per period
   * is within 100 ms of the pause, except that pauses up to 100 ms still
   * get one period.
   */
  lemma MsToPeriodsCount(milliseconds: int)
    requires milliseconds > 0
    ensures var n := |MsToPeriods(milliseconds)|;
      n >= 1
      && (milliseconds <= 100 ==> n == 1)
      && (milliseconds > 100 ==> -100 <= 200 * n - milliseconds <= 100)
  {
    RoundHalfEvenClose(milliseconds, 200);
  }

  /** The counts for the table's usual pauses; 600 ms is "...". */
  lemma MsToPeriodsExamples()
    ensures MsToPeriods(0) == "" && MsToPeriods(-5) == ""
    ensures MsToPeriods(100) == "." && MsToPeriods(200) == "."
    ensures MsToPeriods(300) == ".." && MsToPeriods(500) == ".."
    ensures MsToPeriods(600) == "..." && MsToPeriods(1000) == "....."
  {
  }

  /** get_all_punctuation: the table's marks, in table order. */
  function GetAllPunctuation(): (marks: seq<string>)
    ensures |marks| == |PauseDurations|
    ensures forall i :: 0 <= i < |marks| ==> marks[i] == PauseDurations[i].0
  {
    seq(|PauseDurations|, i requires 0 <= i < |PauseDurations| => PauseDurations[i].0)
  }

  /** Each mark is listed once, and a mark is listed exactly when the table has an entry for it. */
  lemma GetAllPunctuationKeys(punctuation: string)
    ensures NoDuplicates(GetAllPunctuation())
    ensures punctuation in GetAllPunctuation() <==> HasKey(PauseDurations, punctuation)
  {
    PauseCodesDistinct();
    var marks := GetAllPunctuation();
    if punctuation in marks {
      var i :| 0 <= i < |marks| && marks[i] == punctuation;
      assert PauseDurations[i].0 == punctuation;
    }
  }

  /** Every structural pause is longer than every punctuation pause. */
  lemma StructuralPausesLonger()
    ensures forall i, j :: 0 <= i < |StructuralPauses| && 0 <= j < |PauseDurations| ==>
      StructuralPauses[i].1 > PauseDurations[j].1
  {
    PauseBounds();
  }

  /** A mark has a pause only when it is one of the listed marks. */
  lemma PausedMarksAreListed(punctuation: string)
    ensures GetPauseMs(punctuation) != 0 ==> punctuation in GetAllPunctuation()
  {
  }
}
