/**
 * Context extraction: the paragraphs around the current one, joined with
 * spaces, as extra input for the translation model.
 */
module Context {
  import opened TextUtil

  function Max(a: int, b: int): int { if a >= b then a else b }
  function Min(a: int, b: int): int { if a <= b then a else b }

  /** paragraphs[max(0, i - n):i] */
  function ParagraphsBefore(paragraphs: seq<string>, i: int, n: int): (r: seq<string>)
    ensures 0 <= i <= |paragraphs| && 0 <= n ==> r == paragraphs[Max(0, i - n)..i]
    ensures 0 <= i && n <= 0 ==> r == []
    ensures i == 0 ==> r == []
    ensures 0 <= i ==> |r| <= Max(0, n)
  {
    PySlice(paragraphs, Max(0, i - n), i)
  }

  /** paragraphs[i + 1:min(len, i + n + 1)] */
  function ParagraphsAfter(paragraphs: seq<string>, i: int, n: int): (r: seq<string>)
    ensures 0 <= i < |paragraphs| && 0 <= n ==> r == paragraphs[i + 1..Min(|paragraphs|, i + n + 1)]
    ensures i == |paragraphs| - 1 ==> r == []
    ensures 0 <= i && 0 <= n ==> |r| <= n
  {
    PySlice(paragraphs, i + 1, Min(|paragraphs|, i + n + 1))
  }

  /** get_context_before */
  function ContextBefore(paragraphs: seq<string>, i: int, n: int): (r: string)
    ensures i == 0 ==> r == []
  {
    Join(" ", ParagraphsBefore(paragraphs, i, n))
  }

  /** get_context_after */
  function ContextAfter(paragraphs: seq<string>, i: int, n: int): (r: string)
    ensures i == |paragraphs| - 1 ==> r == []
  {
    Join(" ", ParagraphsAfter(paragraphs, i, n))
  }

  /** The before-context of paragraph i ends with paragraph i - 1 when there is one and n >= 1. */
  lemma ContextBeforeEndsWithPrevious(paragraphs: seq<string>, i: int, n: int)
    requires 0 < i <= |paragraphs| && n >= 1
    ensures EndsWith(ContextBefore(paragraphs, i, n), paragraphs[i - 1])
  {
    var ps := ParagraphsBefore(paragraphs, i, n);
    assert |ps| >= 1 && ps[|ps| - 1] == paragraphs[i - 1];
    JoinEndsWithLast(" ", ps);
  }

  /** The after-context of paragraph i starts with paragraph i + 1 when there is one and n >= 1. */
  lemma ContextAfterStartsWithNext(paragraphs: seq<string>, i: int, n: int)
    requires 0 <= i < |paragraphs| - 1 && n >= 1
    ensures StartsWith(ContextAfter(paragraphs, i, n), paragraphs[i + 1])
  {
    var ps := ParagraphsAfter(paragraphs, i, n);
    assert |ps| >= 1 && ps[0] == paragraphs[i + 1];
    JoinStartsWithFirst(" ", ps);
  }
}
