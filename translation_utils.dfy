/**
 * Helpers of the translation adapters: the model input with its context,
 * the cache key of a language pair's model, and the batching of texts.
 */
module TranslationUtils {
  import opened Wrappers
  import opened TextUtil
  import opened SeqUtil
  import opened ValueObjects

  /** prepare_input(text, context): a missing or empty context adds nothing. */
  function PrepareInput(text: string, context: Option<string>): (r: string)
    ensures context.None? || context == Some("") ==> r == text
    ensures context.Some? && context.value != [] ==> r == context.value + " " + text
  {
    match context
    case Some(c) => if c != [] then c + " " + text else text
    case None => text
  }

  /** The text is always the tail of the prepared input. */
  lemma PrepareInputEndsWithText(text: string, context: Option<string>)
    ensures EndsWith(PrepareInput(text, context), text)
  {
    var r := PrepareInput(text, context);
    assert r[|r| - |text|..] == text;
  }

  /** get_model_key(language_pair): "source-target". */
  function GetModelKey(pair: LanguagePair): string
  {
    pair.source + "-" + pair.target
  }

  /**
   * Two pairs whose source codes contain no hyphen get the same key only
   * when they are the same pair: the key is split at its first hyphen.
   */
  lemma ModelKeyDistinguishes(p: LanguagePair, q: LanguagePair)
    requires '-' !in p.source && '-' !in q.source
    requires GetModelKey(p) == GetModelKey(q)
    ensures p == q
  {
    var k := GetModelKey(p);
    assert k == p.source + ['-'] + p.target;
    assert k == q.source + ['-'] + q.target;
    IndexOfAfterPrefix(p.source, '-', p.target);
    IndexOfAfterPrefix(q.source, '-', q.target);
    assert p.source == k[..|p.source|];
    assert q.source == k[..|q.source|];
    assert p.target == k[|p.source| + 1..];
    assert q.target == k[|q.source| + 1..];
  }

  function Min(a: int, b: int): int
  {
    if a <= b then a else b
  }

  /** [texts[i:i + n] for i in range(0, len(texts), n)] for n > 0. */
  function Batches(texts: seq<string>, n: nat): (bs: seq<seq<string>>)
    requires n > 0
    decreases |texts|
  {
    if texts == [] then []
    else
      var k := Min(n, |texts|);
      [texts[..k]] + Batches(texts[k..], n)
  }

  /**
   * batch_texts(texts, batch_size): range() rejects a zero step, and a
   * negative step gives no batches.
   */
  function BatchTexts(texts: seq<string>, batchSize: int): (r: Result<seq<seq<string>>, string>)
    ensures batchSize == 0 <==> r.Failure?
    ensures batchSize < 0 ==> r == Success([])
  {
    if batchSize == 0 then Failure("ValueError: range() arg 3 must not be zero")
    else if batchSize < 0 then Success([])
    else Success(Batches(texts, batchSize))
  }

  /** The batches, concatenated, are the texts in order. */
  lemma {:induction false} BatchesFlatten(texts: seq<string>, n: nat)
    requires n > 0
    ensures Flatten(Batches(texts, n)) == texts
    decreases |texts|
  {
    if texts != [] {
      var k := Min(n, |texts|);
      BatchesFlatten(texts[k..], n);
      assert Batches(texts, n)[1..] == Batches(texts[k..], n);
      assert texts == texts[..k] + texts[k..];
    }
  }

  /**
   * Each batch is non-empty and holds at most n texts, all batches but the
   * last hold exactly n, and there are ceil(len / n) of them.
   */
  lemma {:induction false} BatchesSizes(texts: seq<string>, n: nat)
    requires n > 0
    ensures var bs := Batches(texts, n);
      (forall i :: 0 <= i < |bs| ==> 0 < |bs[i]| <= n)
      && (forall i :: 0 <= i < |bs| - 1 ==> |bs[i]| == n)
      && |bs| == (|texts| + n - 1) / n
    decreases |texts|
  {
    if texts != [] {
      var k := Min(n, |texts|);
      BatchesSizes(texts[k..], n);
      var bs := Batches(texts, n);
      var rest := Batches(texts[k..], n);
      assert bs == [texts[..k]] + rest;
      assert forall i :: 1 <= i < |bs| ==> bs[i] == rest[i - 1];
      if k == n {
        CeilStep(|texts| - n, n);
      } else {
        assert rest == [];
        CeilOne(|texts|, n);
      }
    }
  }

  lemma CeilStep(m: nat, n: nat)
    requires n > 0
    ensures (m + n + n - 1) / n == 1 + (m + n - 1) / n
  {
    var x := m + n - 1;
    var q, r := x / n, x % n;
    assert x == n * q + r;
    assert x + n == n * (q + 1) + r;
    DivUnique(x + n, n, q + 1, r);
  }

  /** A multiple of n strictly between -n and n is zero. */
  lemma MulSmall(n: int, d: int)
    requires n > 0 && -n < n * d < n
    ensures d == 0
  {
    MulAwayFromZero(n, d);
  }

  lemma MulAwayFromZero(n: int, d: int)
    requires n > 0
    ensures d >= 1 ==> n * d >= n
    ensures d <= -1 ==> n * d <= -n
  {
    if d >= 1 {
      assert n * d == n * (d - 1) + n;
    } else if d <= -1 {
      assert n * d == n * (d + 1) - n;
    }
  }

  lemma DivUnique(x: int, n: int, q: int, r: int)
    requires n > 0 && 0 <= r < n && x == n * q + r
    ensures x / n == q
  {
    var d := x / n - q;
    assert n * d == r - x % n;
    MulSmall(n, d);
  }

  lemma CeilOne(m: nat, n: nat)
    requires 0 < m < n
    ensures (m + n - 1) / n == 1
  {
  }
}
