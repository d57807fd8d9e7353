/**
 * The glossary service: a map from lower-cased source terms to glossary
 * entries, filled from pairs of proper nouns found in an original chunk and
 * its translation.
 *
 * The noun extractor is not part of this model: update_from_chunk receives
 * the two noun lists as parameters, in the order in which the program would
 * enumerate its two sets.
 */
module GlossaryService {
  import opened TextUtil
  import opened Models

  /** How many of the first n source terms have the key k. */
  function Count(src: seq<string>, n: nat, k: string): (c: nat)
    requires n <= |src|
    ensures c <= n
  {
    if n == 0 then 0 else Count(src, n - 1, k) + (if Lower(src[n - 1]) == k then 1 else 0)
  }

  /** The first of the first n source terms with the key k. */
  function First(src: seq<string>, n: nat, k: string): (i: nat)
    requires n <= |src| && Count(src, n, k) > 0
    ensures i < n && Lower(src[i]) == k && Count(src, i, k) == 0
  {
    if Count(src, n - 1, k) > 0 then First(src, n - 1, k) else n - 1
  }

  /** The context stored with a new entry: original[:100]. */
  function ContextOf(original: string): (c: string)
    ensures |c| <= 100 && |c| <= |original| && c == original[..|c|]
    ensures |original| >= 100 ==> |c| == 100
  {
    PySlice(original, 0, 100)
  }

  /** One pair of terms applied to the glossary, as values. */
  function MapStep(g: map<string, EntryData>, src: string, tgt: string, context: string): map<string, EntryData>
  {
    var key := Lower(src);
    if key in g then g[key := g[key].(frequency := g[key].frequency + 1)]
    else g[key := EntryData(src, tgt, ContextOf(context), 1)]
  }

  /** The first n pairs of terms applied to the glossary, as values. */
  function MapTermsSpec(g: map<string, EntryData>, src: seq<string>, tgt: seq<string>, context: string, n: nat): map<string, EntryData>
    requires n <= |src| && n <= |tgt|
  {
    if n == 0 then g else MapStep(MapTermsSpec(g, src, tgt, context, n - 1), src[n - 1], tgt[n - 1], context)
  }

  /**
   * After the first n pairs: the keys are the old keys and the keys of the
   * source terms; an old entry keeps its terms and context and counts one
   * use per matching source term; a new entry holds the first pair with its
   * key, the context prefix, and one use per matching source term.
   */
  lemma {:induction false} MapTermsEffect(g: map<string, EntryData>, src: seq<string>, tgt: seq<string>, context: string, n: nat, k: string)
    requires n <= |src| && n <= |tgt|
    ensures var r := MapTermsSpec(g, src, tgt, context, n);
      (k in r <==> k in g || Count(src, n, k) > 0)
      && (k in g ==> r[k] == g[k].(frequency := g[k].frequency + Count(src, n, k)))
      && (k !in g && Count(src, n, k) > 0 ==>
            var i := First(src, n, k);
            r[k] == EntryData(src[i], tgt[i], ContextOf(context), Count(src, n, k)))
  {
    if n > 0 {
      MapTermsEffect(g, src, tgt, context, n - 1, k);
    }
  }

  /** get_term_translation on a glossary given as values. */
  function Lookup(g: map<string, EntryData>, term: string): string
  {
    var key := Lower(term);
    if key in g then g[key].targetTerm else term
  }

  /**
   * After mapping, a source term looks up to the target of the first pair
   * that introduced its key, unless the key was already there, in which
   * case the lookup is unchanged.
   */
  lemma MapTermsLookup(g: map<string, EntryData>, src: seq<string>, tgt: seq<string>, context: string, n: nat, j: nat)
    requires n <= |src| && n <= |tgt| && j < n
    ensures var r := MapTermsSpec(g, src, tgt, context, n);
      var k := Lower(src[j]);
      Count(src, n, k) > 0
      && Lookup(r, src[j]) == if k in g then g[k].targetTerm else tgt[First(src, n, k)]
  {
    var k := Lower(src[j]);
    CountPositive(src, n, j);
    MapTermsEffect(g, src, tgt, context, n, k);
  }

  lemma {:induction false} CountPositive(src: seq<string>, n: nat, j: nat)
    requires j < n <= |src|
    ensures Count(src, n, Lower(src[j])) > 0
  {
    if j < n - 1 {
      CountPositive(src, n - 1, j);
    }
  }

  class GlossaryService {
    var glossary: map<string, GlossaryEntry>

    /** Keys are lower case and no two keys share an entry object. */
    predicate Valid()
      reads this
    {
      (forall k :: k in glossary ==> Lower(k) == k)
      && (forall k1, k2 :: k1 in glossary && k2 in glossary && k1 != k2 ==> glossary[k1] != glossary[k2])
    }

    /** The glossary as values. */
    function View(): map<string, EntryData>
      reads this, glossary.Values
    {
      map k | k in glossary :: glossary[k].Data()
    }

    constructor ()
      ensures Valid() && glossary == map[]
    {
      glossary := map[];
    }

    /** get_term_translation: the target of the lower-cased term, or the term itself. */
    function GetTermTranslation(sourceTerm: string): (r: string)
      reads this, glossary.Values
      ensures r == Lookup(View(), sourceTerm)
    {
      var key := Lower(sourceTerm);
      if key in glossary then glossary[key].targetTerm else sourceTerm
    }

    /** One iteration of _map_terms: count a use of the key, or add a new entry. */
    method MapPair(src: string, tgt: string, context: string)
      requires Valid()
      modifies this, glossary.Values
      ensures Valid()
      ensures forall k :: k in glossary ==> glossary[k] in old(glossary.Values) || fresh(glossary[k])
      ensures View() == MapStep(old(View()), src, tgt, context)
    {
      var key := Lower(src);
      LowerIdempotent(src);
      if key in glossary {
        CountUse(key);
      } else {
        AddEntry(key, EntryData(src, tgt, ContextOf(context), 1));
      }
    }

    /** glossary[key].increment_usage(): the entry under key counts one more use. */
    method CountUse(key: string)
      requires Valid() && key in glossary
      modifies glossary[key]
      ensures Valid() && glossary == old(glossary)
      ensures View() == old(View())[key := old(View())[key].(frequency := old(View())[key].frequency + 1)]
    {
      ghost var before := View();
      var e := glossary[key];
      e.IncrementUsage();
      forall k | k in glossary && k != key ensures glossary[k] != e {
      }
      assert View() == before[key := before[key].(frequency := before[key].frequency + 1)];
    }

    /** glossary[key] = GlossaryEntry(...): a fresh entry under a new lower-case key. */
    method AddEntry(key: string, d: EntryData)
      requires Valid() && key !in glossary && Lower(key) == key
      modifies this
      ensures Valid() && key in glossary && fresh(glossary[key])
      ensures glossary == old(glossary)[key := glossary[key]]
      ensures View() == old(View())[key := d]
    {
      ghost var before := View();
      var e := new GlossaryEntry(d.sourceTerm, d.targetTerm, d.context, d.frequency);
      glossary := glossary[key := e];
      assert View() == before[key := d];
    }

    /** _map_terms: applies the zipped pairs of terms in order. */
    method MapTerms(sourceTerms: seq<string>, targetTerms: seq<string>, context: string)
      requires Valid()
      modifies this, glossary.Values
      ensures Valid()
      ensures View() == MapTermsSpec(old(View()), sourceTerms, targetTerms, context,
                                     if |sourceTerms| <= |targetTerms| then |sourceTerms| else |targetTerms|)
    {
      var n := if |sourceTerms| <= |targetTerms| then |sourceTerms| else |targetTerms|;
      ghost var g0 := View();
      for i := 0 to n
        invariant Valid()
        invariant forall k :: k in glossary ==> glossary[k] in old(glossary.Values) || fresh(glossary[k])
        invariant View() == MapTermsSpec(g0, sourceTerms, targetTerms, context, i)
      {
        MapPair(sourceTerms[i], targetTerms[i], context);
      }
    }

    /**
     * update_from_chunk: maps the nouns of the original to the nouns of the
     * translation, with the original as context.
     */
    method UpdateFromChunk(original: string, originalNouns: seq<string>, translatedNouns: seq<string>)
      requires Valid()
      modifies this, glossary.Values
      ensures Valid()
      ensures View() == MapTermsSpec(old(View()), originalNouns, translatedNouns, original,
                                     if |originalNouns| <= |translatedNouns| then |originalNouns| else |translatedNouns|)
    {
      MapTerms(originalNouns, translatedNouns, original);
    }
  }
}
