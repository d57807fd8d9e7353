/**
 * Proper-name protection: names are collected from the original (a fixed
 * list of known names, then the capitalised phrases the name patterns find)
 * and put back into the translation, first by undoing known corruptions and
 * then by replacing the closest-looking phrase or word.
 *
 * The two name patterns of extract_names are not modelled as a regular
 * expression engine: their matches (group 1, the first pattern's matches
 * then the second's) are a parameter. The searches restore_names runs on the
 * text it is rewriting are modelled by hand below.
 */
module ProperNames {
  import opened Wrappers
  import opened TextUtil
  import opened SeqUtil

  const KnownNames: seq<string> := ["FRANZ KAFKA", "Franz Kafka", "Karl Rossmann", "Nueva York", "Am\U{00E9}rica"]

  /** The known corruptions of three of the known names. */
  const CorruptionMap: map<string, seq<string>> := map[
    "FRANZ KAFKA" := ["FRAN\U{00C7}A KAFKA", "Fran\U{00E7}esco Kaffka", "Francesco Kaffka"],
    "Karl Rossmann" := ["Karl Rossmann", "Carlos Rossmann"],
    "Nueva York" := ["Nueva York", "Nova York"]
  ]

  function Max(a: int, b: int): int
  {
    if a >= b then a else b
  }

  function Min(a: int, b: int): int
  {
    if a <= b then a else b
  }

  // ---------------------------------------------------------------------------
  // _is_similar, _is_likely_match

  /** The number of positions of zip(a, b) whose characters agree ignoring case. */
  function Common(a: string, b: string): (c: nat)
    ensures c <= |a| && c <= |b|
  {
    if a == [] || b == [] then 0
    else (if LowerChar(a[0]) == LowerChar(b[0]) then 1 else 0) + Common(a[1..], b[1..])
  }

  /**
   * _is_similar(a, b): equal ignoring case, or both non-empty with more
   * than 0.6 of the longer length agreeing position by position
   * (common / max > 0.6, that is 5 * common > 3 * max).
   */
  predicate IsSimilar(a: string, b: string)
  {
    Lower(a) == Lower(b) || (a != [] && b != [] && 5 * Common(a, b) > 3 * Max(|a|, |b|))
  }

  lemma {:induction false} CommonSymmetric(a: string, b: string)
    ensures Common(a, b) == Common(b, a)
  {
    if a != [] && b != [] {
      CommonSymmetric(a[1..], b[1..]);
    }
  }

  /**
   * Similarity does not depend on the order of its arguments; every string
   * is similar to itself; an empty string is similar only to an empty one;
   * and two similar strings that differ beyond case have lengths in a ratio
   * above 3 : 5.
   */
  lemma SimilarProperties(a: string, b: string)
    ensures IsSimilar(a, b) == IsSimilar(b, a)
    ensures IsSimilar(a, a)
    ensures (a == []) != (b == []) ==> !IsSimilar(a, b)
    ensures IsSimilar(a, b) && Lower(a) != Lower(b) ==> 5 * Min(|a|, |b|) > 3 * Max(|a|, |b|)
  {
    CommonSymmetric(a, b);
  }

  /** The zip loop of _is_likely_match: every pair similar. */
  predicate AllSimilar(xs: seq<string>, ys: seq<string>)
    requires |xs| == |ys|
  {
    xs == [] || (IsSimilar(xs[0], ys[0]) && AllSimilar(xs[1..], ys[1..]))
  }

  /** _is_likely_match(original, candidate) */
  predicate IsLikelyMatch(original: string, candidate: string)
  {
    var ow := Words(original);
    var cw := Words(RStripChars(candidate, {'.'}));
    |ow| == |cw| && AllSimilar(ow, cw)
  }

  lemma {:induction false} AllSimilarPairwise(xs: seq<string>, ys: seq<string>)
    requires |xs| == |ys|
    ensures AllSimilar(xs, ys) <==> forall k :: 0 <= k < |xs| ==> IsSimilar(xs[k], ys[k])
  {
    if xs != [] {
      AllSimilarPairwise(xs[1..], ys[1..]);
      assert forall k :: 1 <= k < |xs| ==> xs[1..][k - 1] == xs[k] && ys[1..][k - 1] == ys[k];
    }
  }

  /**
   * A candidate is a likely match exactly when, after its trailing dots are
   * dropped, it has as many words as the name and each word is similar to
   * the name's word at the same place.
   */
  lemma LikelyMatchWordwise(original: string, candidate: string)
    ensures var ow := Words(original);
      var cw := Words(RStripChars(candidate, {'.'}));
      IsLikelyMatch(original, candidate) <==>
        |ow| == |cw| && forall k :: 0 <= k < |ow| ==> IsSimilar(ow[k], cw[k])
  {
    var ow := Words(original);
    var cw := Words(RStripChars(candidate, {'.'}));
    if |ow| == |cw| {
      AllSimilarPairwise(ow, cw);
    }
  }

  /** A name without trailing dots is a likely match for itself. */
  lemma LikelyMatchSelf(name: string)
    requires RStripChars(name, {'.'}) == name
    ensures IsLikelyMatch(name, name)
  {
    var ws := Words(name);
    forall k | 0 <= k < |ws| ensures IsSimilar(ws[k], ws[k]) {
      SimilarProperties(ws[k], ws[k]);
    }
    AllSimilarPairwise(ws, ws);
  }

  // ---------------------------------------------------------------------------
  // _is_sentence_start, _is_likely_proper_name

  /** `\b` at position k of s. */
  predicate BoundaryAt(s: string, k: nat)
    requires k <= |s|
  {
    (0 < k && IsWordChar(s[k - 1])) != (k < |s| && IsWordChar(s[k]))
  }

  /** The marks of the class [.!?]. */
  predicate IsSentenceEnd(c: char)
  {
    c == '.' || c == '!' || c == '?'
  }

  /**
   * _is_sentence_start(word, text): the pattern (?:^|[.!?]\s+)(word)\b
   * matches somewhere: word occurs, followed by a word boundary, at the
   * very start of the text or after a sentence mark and whitespace.
   */
  predicate IsSentenceStart(word: string, text: string)
  {
    exists p :: 0 <= p <= |text| - |word| && OccursAt(text, word, p) && BoundaryAt(text, p + |word|)
      && (p == 0 || exists q :: 0 <= q < p - 1 && IsSentenceEnd(text[q]) && AllSpace(text[q + 1..p]))
  }

  /** _is_likely_proper_name(candidate, context) */
  predicate IsLikelyProperName(candidate: string, context: string)
  {
    if |candidate| < 3 then false
    else if |Words(candidate)| > 1 then true
    else !IsSentenceStart(candidate, context)
  }

  /**
   * A single word of at least three characters that opens the text (and is
   * not followed there by more word characters) is taken for an ordinary
   * sentence opening, not a name.
   */
  lemma ProperNameRules(w: string, rest: string)
    requires |w| >= 3 && NoSpace(w) && IsWordChar(w[|w| - 1])
    requires rest == [] || !IsWordChar(rest[0])
    ensures !IsLikelyProperName(w, w + rest)
  {
    var text := w + rest;
    assert text[0..|w|] == w;
    assert OccursAt(text, w, 0) && BoundaryAt(text, |w|);
    WordsOfToken(w);
  }

  // ---------------------------------------------------------------------------
  // extract_names

  /** The names of the list that occur in the text, in list order. */
  function KnownIn(known: seq<string>, text: string): (r: seq<string>)
    ensures forall n :: n in r <==> n in known && Contains(text, n)
  {
    if known == [] then []
    else
      var rest := KnownIn(known[1..], text);
      assert forall n :: n in known <==> n == known[0] || n in known[1..];
      if Contains(text, known[0]) then [known[0]] + rest else rest
  }

  /** The pattern loop: each candidate not already listed that is a likely name is appended. */
  function AddCandidates(names: seq<string>, candidates: seq<string>, text: string): (r: seq<string>)
    decreases |candidates|
  {
    if candidates == [] then names
    else
      var c := candidates[0];
      AddCandidates(if c !in names && IsLikelyProperName(c, text) then names + [c] else names, candidates[1..], text)
  }

  /** extract_names(text), with the pattern matches given in finditer order. */
  function ExtractNamesSpec(text: string, candidates: seq<string>): seq<string>
  {
    AddCandidates(KnownIn(KnownNames, text), candidates, text)
  }

  lemma {:induction false} KnownInNoDuplicates(known: seq<string>, text: string)
    requires NoDuplicates(known)
    ensures NoDuplicates(KnownIn(known, text))
  {
    if known != [] {
      assert NoDuplicates(known[1..]) by {
        assert forall i, j :: 0 <= i < j < |known| - 1 ==> known[1..][i] == known[i + 1] && known[1..][j] == known[j + 1];
      }
      KnownInNoDuplicates(known[1..], text);
      assert known[0] !in known[1..] by {
        assert forall j :: 0 <= j < |known| - 1 ==> known[1..][j] == known[j + 1];
      }
    }
  }

  /**
   * The candidate loop keeps what was listed before as a prefix, adds no
   * duplicate, adds only likely names among the candidates, and adds every
   * likely name among them.
   */
  lemma {:induction false} AddCandidatesEffect(names: seq<string>, candidates: seq<string>, text: string)
    requires NoDuplicates(names)
    ensures var r := AddCandidates(names, candidates, text);
      |names| <= |r| && r[..|names|] == names && NoDuplicates(r)
      && (forall n :: n in r ==> n in names || (n in candidates && IsLikelyProperName(n, text)))
      && (forall c :: c in candidates && IsLikelyProperName(c, text) ==> c in r)
    decreases |candidates|
  {
    if candidates != [] {
      var c := candidates[0];
      var next := if c !in names && IsLikelyProperName(c, text) then names + [c] else names;
      assert NoDuplicates(next);
      AddCandidatesEffect(next, candidates[1..], text);
      var r := AddCandidates(next, candidates[1..], text);
      assert r[..|names|] == r[..|next|][..|names|];
      assert forall n :: n in candidates[1..] ==> n in candidates;
      if IsLikelyProperName(c, text) {
        assert c in next;
        var k :| 0 <= k < |next| && next[k] == c;
        assert r[..|next|][k] == c;
      }
      assert forall n :: n in next ==> n in names || n == c;
    }
  }

  /**
   * extract_names lists the known names found in the text first, in list
   * order, then the likely names among the candidates; no name appears
   * twice, and every known name in the text and every likely candidate is
   * listed.
   */
  lemma ExtractNamesShape(text: string, candidates: seq<string>)
    ensures var r := ExtractNamesSpec(text, candidates);
      var known := KnownIn(KnownNames, text);
      |known| <= |r| && r[..|known|] == known && NoDuplicates(r)
      && (forall n :: n in r ==> (n in KnownNames && Contains(text, n)) || (n in candidates && IsLikelyProperName(n, text)))
      && (forall n :: n in KnownNames && Contains(text, n) ==> n in r)
      && (forall c :: c in candidates && IsLikelyProperName(c, text) ==> c in r)
  {
    var known := KnownIn(KnownNames, text);
    KnownInNoDuplicates(KnownNames, text);
    AddCandidatesEffect(known, candidates, text);
    var r := ExtractNamesSpec(text, candidates);
    assert forall n :: n in known ==> n in r[..|known|];
  }

  /** extract_names as the program runs it: the known-name loop, then the candidate loop. */
  method ExtractNames(text: string, candidates: seq<string>) returns (names: seq<string>)
    ensures names == ExtractNamesSpec(text, candidates)
  {
    names := FindKnown(KnownNames, text);
    names := AddLikely(names, candidates, text);
  }

  /** The known-name loop: each name of the list found in the text is appended. */
  method FindKnown(known: seq<string>, text: string) returns (names: seq<string>)
    ensures names == KnownIn(known, text)
  {
    names := [];
    for i := 0 to |known|
      invariant names + KnownIn(known[i..], text) == KnownIn(known, text)
    {
      KnownInStep(known, i, text);
      if Contains(text, known[i]) {
        names := names + [known[i]];
      }
    }
    assert known[|known|..] == [] && names + [] == names;
  }

  lemma KnownInStep(known: seq<string>, i: nat, text: string)
    requires i < |known|
    ensures KnownIn(known[i..], text)
      == (if Contains(text, known[i]) then [known[i]] else []) + KnownIn(known[i + 1..], text)
  {
    assert known[i..][1..] == known[i + 1..];
  }

  /** The candidate loop, from the names listed so far. */
  method AddLikely(listed: seq<string>, candidates: seq<string>, text: string) returns (names: seq<string>)
    ensures names == AddCandidates(listed, candidates, text)
  {
    names := listed;
    for j := 0 to |candidates|
      invariant AddCandidates(names, candidates[j..], text) == AddCandidates(listed, candidates, text)
    {
      assert candidates[j..][1..] == candidates[j + 1..];
      var name := candidates[j];
      if name !in names && IsLikelyProperName(name, text) {
        names := names + [name];
      }
    }
    assert candidates[|candidates|..] == [];
  }

  // ---------------------------------------------------------------------------
  // The searches of restore_names

  /** The end of the run of word characters that starts at i. */
  function RunEnd(s: string, i: nat): (j: nat)
    requires i <= |s|
    ensures i <= j <= |s| && (j == |s| || !IsWordChar(s[j]))
    decreases |s| - i
  {
    if i == |s| || !IsWordChar(s[i]) then i else RunEnd(s, i + 1)
  }

  /** The end of the run of whitespace that starts at i. */
  function SpaceEnd(s: string, i: nat): (j: nat)
    requires i <= |s|
    ensures i <= j <= |s| && (j == |s| || !IsSpace(s[j]))
    decreases |s| - i
  {
    if i == |s| || !IsSpace(s[i]) then i else SpaceEnd(s, i + 1)
  }

  /** `last` matches at g ignoring case and a word boundary follows it. */
  predicate LastAt(s: string, g: nat, last: string)
  {
    g + |last| <= |s| && SameIgnoringCase(s[g..g + |last|], last) && BoundaryAt(s, g + |last|)
  }

  /** a and b agree character by character once lower-cased. */
  predicate SameIgnoringCase(a: string, b: string)
    decreases |a|
  {
    |a| == |b| && (a == [] || (LowerChar(a[0]) == LowerChar(b[0]) && SameIgnoringCase(a[1..], b[1..])))
  }

  /** Comparing character by character is comparing the lower-cased texts. */
  lemma {:induction false} SameIgnoringCaseLower(a: string, b: string)
    ensures SameIgnoringCase(a, b) <==> Lower(a) == Lower(b)
    decreases |a|
  {
    if |a| == |b| && a != [] {
      SameIgnoringCaseLower(a[1..], b[1..]);
      LowerCons(a);
      LowerCons(b);
      ConsEqual(LowerChar(a[0]), LowerChar(b[0]), Lower(a[1..]), Lower(b[1..]));
    }
  }

  /** LastAt as a predicate on the start position, for the chain searches below. */
  function LastAtFn(s: string, last: string): (at: nat -> bool)
    ensures forall g: nat :: at(g) ==> g + |last| <= |s|
  {
    (g: nat) => LastAt(s, g, last)
  }

  /**
   * The greedy part of \w+(?:\s+\w+)*\s+LAST\b after a word that ends at i:
   * the end of the furthest LAST that follows whitespace along the chain of
   * words separated by whitespace, or `best` when there is none. LAST is
   * given by its length `width` and the positions `at` where it matches.
   */
  function ChainEnd(s: string, i: nat, width: nat, at: nat -> bool, best: Option<nat>): Option<nat>
    requires i <= |s|
    decreases |s| - i
  {
    var g := SpaceEnd(s, i);
    if g == i then best
    else
      var found := if at(g) then Some(g + width) else best;
      if g < |s| && IsWordChar(s[g]) then ChainEnd(s, RunEnd(s, g), width, at, found) else found
  }

  /** A chain end other than `best` lies past i and has LAST right before it. */
  lemma {:induction false} ChainEndSound(s: string, i: nat, width: nat, at: nat -> bool, best: Option<nat>)
    requires i <= |s|
    ensures var r := ChainEnd(s, i, width, at, best);
      r.Some? && r != best ==> i < r.value - width && at(r.value - width)
    decreases |s| - i
  {
    var g := SpaceEnd(s, i);
    if g != i {
      var found := if at(g) then Some(g + width) else best;
      if g < |s| && IsWordChar(s[g]) {
        ChainEndSound(s, RunEnd(s, g), width, at, found);
      }
    }
  }

  /** A word starts at a: a word character with no word character before it. */
  predicate WordStart(s: string, a: nat)
    requires a < |s|
  {
    IsWordChar(s[a]) && (a == 0 || !IsWordChar(s[a - 1]))
  }

  /**
   * pattern.search for \b\w+(?:\s+\w+)*\s+LAST\b (ignoring case) from a on:
   * the leftmost word start from which the chain reaches LAST, with the end
   * of the match before the optional dot.
   */
  function ChainSearch(s: string, a: nat, width: nat, at: nat -> bool): Option<(nat, nat)>
    requires a <= |s|
    decreases |s| - a
  {
    if a == |s| then None
    else if !WordStart(s, a) then ChainSearch(s, a + 1, width, at)
    else
      var c := ChainEnd(s, RunEnd(s, a), width, at, None);
      if c.Some? then Some((a, c.value)) else ChainSearch(s, a + 1, width, at)
  }

  /** A match found starts a word at or after a and ends with LAST. */
  lemma {:induction false} ChainSearchSound(s: string, a: nat, width: nat, at: nat -> bool)
    requires a <= |s| && forall g: nat :: at(g) ==> g + width <= |s|
    ensures var r := ChainSearch(s, a, width, at);
      r.Some? ==> (a <= r.value.0 < r.value.1 - width && r.value.1 <= |s|
        && WordStart(s, r.value.0) && at(r.value.1 - width))
    decreases |s| - a
  {
    if a < |s| {
      if WordStart(s, a) {
        var e := RunEnd(s, a);
        assert a < e by { assert IsWordChar(s[a]); }
        ChainEndSound(s, e, width, at, None);
      }
      ChainSearchSound(s, a + 1, width, at);
    }
  }

  /** The match of the multi-word pattern, with the optional dot `\.?`. */
  function ChainMatch(s: string, last: string): (m: Option<string>)
    ensures m.Some? ==> Contains(s, m.value) && |m.value| > |last|
  {
    ChainSearchSound(s, 0, |last|, LastAtFn(s, last));
    match ChainSearch(s, 0, |last|, LastAtFn(s, last))
    case None => None
    case Some((b, e)) =>
      var e' := if e < |s| && s[e] == '.' then e + 1 else e;
      assert OccursAt(s, s[b..e'], b);
      Some(s[b..e'])
  }

  /**
   * pattern.search for \b\w{2,maxLen}\b from a on: the first whole word whose
   * length is between 2 and maxLen.
   */
  function ShortWordSearch(s: string, a: nat, maxLen: nat): (r: Option<(nat, nat)>)
    requires a <= |s|
    ensures r.Some? ==> var (b, e) := r.value;
      a <= b < |s| && WordStart(s, b) && e == RunEnd(s, b) && 2 <= e - b <= maxLen
    decreases |s| - a
  {
    if a == |s| then None
    else if WordStart(s, a) && 2 <= RunEnd(s, a) - a <= maxLen then Some((a, RunEnd(s, a)))
    else ShortWordSearch(s, a + 1, maxLen)
  }

  // ---------------------------------------------------------------------------
  // restore_names

  /** A corrupted form found in the text (with or without trailing dots) is replaced by the name everywhere. */
  function FixCorruption(result: string, name: string, corrupted: string): string
  {
    var clean := RStripChars(corrupted, {'.'});
    if Contains(result, corrupted) || Contains(result, clean) then
      ReplaceAll(ReplaceAll(result, clean, name), corrupted, name)
    else result
  }

  /** The corruption loop over the first n corrupted forms. */
  function FixCorruptions(result: string, name: string, forms: seq<string>, n: nat): string
    requires n <= |forms|
  {
    if n == 0 then result else FixCorruption(FixCorruptions(result, name, forms, n - 1), name, forms[n - 1])
  }

  /** The corruption forms of a name, or none. */
  function FormsOf(name: string): seq<string>
  {
    if name in CorruptionMap then CorruptionMap[name] else []
  }

  lemma PrefixOccurs(s: string, m: string, p: string)
    requires Contains(s, m) && |p| <= |m| && p == m[..|p|]
    ensures Contains(s, p)
  {
    var i :| 0 <= i <= |s| - |m| && OccursAt(s, m, i);
    assert s[i..i + |p|] == m[..|p|];
    assert OccursAt(s, p, i);
  }

  /** The fuzzy replacement for one name, after the corruption loop. */
  function FuzzyRestore(result: string, name: string): (r: string)
    ensures r == result || Contains(r, name)
  {
    var words := Words(name);
    if |words| >= 2 then
      match ChainMatch(result, words[|words| - 1])
      case Some(m) =>
        if IsLikelyMatch(name, m) then
          var target := RStripChars(m, {'.'});
          PrefixOccurs(result, m, target);
          ReplaceFirstInserts(result, target, name);
          ReplaceFirst(result, target, name)
        else result
      case None => result
    else
      match ShortWordSearch(result, 0, |name| + 10)
      case Some((b, e)) =>
        if IsSimilar(name, result[b..e]) then
          assert OccursAt(result, result[b..e], b);
          ReplaceFirstInserts(result, result[b..e], name);
          ReplaceFirst(result, result[b..e], name)
        else result
      case None => result
  }

  /** One name of restore_names: its corruptions, then the fuzzy replacement. */
  function RestoreOne(result: string, name: string): string
  {
    FuzzyRestore(FixCorruptions(result, name, FormsOf(name), |FormsOf(name)|), name)
  }

  /** The names loop of restore_names over the first n names. */
  function RestoreAll(result: string, names: seq<string>, n: nat): string
    requires n <= |names|
  {
    if n == 0 then result else RestoreOne(RestoreAll(result, names, n - 1), names[n - 1])
  }

  /** restore_names(original, translated), with the name pattern matches of the original. */
  function RestoreNamesSpec(original: string, translated: string, candidates: seq<string>): string
  {
    var names := ExtractNamesSpec(original, candidates);
    RestoreAll(translated, names, |names|)
  }

  /**
   * The last name restored is in the text whenever its fuzzy replacement
   * fired; an original without names leaves the translation as it is.
   */
  lemma RestoreLastName(result: string, names: seq<string>)
    requires names != []
    ensures var before := FixCorruptions(RestoreAll(result, names, |names| - 1), names[|names| - 1],
                                         FormsOf(names[|names| - 1]), |FormsOf(names[|names| - 1])|);
      var r := RestoreAll(result, names, |names|);
      r == before || Contains(r, names[|names| - 1])
  {
  }

  lemma RestoreNoNames(original: string, translated: string, candidates: seq<string>)
    requires ExtractNamesSpec(original, candidates) == []
    ensures RestoreNamesSpec(original, translated, candidates) == translated
  {
  }

  /** The corruption loop as the program runs it. */
  method FixCorruptionsLoop(result: string, name: string) returns (r: string)
    ensures r == FixCorruptions(result, name, FormsOf(name), |FormsOf(name)|)
  {
    r := result;
    if name in CorruptionMap {
      var forms := CorruptionMap[name];
      for i := 0 to |forms|
        invariant r == FixCorruptions(result, name, forms, i)
      {
        var corrupted := forms[i];
        var clean := RStripChars(corrupted, {'.'});
        if Contains(r, corrupted) || Contains(r, clean) {
          r := ReplaceAll(r, clean, name);
          r := ReplaceAll(r, corrupted, name);
        }
      }
    }
  }

  /** restore_names as the program runs it: extract, then one pass per name. */
  method RestoreNames(original: string, translated: string, candidates: seq<string>) returns (r: string)
    ensures r == RestoreNamesSpec(original, translated, candidates)
  {
    var names := ExtractNames(original, candidates);
    r := translated;
    for i := 0 to |names|
      invariant r == RestoreAll(translated, names, i)
    {
      r := FixCorruptionsLoop(r, names[i]);
      r := FuzzyRestore(r, names[i]);
    }
  }
}
