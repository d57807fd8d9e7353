/**
 * The parts of Python's string behaviour that the modelled code relies on:
 * whitespace and letter classes, strip, split, join, find, slicing with
 * Python's clamping rules, replace, and case mapping.
 *
 * Character classes cover ASCII and Latin-1. Case mapping pairs the ASCII
 * letters and the Latin-1 letters À-Þ with à-þ (the accented letters of
 * Spanish and Portuguese); the Latin-1 lower-case letters ª, µ, º, ß and ÿ
 * count as cased and lower case but map to themselves, and every character
 * beyond Latin-1 is treated as uncased.
 */
module TextUtil {

  // ---------------------------------------------------------------------------
  // Character classes

  /** Python's str.isspace() (and the `\s` class of `re` on str patterns). */
  predicate IsSpace(c: char)
  {
    c == ' ' || c == '\t' || c == '\n' || c == '\r' || c == '\U{000B}' || c == '\U{000C}'
    || ('\U{001C}' <= c <= '\U{001F}') || c == '\U{0085}' || c == '\U{00A0}' || c == '\U{1680}'
    || ('\U{2000}' <= c <= '\U{200A}') || c == '\U{2028}' || c == '\U{2029}' || c == '\U{202F}'
    || c == '\U{205F}' || c == '\U{3000}'
  }

  predicate IsDigit(c: char)
  {
    '0' <= c <= '9'
  }

  /** Upper-case letters: A-Z and the Latin-1 letters À-Þ (without ×). */
  predicate IsUpperLetter(c: char)
  {
    ('A' <= c <= 'Z') || ('\U{00C0}' <= c <= '\U{00DE}' && c != '\U{00D7}')
  }

  /** Lower-case letters with a one-character upper case: a-z and à-þ (without ÷). */
  predicate IsLowerLetter(c: char)
  {
    ('a' <= c <= 'z') || ('\U{00E0}' <= c <= '\U{00FE}' && c != '\U{00F7}')
  }

  /** Latin-1 lower-case letters without a one-character Latin-1 upper case: ª µ º ß ÿ. */
  predicate IsOtherLower(c: char)
  {
    c == '\U{00AA}' || c == '\U{00B5}' || c == '\U{00BA}' || c == '\U{00DF}' || c == '\U{00FF}'
  }

  /** str.islower() on one character. */
  predicate IsLower(c: char)
  {
    IsLowerLetter(c) || IsOtherLower(c)
  }

  predicate IsCased(c: char)
  {
    IsUpperLetter(c) || IsLower(c)
  }

  /** Latin-1 numeric characters that are not decimal digits: ² ³ ¹ ¼ ½ ¾. */
  predicate IsOtherNumeric(c: char)
  {
    c == '\U{00B2}' || c == '\U{00B3}' || c == '\U{00B9}' || ('\U{00BC}' <= c <= '\U{00BE}')
  }

  /** The `\w` class of `re` on str patterns: letters, digits, other numerics and the underscore. */
  predicate IsWordChar(c: char)
  {
    IsCased(c) || IsDigit(c) || IsOtherNumeric(c) || c == '_'
  }

  function LowerChar(c: char): (r: char)
    ensures !IsUpperLetter(r)
    ensures IsCased(c) <==> IsCased(r)
    ensures !IsUpperLetter(c) ==> r == c
  {
    if IsUpperLetter(c) then (c as int + 32) as char else c
  }

  function UpperChar(c: char): (r: char)
    ensures !IsLowerLetter(r)
    ensures IsCased(c) <==> IsCased(r)
    ensures !IsLowerLetter(c) ==> r == c
  {
    if IsLowerLetter(c) then (c as int - 32) as char else c
  }

  /** str.lower() */
  function Lower(s: string): (r: string)
    ensures |r| == |s|
    ensures forall i :: 0 <= i < |s| ==> r[i] == LowerChar(s[i])
  {
    seq(|s|, i requires 0 <= i < |s| => LowerChar(s[i]))
  }

  /** str.upper() */
  function Upper(s: string): (r: string)
    ensures |r| == |s|
    ensures forall i :: 0 <= i < |s| ==> r[i] == UpperChar(s[i])
  {
    seq(|s|, i requires 0 <= i < |s| => UpperChar(s[i]))
  }

  /** Lower-casing twice is lower-casing once. */
  lemma LowerIdempotent(s: string)
    ensures Lower(Lower(s)) == Lower(s)
  {
  }

  /** Lower-casing works character by character, so it distributes over concatenation. */
  lemma LowerAppend(a: string, b: string)
    ensures Lower(a + b) == Lower(a) + Lower(b)
  {
    assert forall i :: 0 <= i < |a| ==> (a + b)[i] == a[i];
    assert forall i :: |a| <= i < |a| + |b| ==> (a + b)[i] == b[i - |a|];
  }

  /** Lower-casing a non-empty string lower-cases its first character and the rest. */
  lemma LowerCons(s: string)
    requires s != []
    ensures Lower(s) == [LowerChar(s[0])] + Lower(s[1..])
  {
  }

  /** Lower-casing a non-empty string lower-cases its front and its last character. */
  lemma LowerSnoc(s: string)
    requires s != []
    ensures Lower(s)[..|s| - 1] == Lower(s[..|s| - 1]) && Lower(s)[|s| - 1] == LowerChar(s[|s| - 1])
  {
  }

  /** Two strings built from a first character and a rest are equal exactly when both parts are. */
  lemma ConsEqual(c: char, d: char, x: string, y: string)
    ensures [c] + x == [d] + y <==> c == d && x == y
  {
    if [c] + x == [d] + y {
      assert ([c] + x)[0] == c && ([d] + y)[0] == d;
      assert ([c] + x)[1..] == x && ([d] + y)[1..] == y;
    }
  }

  /** A lower-cased string ends with an uncased character exactly when the string does. */
  lemma LowerEndsWith(s: string, p: string)
    requires |p| == 1 && !IsCased(p[0])
    ensures EndsWith(Lower(s), p) <==> EndsWith(s, p)
  {
    if s != [] {
      assert Lower(s)[|s| - 1..] == [LowerChar(s[|s| - 1])];
      assert s[|s| - 1..] == [s[|s| - 1]];
    }
  }

  /** A string without cased characters is its own lower case. */
  lemma LowerOfUncased(s: string)
    requires forall k :: 0 <= k < |s| ==> !IsCased(s[k])
    ensures Lower(s) == s
  {
  }

  /** The words of a lower-cased text that opens with the word w. */
  lemma LowerWords(w: string, rest: string)
    requires w != [] && NoSpace(w) && (rest == [] || IsSpace(rest[0]))
    ensures Words(Lower(w + rest)) == [Lower(w)] + Words(Lower(rest))
  {
    LowerAppend(w, rest);
    forall k | 0 <= k < |w| ensures !IsSpace(Lower(w)[k]) {
      LowerKeepsSpace(w[k]);
    }
    if rest != [] {
      LowerKeepsSpace(rest[0]);
    }
    WordsOfTokenThen(Lower(w), Lower(rest));
  }

  /** Lower-casing neither makes nor removes whitespace. */
  lemma LowerKeepsSpace(c: char)
    ensures IsSpace(LowerChar(c)) <==> IsSpace(c)
  {
  }

  /** An uncased character occurs in the lower-cased string exactly where it occurs in the string. */
  lemma LowerHas(s: string, c: char)
    requires !IsCased(c)
    ensures c in Lower(s) <==> c in s
  {
    if c in Lower(s) {
      var i :| 0 <= i < |s| && Lower(s)[i] == c;
      assert s[i] == c;
    }
    if c in s {
      var i :| 0 <= i < |s| && s[i] == c;
      assert Lower(s)[i] == c;
    }
  }

  lemma {:induction false} LStripLower(s: string)
    ensures LStrip(Lower(s)) == Lower(LStrip(s))
  {
    if |s| > 0 {
      LowerKeepsSpace(s[0]);
      if IsSpace(s[0]) {
        assert Lower(s)[1..] == Lower(s[1..]);
        LStripLower(s[1..]);
      }
    }
  }

  lemma {:induction false} RStripLower(s: string)
    ensures RStrip(Lower(s)) == Lower(RStrip(s))
  {
    if |s| > 0 {
      LowerSnoc(s);
      LowerKeepsSpace(s[|s| - 1]);
      if IsSpace(s[|s| - 1]) {
        RStripLower(s[..|s| - 1]);
      }
    }
  }

  /** Stripping and lower-casing commute. */
  lemma StripLower(s: string)
    ensures Strip(Lower(s)) == Lower(Strip(s))
  {
    LStripLower(s);
    RStripLower(LStrip(s));
  }

  /** str.isupper(): some cased character, and no lower-case one. */
  predicate IsUpperString(s: string)
  {
    (exists i :: 0 <= i < |s| && IsCased(s[i]))
    && (forall i :: 0 <= i < |s| ==> !IsLower(s[i]))
  }

  predicate AllSpace(s: string)
  {
    forall i :: 0 <= i < |s| ==> IsSpace(s[i])
  }

  predicate NoSpace(s: string)
  {
    forall i :: 0 <= i < |s| ==> !IsSpace(s[i])
  }

  // ---------------------------------------------------------------------------
  // strip

  /** str.lstrip() */
  function LStrip(s: string): (r: string)
    ensures |r| <= |s| && r == s[|s| - |r|..]
    ensures AllSpace(s[..|s| - |r|])
    ensures r == [] || !IsSpace(r[0])
  {
    if |s| > 0 && IsSpace(s[0]) then
      var r := LStrip(s[1..]);
      LStripStep(s, r);
      r
    else s
  }

  lemma LStripStep(s: string, r: string)
    requires |s| > 0 && IsSpace(s[0])
    requires |r| <= |s| - 1 && r == s[1..][|s| - 1 - |r|..] && AllSpace(s[1..][..|s| - 1 - |r|])
    ensures r == s[|s| - |r|..] && AllSpace(s[..|s| - |r|])
  {
    assert s[1..][|s| - 1 - |r|..] == s[|s| - |r|..];
    forall k | 0 < k < |s| - |r| ensures IsSpace(s[k]) {
      assert s[k] == s[1..][..|s| - 1 - |r|][k - 1];
    }
  }

  /** str.rstrip() */
  function RStrip(s: string): (r: string)
    ensures |r| <= |s| && r == s[..|r|]
    ensures AllSpace(s[|r|..])
    ensures r == [] || !IsSpace(r[|r| - 1])
  {
    if |s| > 0 && IsSpace(s[|s| - 1]) then
      var r := RStrip(s[..|s| - 1]);
      RStripStep(s, r);
      r
    else s
  }

  lemma RStripStep(s: string, r: string)
    requires |s| > 0 && IsSpace(s[|s| - 1])
    requires |r| <= |s| - 1 && r == s[..|s| - 1][..|r|] && AllSpace(s[..|s| - 1][|r|..])
    ensures r == s[..|r|] && AllSpace(s[|r|..])
  {
    forall k | |r| <= k < |s| ensures IsSpace(s[k]) {
      if k < |s| - 1 {
        assert s[k] == s[..|s| - 1][|r|..][k - |r|];
      }
    }
  }

  /** str.strip() */
  function Strip(s: string): (r: string)
    ensures |r| <= |s|
    ensures r == [] || (!IsSpace(r[0]) && !IsSpace(r[|r| - 1]))
  {
    RStrip(LStrip(s))
  }

  /** str.lstrip(chars) */
  function LStripChars(s: string, chars: set<char>): (r: string)
    ensures |r| <= |s| && r == s[|s| - |r|..]
    ensures r == [] || r[0] !in chars
  {
    if |s| > 0 && s[0] in chars then LStripChars(s[1..], chars) else s
  }

  /** str.rstrip(chars) */
  function RStripChars(s: string, chars: set<char>): (r: string)
    ensures |r| <= |s| && r == s[..|r|]
    ensures r == [] || r[|r| - 1] !in chars
  {
    if |s| > 0 && s[|s| - 1] in chars then RStripChars(s[..|s| - 1], chars) else s
  }

  lemma NotInSuffix(x: string, i: nat, c: char)
    requires i <= |x| && c !in x
    ensures c !in x[i..]
  {
    forall k | 0 <= k < |x| - i
      ensures x[i..][k] != c
    {
      assert x[i..][k] == x[i + k];
    }
  }

  lemma NotInPrefix(x: string, j: nat, c: char)
    requires j <= |x| && c !in x
    ensures c !in x[..j]
  {
    forall k | 0 <= k < j
      ensures x[..j][k] != c
    {
      assert x[..j][k] == x[k];
    }
  }

  /** Stripping a string adds no character to it. */
  lemma StripKeepsOut(x: string, c: char)
    requires c !in x
    ensures c !in Strip(x) && c !in LStrip(x)
  {
    var l := LStrip(x);
    NotInSuffix(x, |x| - |l|, c);
    var r := RStrip(l);
    NotInPrefix(l, |r|, c);
  }

  /** str.lstrip() keeps every character that is not whitespace, at its place in the rest. */
  lemma {:induction false} LStripKeepsIn(s: string, i: nat)
    requires i < |s| && !IsSpace(s[i])
    ensures |s| - |LStrip(s)| <= i && LStrip(s)[i - (|s| - |LStrip(s)|)] == s[i]
  {
    if IsSpace(s[0]) {
      LStripKeepsIn(s[1..], i - 1);
    }
  }

  /** str.rstrip() keeps every character that is not whitespace, at its index. */
  lemma {:induction false} RStripKeepsIn(s: string, i: nat)
    requires i < |s| && !IsSpace(s[i])
    ensures i < |RStrip(s)| && RStrip(s)[i] == s[i]
  {
    if IsSpace(s[|s| - 1]) {
      RStripKeepsIn(s[..|s| - 1], i);
    }
  }

  /** Stripping keeps every character that is not whitespace. */
  lemma StripKeepsIn(s: string, i: nat)
    requires i < |s| && !IsSpace(s[i])
    ensures s[i] in Strip(s)
  {
    LStripKeepsIn(s, i);
    RStripKeepsIn(LStrip(s), i - (|s| - |LStrip(s)|));
  }

  lemma StripOfSpaceIsEmpty(s: string)
    requires AllSpace(s)
    ensures LStrip(s) == [] && Strip(s) == []
  {
  }

  // ---------------------------------------------------------------------------
  // split (on whitespace), join

  /** Number of leading characters that are not whitespace. */
  function TokenLen(s: string): (n: nat)
    ensures n <= |s|
    ensures NoSpace(s[..n])
    ensures n == |s| || IsSpace(s[n])
  {
    if |s| == 0 || IsSpace(s[0]) then 0 else 1 + TokenLen(s[1..])
  }

  /** A list of non-empty strings without whitespace, as str.split() returns. */
  predicate IsWordList(ws: seq<string>)
  {
    forall k :: 0 <= k < |ws| ==> ws[k] != [] && NoSpace(ws[k])
  }

  /** Number of leading whitespace characters. */
  function SpaceLen(s: string): (n: nat)
    ensures n <= |s|
    ensures AllSpace(s[..n])
    ensures n == |s| || !IsSpace(s[n])
  {
    if |s| == 0 || !IsSpace(s[0]) then 0 else 1 + SpaceLen(s[1..])
  }

  /** str.split() with no argument. */
  function Words(s: string): (ws: seq<string>)
    ensures IsWordList(ws)
    decreases |s|
  {
    if s == [] then []
    else if IsSpace(s[0]) then Words(s[1..])
    else
      var n := TokenLen(s);
      var rest := Words(s[n..]);
      assert IsWordList([s[..n]] + rest) by {
        forall k | 0 <= k < 1 + |rest|
          ensures ([s[..n]] + rest)[k] != [] && NoSpace(([s[..n]] + rest)[k])
        {
          if k > 0 { assert ([s[..n]] + rest)[k] == rest[k - 1]; }
        }
      }
      [s[..n]] + rest
  }

  /** sep.join(parts) */
  function Join(sep: string, parts: seq<string>): string
  {
    if |parts| == 0 then []
    else if |parts| == 1 then parts[0]
    else parts[0] + sep + Join(sep, parts[1..])
  }

  lemma JoinStartsWithFirst(sep: string, parts: seq<string>)
    requires |parts| >= 1
    ensures StartsWith(Join(sep, parts), parts[0])
  {
    if |parts| > 1 {
      assert Join(sep, parts)[..|parts[0]|] == parts[0];
    }
  }

  lemma {:induction false} JoinEndsWithLast(sep: string, parts: seq<string>)
    requires |parts| >= 1
    ensures EndsWith(Join(sep, parts), parts[|parts| - 1])
  {
    if |parts| > 1 {
      JoinEndsWithLast(sep, parts[1..]);
      var j := Join(sep, parts[1..]);
      var s := parts[0] + sep + j;
      var last := parts[|parts| - 1];
      assert s[|s| - |last|..] == j[|j| - |last|..];
    }
  }

  /** A string made of n copies of c (Python's c * n; empty when n <= 0). */
  function Repeat(c: char, n: int): (r: string)
    ensures |r| == if n <= 0 then 0 else n
    ensures forall i :: 0 <= i < |r| ==> r[i] == c
  {
    if n <= 0 then [] else [c] + Repeat(c, n - 1)
  }

  lemma WordsOfSpace(s: string)
    requires AllSpace(s)
    ensures Words(s) == []
  {
  }

  lemma {:induction false} TokenLenOfNoSpace(w: string)
    requires NoSpace(w)
    ensures TokenLen(w) == |w|
  {
    if |w| > 0 {
      TokenLenOfNoSpace(w[1..]);
    }
  }

  lemma {:induction false} TokenLenOfTokenThenSpace(w: string, rest: string)
    requires NoSpace(w) && |rest| > 0 && IsSpace(rest[0])
    ensures TokenLen(w + rest) == |w|
  {
    if |w| > 0 {
      assert (w + rest)[1..] == w[1..] + rest;
      TokenLenOfTokenThenSpace(w[1..], rest);
    } else {
      assert w + rest == rest;
    }
  }

  /** A token that ends inside x is not extended by what follows x. */
  lemma {:induction false} TokenLenAppend(x: string, y: string)
    requires TokenLen(x) < |x|
    ensures TokenLen(x + y) == TokenLen(x)
  {
    if !IsSpace(x[0]) {
      assert (x + y)[1..] == x[1..] + y;
      TokenLenAppend(x[1..], y);
    }
  }

  lemma WordsOfToken(w: string)
    requires w != [] && NoSpace(w)
    ensures Words(w) == [w]
  {
    TokenLenOfNoSpace(w);
    assert w[..|w|] == w;
  }

  /** Leading whitespace does not change str.split(). */
  lemma {:induction false} WordsSkipsLeadingSpace(a: string, b: string)
    requires AllSpace(a)
    ensures Words(a + b) == Words(b)
  {
    if |a| > 0 {
      assert (a + b)[1..] == a[1..] + b;
      WordsSkipsLeadingSpace(a[1..], b);
    } else {
      assert a + b == b;
    }
  }

  /** Words of a string that starts with a whole word. */
  lemma WordsOfTokenThen(w: string, rest: string)
    requires w != [] && NoSpace(w) && (rest == [] || IsSpace(rest[0]))
    ensures Words(w + rest) == [w] + Words(rest)
  {
    if rest == [] {
      WordsOfToken(w);
      assert w + rest == w;
    } else {
      TokenLenOfTokenThenSpace(w, rest);
      assert (w + rest)[..|w|] == w;
      assert (w + rest)[|w|..] == rest;
    }
  }

  /** str.split() undoes ' '.join() of words. */
  lemma {:induction false} WordsOfJoin(ws: seq<string>)
    requires IsWordList(ws)
    ensures Words(Join(" ", ws)) == ws
  {
    if |ws| == 1 {
      WordsOfToken(ws[0]);
    } else if |ws| > 1 {
      var tail := Join(" ", ws[1..]);
      WordsOfJoin(ws[1..]);
      assert ws[0] + " " + tail == ws[0] + (" " + tail);
      WordsOfTokenThen(ws[0], " " + tail);
      WordsSkipsLeadingSpace(" ", tail);
    }
  }

  /** str.split() of a, then a whitespace run, then b: the words of a followed by those of b. */
  lemma {:induction false} WordsOfSpaceSep(a: string, sp: string, b: string)
    requires sp != [] && AllSpace(sp)
    ensures Words(a + sp + b) == Words(a) + Words(b)
    decreases |a|
  {
    if a == [] {
      assert a + sp + b == sp + b;
      WordsSkipsLeadingSpace(sp, b);
    } else if IsSpace(a[0]) {
      WordsOfSpaceSep(a[1..], sp, b);
      SpaceSepAfterSpace(a, sp, b);
    } else if TokenLen(a) == |a| {
      SpaceSepAfterToken(a, sp, b);
    } else {
      var n := TokenLen(a);
      WordsOfSpaceSep(a[n..], sp, b);
      SpaceSepTokenFirst(a, sp, b);
    }
  }

  lemma SpaceSepAfterSpace(a: string, sp: string, b: string)
    requires a != [] && IsSpace(a[0])
    requires Words(a[1..] + sp + b) == Words(a[1..]) + Words(b)
    ensures Words(a + sp + b) == Words(a) + Words(b)
  {
    assert (a + sp + b)[1..] == a[1..] + sp + b;
  }

  lemma SpaceSepAfterToken(a: string, sp: string, b: string)
    requires sp != [] && AllSpace(sp)
    requires a != [] && !IsSpace(a[0]) && TokenLen(a) == |a|
    ensures Words(a + sp + b) == Words(a) + Words(b)
  {
    assert a + sp + b == a + (sp + b);
    assert IsSpace((sp + b)[0]);
    WordsOfTokenThen(a, sp + b);
    WordsSkipsLeadingSpace(sp, b);
    WordsOfToken(a);
  }

  lemma SpaceSepTokenFirst(a: string, sp: string, b: string)
    requires a != [] && !IsSpace(a[0]) && TokenLen(a) < |a|
    requires Words(a[TokenLen(a)..] + sp + b) == Words(a[TokenLen(a)..]) + Words(b)
    ensures Words(a + sp + b) == Words(a) + Words(b)
  {
    var s := a + sp + b;
    var n := TokenLen(a);
    assert s == a + (sp + b);
    TokenLenAppend(a, sp + b);
    assert s[..n] == a[..n];
    assert s[n..] == a[n..] + sp + b;
  }

  /** Trailing whitespace does not change str.split(). */
  lemma WordsIgnoresTrailingSpace(a: string, sp: string)
    requires AllSpace(sp)
    ensures Words(a + sp) == Words(a)
  {
    if sp != [] {
      WordsOfSpaceSep(a, sp, []);
      assert a + sp + [] == a + sp;
    } else {
      assert a + sp == a;
    }
  }

  lemma WordsOfLStrip(s: string)
    ensures Words(LStrip(s)) == Words(s)
  {
    var t := LStrip(s);
    var pre := s[..|s| - |t|];
    assert s == pre + t;
    WordsSkipsLeadingSpace(pre, t);
  }

  lemma WordsOfRStrip(s: string)
    ensures Words(RStrip(s)) == Words(s)
  {
    var r := RStrip(s);
    var post := s[|r|..];
    assert s == r + post;
    WordsIgnoresTrailingSpace(r, post);
  }

  /** Stripping does not change str.split(). */
  lemma WordsOfStrip(s: string)
    ensures Words(Strip(s)) == Words(s)
  {
    WordsOfLStrip(s);
    WordsOfRStrip(LStrip(s));
  }

  /** Cutting s[start..] out around a whitespace run keeps its words. */
  lemma WordsAroundRun(s: string, start: nat, i: nat, q: nat)
    requires start <= i < q <= |s| && AllSpace(s[i..q])
    ensures Words(s[start..]) == Words(s[start..i]) + Words(s[q..])
  {
    assert s[start..] == s[start..i] + s[i..q] + s[q..];
    WordsOfSpaceSep(s[start..i], s[i..q], s[q..]);
  }

  /** The words of each string of ss, concatenated. */
  function AllWords(ss: seq<string>): (ws: seq<string>)
    ensures IsWordList(ws)
  {
    if ss == [] then []
    else
      var a := Words(ss[0]);
      var b := AllWords(ss[1..]);
      assert forall k :: |a| <= k < |a| + |b| ==> (a + b)[k] == b[k - |a|];
      a + b
  }

  lemma SingleWords(s: string)
    ensures AllWords([s]) == Words(s)
  {
    assert [s][1..] == [];
  }

  lemma {:induction false} AllWordsAppend(xs: seq<string>, ys: seq<string>)
    ensures AllWords(xs + ys) == AllWords(xs) + AllWords(ys)
  {
    if xs == [] {
      assert xs + ys == ys;
    } else {
      assert (xs + ys)[1..] == xs[1..] + ys;
      AllWordsAppend(xs[1..], ys);
    }
  }

  /** Cutting s at a run of whitespace: the piece before it and the pieces after it hold the words of s. */
  lemma CutWords(s: string, start: nat, i: nat, q: nat, rest: seq<string>)
    requires start <= i < q <= |s| && AllSpace(s[i..q])
    requires AllWords(rest) == Words(s[q..])
    ensures AllWords([s[start..i]] + rest) == Words(s[start..])
  {
    WordsAroundRun(s, start, i, q);
    assert ([s[start..i]] + rest)[1..] == rest;
    assert AllWords([s[start..i]] + rest) == Words(s[start..i]) + AllWords(rest);
  }

  /** Every separator that cut finds inside s is whitespace. */
  predicate SpaceCuts(s: string, cut: (string, nat) -> nat)
  {
    forall j :: 0 <= j < |s| && 0 < cut(s, j) <= |s| - j ==> AllSpace(s[j..j + cut(s, j)])
  }

  /**
   * The pieces of s[start..] that a regular-expression split leaves, scanning
   * from i: cut(s, j) is the length of the separator that matches at j, or 0
   * when none does.
   */
  function Pieces(s: string, start: nat, i: nat, cut: (string, nat) -> nat): (ps: seq<string>)
    requires start <= i <= |s|
    ensures |ps| >= 1
    decreases |s| - i
  {
    if i == |s| then [s[start..]]
    else if 0 < cut(s, i) <= |s| - i then [s[start..i]] + Pieces(s, i + cut(s, i), i + cut(s, i), cut)
    else Pieces(s, start, i + 1, cut)
  }

  /** Splitting at whitespace separators keeps the words of the text, in order. */
  lemma {:induction false} PiecesWords(s: string, start: nat, i: nat, cut: (string, nat) -> nat)
    requires start <= i <= |s| && SpaceCuts(s, cut)
    ensures AllWords(Pieces(s, start, i, cut)) == Words(s[start..])
    decreases |s| - i
  {
    if i == |s| {
      SingleWords(s[start..]);
    } else if 0 < cut(s, i) <= |s| - i {
      var q := i + cut(s, i);
      PiecesWords(s, q, q, cut);
      CutWords(s, start, i, q, Pieces(s, q, q, cut));
    } else {
      PiecesWords(s, start, i + 1, cut);
    }
  }

  /** `s.strip()` is truthy: s holds something besides whitespace. */
  predicate HasText(s: string)
  {
    Strip(s) != []
  }

  /** A string with nothing but whitespace has no words. */
  lemma WordsOfBlank(s: string)
    requires !HasText(s)
    ensures Words(s) == []
  {
    WordsOfStrip(s);
  }

  /** A non-empty string with no whitespace at either end: a fixed point of strip(). */
  predicate IsStrippedNonEmpty(t: string)
  {
    t != [] && !IsSpace(t[0]) && !IsSpace(t[|t| - 1])
  }

  lemma StripOfStripped(t: string)
    requires IsStrippedNonEmpty(t)
    ensures Strip(t) == t
  {
    assert LStrip(t) == t;
  }

  /** [p.strip() for p in pieces if p.strip()] */
  function StrippedNonEmpty(pieces: seq<string>): (r: seq<string>)
    ensures forall k :: 0 <= k < |r| ==> IsStrippedNonEmpty(r[k])
  {
    if pieces == [] then []
    else
      var t := Strip(pieces[0]);
      var rest := StrippedNonEmpty(pieces[1..]);
      if t == [] then rest
      else
        StrippedCons(t, rest);
        [t] + rest
  }

  lemma StrippedCons(t: string, rest: seq<string>)
    requires t != [] && !IsSpace(t[0]) && !IsSpace(t[|t| - 1])
    requires forall k :: 0 <= k < |rest| ==> IsStrippedNonEmpty(rest[k])
    ensures forall k :: 0 <= k < |[t] + rest| ==> IsStrippedNonEmpty(([t] + rest)[k])
  {
    forall k | 0 <= k < |[t] + rest| ensures IsStrippedNonEmpty(([t] + rest)[k]) {
      if k > 0 { assert ([t] + rest)[k] == rest[k - 1]; }
    }
  }

  /** Stripping the pieces and dropping blank ones keeps every word, in order. */
  lemma {:induction false} StrippedNonEmptyWords(pieces: seq<string>)
    ensures AllWords(StrippedNonEmpty(pieces)) == AllWords(pieces)
  {
    if pieces != [] {
      var t := Strip(pieces[0]);
      var rest := StrippedNonEmpty(pieces[1..]);
      StrippedNonEmptyWords(pieces[1..]);
      WordsOfStrip(pieces[0]);
      assert AllWords(pieces) == Words(pieces[0]) + AllWords(pieces[1..]);
      if t == [] {
        assert Words(pieces[0]) == [];
      } else {
        assert ([t] + rest)[1..] == rest;
        assert AllWords([t] + rest) == Words(t) + AllWords(rest);
      }
    }
  }

  // ---------------------------------------------------------------------------
  // split on one separator character, find, startswith

  /** s.split(c) for a one-character separator: always at least one piece. */
  function SplitOn(s: string, c: char): (ps: seq<string>)
    ensures |ps| >= 1
    ensures forall k :: 0 <= k < |ps| ==> c !in ps[k]
    decreases |s|
  {
    if c !in s then [s]
    else
      var i := IndexOf(s, c);
      [s[..i]] + SplitOn(s[i + 1..], c)
  }

  /** Position of the first occurrence of c. */
  function IndexOf(s: string, c: char): (i: nat)
    requires c in s
    ensures i < |s| && s[i] == c && c !in s[..i]
  {
    if s[0] == c then 0 else 1 + IndexOf(s[1..], c)
  }

  lemma {:induction false} IndexOfAfterPrefix(p: string, c: char, rest: string)
    requires c !in p
    ensures c in p + [c] + rest && IndexOf(p + [c] + rest, c) == |p|
  {
    var s := p + [c] + rest;
    assert s[|p|] == c;
    if p != [] {
      assert s[1..] == p[1..] + [c] + rest;
      IndexOfAfterPrefix(p[1..], c, rest);
    }
  }

  /** Splitting a line, a separator and the rest: the line, then the rest's pieces. */
  lemma SplitOnCons(line: string, c: char, rest: string)
    requires c !in line
    ensures SplitOn(line + [c] + rest, c) == [line] + SplitOn(rest, c)
  {
    var s := line + [c] + rest;
    IndexOfAfterPrefix(line, c, rest);
    assert s[..|line|] == line && s[|line| + 1..] == rest;
  }

  /** c.join(s.split(c)) gives back s. */
  lemma {:induction false} JoinSplitOn(s: string, c: char)
    ensures Join([c], SplitOn(s, c)) == s
    decreases |s|
  {
    if c in s {
      var i := IndexOf(s, c);
      JoinSplitOn(s[i + 1..], c);
      JoinCons(c, s[..i], SplitOn(s[i + 1..], c));
      assert s == s[..i] + [c] + s[i + 1..];
    }
  }

  lemma JoinCons(c: char, head: string, rest: seq<string>)
    requires |rest| >= 1
    ensures Join([c], [head] + rest) == head + [c] + Join([c], rest)
  {
    assert ([head] + rest)[1..] == rest;
  }

  /** s.split(c) undoes c.join(parts) when no part contains c. */
  lemma {:induction false} SplitOnJoin(parts: seq<string>, c: char)
    requires |parts| >= 1
    requires forall k :: 0 <= k < |parts| ==> c !in parts[k]
    ensures SplitOn(Join([c], parts), c) == parts
  {
    if |parts| > 1 {
      var s := Join([c], parts);
      var p := parts[0];
      assert s == p + [c] + Join([c], parts[1..]);
      assert s[|p|] == c;
      assert c in s;
      assert s[..|p|] == p;
      IndexOfAfterPrefix(p, c, Join([c], parts[1..]));
      assert s[|p| + 1..] == Join([c], parts[1..]);
      SplitOnJoin(parts[1..], c);
    }
  }

  predicate StartsWith(s: string, p: string)
  {
    |p| <= |s| && s[..|p|] == p
  }

  predicate EndsWith(s: string, p: string)
  {
    |p| <= |s| && s[|s| - |p|..] == p
  }

  predicate OccursAt(s: string, sub: string, i: int)
  {
    0 <= i && i + |sub| <= |s| && s[i..i + |sub|] == sub
  }

  /** Python's `sub in s`. */
  predicate Contains(s: string, sub: string)
  {
    exists i | 0 <= i <= |s| - |sub| :: OccursAt(s, sub, i)
  }

  /** s.find(sub, start) for start >= 0: the least occurrence at or after start, or -1. */
  function Find(s: string, sub: string, start: nat): (r: int)
    ensures r == -1 || (start <= r && OccursAt(s, sub, r))
    ensures r == -1 ==> forall i :: start <= i ==> !OccursAt(s, sub, i)
    ensures r != -1 ==> forall i :: start <= i < r ==> !OccursAt(s, sub, i)
    decreases |s| - start
  {
    if start + |sub| > |s| then -1
    else if s[start..start + |sub|] == sub then start
    else Find(s, sub, start + 1)
  }

  lemma FindIsContains(s: string, sub: string)
    ensures Find(s, sub, 0) != -1 <==> Contains(s, sub)
  {
    if Contains(s, sub) {
      var i :| 0 <= i <= |s| - |sub| && OccursAt(s, sub, i);
    }
  }

  // ---------------------------------------------------------------------------
  // slicing with Python's index rules

  /** Normalises a Python slice bound: negative counts from the end, then clamps. */
  function SliceBound(len: nat, i: int): (b: nat)
    ensures b <= len
    ensures 0 <= i <= len ==> b == i
  {
    if i < 0 then (if i + len < 0 then 0 else i + len)
    else if i > len then len
    else i
  }

  /** s[i:j] */
  function PySlice<T>(s: seq<T>, i: int, j: int): (r: seq<T>)
    ensures 0 <= i <= j <= |s| ==> r == s[i..j]
    ensures |r| <= |s|
  {
    var lo := SliceBound(|s|, i);
    var hi := SliceBound(|s|, j);
    if lo >= hi then [] else s[lo..hi]
  }

  // ---------------------------------------------------------------------------
  // replace

  /** s.replace(pat, rep) */
  function ReplaceAll(s: string, pat: string, rep: string): string
    decreases |s|
  {
    if pat == [] then ReplaceEmpty(s, rep)
    else if |s| < |pat| then s
    else if s[..|pat|] == pat then rep + ReplaceAll(s[|pat|..], pat, rep)
    else [s[0]] + ReplaceAll(s[1..], pat, rep)
  }

  /** s.replace("", rep): rep before every character and at the end. */
  function ReplaceEmpty(s: string, rep: string): string
  {
    if s == [] then rep else rep + [s[0]] + ReplaceEmpty(s[1..], rep)
  }

  /** s.replace(pat, rep, 1) */
  function ReplaceFirst(s: string, pat: string, rep: string): (r: string)
    ensures !Contains(s, pat) ==> r == s
  {
    var i := Find(s, pat, 0);
    FindIsContains(s, pat);
    if i < 0 then s else s[..i] + rep + s[i + |pat|..]
  }

  /** When the pattern occurs, the replacement text occurs in the result. */
  lemma ReplaceFirstInserts(s: string, pat: string, rep: string)
    requires Contains(s, pat)
    ensures Contains(ReplaceFirst(s, pat, rep), rep)
  {
    var i := Find(s, pat, 0);
    assert 0 <= i && i + |pat| <= |s| by { FindIsContains(s, pat); }
    SpliceContains(s[..i], rep, s[i + |pat|..]);
  }

  lemma SpliceContains(a: string, rep: string, b: string)
    ensures Contains(a + rep + b, rep)
  {
    var r := a + rep + b;
    assert r[|a|..|a| + |rep|] == rep;
    assert OccursAt(r, rep, |a|);
  }

  /** Replacing the first occurrence of a string by itself changes nothing. */
  lemma ReplaceFirstSelf(s: string, x: string)
    ensures ReplaceFirst(s, x, x) == s
  {
    var i := Find(s, x, 0);
    if i >= 0 {
      assert s == s[..i] + s[i..i + |x|] + s[i + |x|..];
    }
  }

  /** Replacement of a string that does not occur changes nothing. */
  lemma {:induction false} ReplaceAllAbsent(s: string, pat: string, rep: string)
    requires pat != [] && !Contains(s, pat)
    ensures ReplaceAll(s, pat, rep) == s
    decreases |s|
  {
    if |s| >= |pat| {
      assert !OccursAt(s, pat, 0);
      assert !Contains(s[1..], pat) by {
        if Contains(s[1..], pat) {
          var i :| 0 <= i <= |s[1..]| - |pat| && OccursAt(s[1..], pat, i);
          assert s[i + 1..i + 1 + |pat|] == s[1..][i..i + |pat|];
          assert OccursAt(s, pat, i + 1);
        }
      }
      ReplaceAllAbsent(s[1..], pat, rep);
    }
  }

  // ---------------------------------------------------------------------------
  // numbers

  function DigitChar(d: nat): char
    requires d < 10
  {
    ('0' as int + d) as char
  }

  /** str(n) for n >= 0. */
  function NatToString(n: nat): (r: string)
    ensures |r| >= 1
    ensures forall i :: 0 <= i < |r| ==> IsDigit(r[i])
    ensures n < 10 <==> |r| == 1
  {
    if n < 10 then [DigitChar(n)] else NatToString(n / 10) + [DigitChar(n % 10)]
  }

  /** Value of a string of decimal digits. */
  function DigitsValue(s: string): nat
    requires forall i :: 0 <= i < |s| ==> IsDigit(s[i])
  {
    if s == [] then 0
    else
      var last := s[|s| - 1];
      assert IsDigit(last);
      10 * DigitsValue(s[..|s| - 1]) + (last as int - '0' as int)
  }

  lemma {:induction false} NatToStringValue(n: nat)
    ensures DigitsValue(NatToString(n)) == n
  {
    var r := NatToString(n);
    if n >= 10 {
      NatToStringValue(n / 10);
      assert r[..|r| - 1] == NatToString(n / 10);
    }
  }

  /** Python's round(num / den): the nearest integer, ties to the even one. */
  function RoundHalfEven(num: int, den: int): int
    requires den > 0
  {
    var q := num / den;
    var r := num % den;
    if 2 * r < den then q
    else if 2 * r > den then q + 1
    else if q % 2 == 0 then q
    else q + 1
  }

  lemma RoundHalfEvenClose(num: int, den: int)
    requires den > 0
    ensures 2 * (RoundHalfEven(num, den) * den - num) <= den
    ensures 2 * (num - RoundHalfEven(num, den) * den) <= den
  {
  }

  // ---------------------------------------------------------------------------
  // more facts about words, joins and stripping

  /** Joining with any whitespace separator keeps the words of the parts, in order. */
  lemma {:induction false} WordsOfJoinSep(sep: string, parts: seq<string>)
    requires sep != [] && AllSpace(sep)
    ensures Words(Join(sep, parts)) == AllWords(parts)
  {
    if |parts| == 1 {
      SingleWords(parts[0]);
    } else if |parts| > 1 {
      WordsOfJoinSep(sep, parts[1..]);
      WordsOfSpaceSep(parts[0], sep, Join(sep, parts[1..]));
    }
  }

  /** A character in neither the separator nor any part is not in the join. */
  lemma {:induction false} JoinAvoids(sep: string, parts: seq<string>, c: char)
    requires c !in sep
    requires forall k :: 0 <= k < |parts| ==> c !in parts[k]
    ensures c !in Join(sep, parts)
  {
    if |parts| > 1 {
      JoinAvoids(sep, parts[1..], c);
    }
  }

  /** Two strings with whitespace at the same places and equal elsewhere. */
  predicate SameSpacing(s: string, t: string)
  {
    |s| == |t|
    && forall i :: 0 <= i < |s| ==> (IsSpace(s[i]) <==> IsSpace(t[i])) && (!IsSpace(s[i]) ==> s[i] == t[i])
  }

  lemma {:induction false} TokenLenSameSpacing(s: string, t: string)
    requires SameSpacing(s, t)
    ensures TokenLen(s) == TokenLen(t) && s[..TokenLen(s)] == t[..TokenLen(t)]
  {
    if |s| > 0 && !IsSpace(s[0]) {
      TokenLenSameSpacing(s[1..], t[1..]);
      assert s[..TokenLen(s)] == [s[0]] + s[1..][..TokenLen(s[1..])];
      assert t[..TokenLen(t)] == [t[0]] + t[1..][..TokenLen(t[1..])];
    }
  }

  /** Words depend only on where the whitespace is and on the other characters. */
  lemma {:induction false} WordsSameSpacing(s: string, t: string)
    requires SameSpacing(s, t)
    ensures Words(s) == Words(t)
    decreases |s|
  {
    if s != [] {
      if IsSpace(s[0]) {
        WordsSameSpacing(s[1..], t[1..]);
      } else {
        TokenLenSameSpacing(s, t);
        var n := TokenLen(s);
        WordsSameSpacing(s[n..], t[n..]);
      }
    }
  }

  /** Replacing one whitespace character by another keeps the spacing. */
  lemma {:induction false} ReplaceSpaceCharSpacing(s: string, c: char, d: char)
    requires IsSpace(c) && IsSpace(d)
    ensures SameSpacing(s, ReplaceAll(s, [c], [d]))
    decreases |s|
  {
    if |s| >= 1 {
      ReplaceSpaceCharSpacing(s[1..], c, d);
      var r := ReplaceAll(s, [c], [d]);
      if s[..1] == [c] {
        assert r == [d] + ReplaceAll(s[1..], [c], [d]);
      } else {
        assert r == [s[0]] + ReplaceAll(s[1..], [c], [d]);
      }
      assert s == [s[0]] + s[1..];
    }
  }

  /** Replacing newlines by spaces keeps the words. */
  lemma WordsReplaceNewlines(s: string)
    ensures Words(ReplaceAll(s, "\n", " ")) == Words(s)
  {
    ReplaceSpaceCharSpacing(s, '\n', ' ');
    WordsSameSpacing(s, ReplaceAll(s, "\n", " "));
  }

  lemma {:induction false} LStripSpacesThen(sp: string, t: string)
    requires AllSpace(sp) && (t == [] || !IsSpace(t[0]))
    ensures LStrip(sp + t) == t
  {
    if sp != [] {
      assert (sp + t)[1..] == sp[1..] + t;
      LStripSpacesThen(sp[1..], t);
    } else {
      assert sp + t == t;
    }
  }

  lemma {:induction false} RStripThenSpaces(t: string, sp: string)
    requires AllSpace(sp) && (t == [] || !IsSpace(t[|t| - 1]))
    ensures RStrip(t + sp) == t
  {
    if sp != [] {
      assert (t + sp)[..|t + sp| - 1] == t + sp[..|sp| - 1];
      RStripThenSpaces(t, sp[..|sp| - 1]);
    } else {
      assert t + sp == t;
    }
  }
}

/** Generic helpers on sequences. */
module SeqUtil {
  lemma ConcatAssoc<T>(a: seq<T>, b: seq<T>, c: seq<T>)
    ensures a + (b + c) == (a + b) + c
  {
  }


  /** Concatenation of a sequence of sequences. */
  function Flatten<T>(ss: seq<seq<T>>): seq<T>
  {
    if ss == [] then [] else ss[0] + Flatten(ss[1..])
  }

  lemma {:induction false} FlattenAppend<T>(a: seq<seq<T>>, b: seq<seq<T>>)
    ensures Flatten(a + b) == Flatten(a) + Flatten(b)
  {
    if a != [] {
      assert (a + b)[1..] == a[1..] + b;
      FlattenAppend(a[1..], b);
      assert Flatten(a + b) == (a + b)[0] + Flatten((a + b)[1..]);
    } else {
      assert a + b == b;
    }
  }

  /** The elements of s that satisfy p, in order. */
  function Filter<T>(s: seq<T>, p: T -> bool): (r: seq<T>)
    ensures |r| <= |s|
    ensures forall x :: x in r ==> x in s && p(x)
  {
    if s == [] then [] else (if p(s[0]) then [s[0]] else []) + Filter(s[1..], p)
  }

  lemma {:induction false} FilterAppend<T>(a: seq<T>, b: seq<T>, p: T -> bool)
    ensures Filter(a + b, p) == Filter(a, p) + Filter(b, p)
  {
    if a != [] {
      assert (a + b)[1..] == a[1..] + b;
      FilterAppend(a[1..], b, p);
      assert (a + b)[0] == a[0];
    } else {
      assert a + b == b;
    }
  }

  /** Every element of s that satisfies p is kept. */
  lemma {:induction false} FilterKeeps<T>(s: seq<T>, p: T -> bool, x: T)
    requires x in s && p(x)
    ensures x in Filter(s, p)
  {
    if s[0] != x {
      assert x in s[1..];
      FilterKeeps(s[1..], p, x);
    }
  }

  /** The elements that satisfy p and those that fail it make up s between them. */
  lemma {:induction false} FilterPartition<T>(s: seq<T>, p: T -> bool, q: T -> bool)
    requires forall x :: q(x) == !p(x)
    ensures |Filter(s, p)| + |Filter(s, q)| == |s|
    ensures multiset(Filter(s, p)) + multiset(Filter(s, q)) == multiset(s)
  {
    if s != [] {
      FilterPartition(s[1..], p, q);
      assert s == [s[0]] + s[1..];
    }
  }

  /** Number of elements of s that satisfy p. */
  function CountWhere<T>(s: seq<T>, p: T -> bool): nat
  {
    |Filter(s, p)|
  }

  predicate NoDuplicates<T(==)>(s: seq<T>)
  {
    forall i, j :: 0 <= i < j < |s| ==> s[i] != s[j]
  }
}
