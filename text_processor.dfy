/**
 * The text steps of the speech pipeline's enhanced text processor: removing
 * the editorial "..." at the start of lines, folding single newlines into
 * spaces while keeping paragraph breaks, adding a long pause after the title
 * line, and cutting the text into chunks at long silence markers, each text
 * piece being chunked by the pause-aware chunker.
 *
 * The processor's other collaborators (hyphenation, Roman numerals,
 * punctuation pauses, silence generation) are not part of this model.
 */
module TextProcessor {
  import opened TextUtil
  import opened SeqUtil
  import PauseAwareChunker
  import Grouping

  // ---------------------------------------------------------------------------
  // _remove_leading_ellipsis

  /** The editorial marker removed at line starts. */
  const Ellipsis: string := "..."

  /**
   * `re.sub(r'^\.\.\.', '', t, flags=re.MULTILINE)` on the rest t of a text,
   * where atLineStart says whether t starts a line of the original text.
   * After a removal the scan is not at a line start, since the removed
   * characters are dots.
   */
  function EllipsisFrom(t: string, atLineStart: bool): string
    decreases |t|
  {
    if t == [] then []
    else if atLineStart && StartsWith(t, Ellipsis) then EllipsisFrom(t[|Ellipsis|..], false)
    else [t[0]] + EllipsisFrom(t[1..], t[0] == '\n')
  }

  /** _remove_leading_ellipsis */
  function RemoveLeadingEllipsis(text: string): string
  {
    EllipsisFrom(text, true)
  }

  /** One line with its leading "..." removed, if it has one. */
  function DropEllipsis(line: string): (r: string)
    ensures StartsWith(line, Ellipsis) ==> line == Ellipsis + r
    ensures !StartsWith(line, Ellipsis) ==> r == line
  {
    if StartsWith(line, Ellipsis) then
      assert line == line[..|Ellipsis|] + line[|Ellipsis|..];
      line[|Ellipsis|..]
    else line
  }

  function DropEach(lines: seq<string>): (r: seq<string>)
    ensures |r| == |lines| && forall k :: 0 <= k < |lines| ==> r[k] == DropEllipsis(lines[k])
  {
    seq(|lines|, k requires 0 <= k < |lines| => DropEllipsis(lines[k]))
  }

  /** Inside a line, away from its start, nothing is removed up to the next newline. */
  lemma {:induction false} EllipsisInsideLine(x: string, rest: string)
    requires '\n' !in x
    ensures EllipsisFrom(x + ['\n'] + rest, false) == x + ['\n'] + EllipsisFrom(rest, true)
    ensures EllipsisFrom(x, false) == x
    decreases |x|
  {
    if x != [] {
      assert (x + ['\n'] + rest)[1..] == x[1..] + ['\n'] + rest;
      EllipsisInsideLine(x[1..], rest);
    } else {
      assert (x + ['\n'] + rest)[1..] == rest;
    }
  }

  /** A line without a newline, followed by a newline and the rest of the text. */
  lemma EllipsisAtLineStart(line: string, rest: string)
    requires '\n' !in line
    ensures EllipsisFrom(line + ['\n'] + rest, true) == DropEllipsis(line) + ['\n'] + EllipsisFrom(rest, true)
  {
    if StartsWith(line, Ellipsis) {
      EllipsisLineDropped(line, rest);
    } else {
      EllipsisLineKept(line, rest);
    }
  }

  /** A line that starts with "..." loses it. */
  lemma EllipsisLineDropped(line: string, rest: string)
    requires '\n' !in line && StartsWith(line, Ellipsis)
    ensures EllipsisFrom(line + ['\n'] + rest, true) == line[|Ellipsis|..] + ['\n'] + EllipsisFrom(rest, true)
  {
    var t := line + ['\n'] + rest;
    assert t[..|Ellipsis|] == line[..|Ellipsis|];
    assert t[|Ellipsis|..] == line[|Ellipsis|..] + ['\n'] + rest;
    EllipsisInsideLine(line[|Ellipsis|..], rest);
  }

  /** A line that does not start with "..." does not start its text with it either. */
  lemma NoEllipsisAhead(line: string, rest: string)
    requires '\n' !in line && !StartsWith(line, Ellipsis)
    ensures !StartsWith(line + ['\n'] + rest, Ellipsis)
  {
    var t := line + ['\n'] + rest;
    if |t| >= |Ellipsis| {
      if |line| < |Ellipsis| {
        assert t[..|Ellipsis|][|line|] == '\n';
      } else {
        assert t[..|Ellipsis|] == line[..|Ellipsis|];
      }
    }
  }

  /** A line that does not start with "..." is kept whole. */
  lemma EllipsisLineKept(line: string, rest: string)
    requires '\n' !in line && !StartsWith(line, Ellipsis)
    ensures EllipsisFrom(line + ['\n'] + rest, true) == line + ['\n'] + EllipsisFrom(rest, true)
  {
    var t := line + ['\n'] + rest;
    NoEllipsisAhead(line, rest);
    if line == [] {
      assert t[1..] == rest;
    } else {
      assert t[1..] == line[1..] + ['\n'] + rest;
      EllipsisInsideLine(line[1..], rest);
    }
  }

  /** The last line of a text, with no newline after it. */
  lemma EllipsisLastLine(line: string)
    requires '\n' !in line
    ensures EllipsisFrom(line, true) == DropEllipsis(line)
  {
    if StartsWith(line, Ellipsis) {
      EllipsisInsideLine(line[|Ellipsis|..], []);
    } else if line != [] {
      EllipsisInsideLine(line[1..], []);
    }
  }

  /**
   * "..." is removed only at the start of lines: the result is the text's
   * lines, each without its leading "...", joined again with newlines.
   */
  lemma {:induction false} EllipsisPerLine(text: string)
    ensures RemoveLeadingEllipsis(text) == Join("\n", DropEach(SplitOn(text, '\n')))
    decreases |text|
  {
    if '\n' !in text {
      EllipsisLastLine(text);
    } else {
      var i := IndexOf(text, '\n');
      var line, rest := text[..i], text[i + 1..];
      assert text == line + ['\n'] + rest;
      EllipsisPerLine(rest);
      EllipsisNextLine(line, rest);
    }
  }

  /** One more line in front of a text for which the per-line reading holds. */
  lemma EllipsisNextLine(line: string, rest: string)
    requires '\n' !in line
    requires RemoveLeadingEllipsis(rest) == Join("\n", DropEach(SplitOn(rest, '\n')))
    ensures RemoveLeadingEllipsis(line + ['\n'] + rest)
      == Join("\n", DropEach(SplitOn(line + ['\n'] + rest, '\n')))
  {
    EllipsisAtLineStart(line, rest);
    SplitOnCons(line, '\n', rest);
    var lines := SplitOn(rest, '\n');
    DropEachCons(line, lines);
    JoinCons('\n', DropEllipsis(line), DropEach(lines));
  }

  lemma DropEachCons(line: string, lines: seq<string>)
    ensures DropEach([line] + lines) == [DropEllipsis(line)] + DropEach(lines)
  {
    var l := [line] + lines;
    assert forall k :: 0 < k < |l| ==> l[k] == lines[k - 1];
  }

  // ---------------------------------------------------------------------------
  // _normalize_newlines

  /** The placeholder that protects paragraph breaks while single newlines are replaced. */
  const ParagraphMarker: string := "<!PARAGRAPH!>"

  /** Number of leading newlines. */
  function NewlineRun(t: string): (n: nat)
    ensures n <= |t| && forall k :: 0 <= k < n ==> t[k] == '\n'
    ensures n == |t| || t[n] != '\n'
  {
    if t != [] && t[0] == '\n' then 1 + NewlineRun(t[1..]) else 0
  }

  /** `re.sub(r'\n\n+', '<!PARAGRAPH!>', t)` */
  function ProtectParagraphs(t: string): string
    decreases |t|
  {
    if t == [] then []
    else if NewlineRun(t) >= 2 then ParagraphMarker + ProtectParagraphs(t[NewlineRun(t)..])
    else [t[0]] + ProtectParagraphs(t[1..])
  }

  /** _normalize_newlines: protect the paragraph breaks, replace newlines, restore the breaks. */
  function NormalizeNewlines(text: string): string
  {
    ReplaceAll(ReplaceAll(ProtectParagraphs(text), "\n", " "), ParagraphMarker, "\n\n")
  }

  /**
   * The intended result, read off the text directly: a run of two or more
   * newlines becomes one paragraph break "\n\n", a single newline becomes a
   * space, and every other character is kept.
   */
  function Normalized(t: string): string
    decreases |t|
  {
    if t == [] then []
    else if NewlineRun(t) >= 2 then "\n\n" + Normalized(t[NewlineRun(t)..])
    else if t[0] == '\n' then " " + Normalized(t[1..])
    else [t[0]] + Normalized(t[1..])
  }

  /** The text after the first two steps: breaks protected, single newlines as spaces. */
  function Spaced(t: string): string
    decreases |t|
  {
    if t == [] then []
    else if NewlineRun(t) >= 2 then ParagraphMarker + Spaced(t[NewlineRun(t)..])
    else if t[0] == '\n' then " " + Spaced(t[1..])
    else [t[0]] + Spaced(t[1..])
  }

  /** Replacing one character by another works piece by piece. */
  lemma {:induction false} ReplaceCharAppend(a: string, b: string, c: char, d: char)
    ensures ReplaceAll(a + b, [c], [d]) == ReplaceAll(a, [c], [d]) + ReplaceAll(b, [c], [d])
    decreases |a|
  {
    if a != [] {
      assert (a + b)[..1] == a[..1];
      assert (a + b)[1..] == a[1..] + b;
      ReplaceCharAppend(a[1..], b, c, d);
    } else {
      assert a + b == b;
    }
  }

  lemma {:induction false} ReplaceCharAbsent(s: string, c: char, d: char)
    requires c !in s
    ensures ReplaceAll(s, [c], [d]) == s
    decreases |s|
  {
    if s != [] {
      assert s[..1] == [s[0]];
      ReplaceCharAbsent(s[1..], c, d);
    }
  }

  lemma ReplaceOneChar(x: char, c: char, d: char)
    ensures ReplaceAll([x], [c], [d]) == [if x == c then d else x]
  {
    assert [x][..1] == [x] && [x][1..] == [];
  }

  /** The first two steps give Spaced. */
  lemma {:induction false} ProtectThenSpace(t: string)
    ensures ReplaceAll(ProtectParagraphs(t), "\n", " ") == Spaced(t)
    decreases |t|
  {
    if t != [] {
      if NewlineRun(t) >= 2 {
        var rest := t[NewlineRun(t)..];
        ProtectThenSpace(rest);
        ReplaceCharAppend(ParagraphMarker, ProtectParagraphs(rest), '\n', ' ');
        ReplaceCharAbsent(ParagraphMarker, '\n', ' ');
      } else {
        ProtectThenSpace(t[1..]);
        ReplaceCharAppend([t[0]], ProtectParagraphs(t[1..]), '\n', ' ');
        ReplaceOneChar(t[0], '\n', ' ');
      }
    }
  }

  /** A prefix of Spaced(x) free of spaces and '<' was copied from x. */
  lemma {:induction false} SpacedPrefix(x: string, p: string)
    requires forall k :: 0 <= k < |p| ==> p[k] != ' ' && p[k] != '<'
    requires StartsWith(Spaced(x), p)
    ensures StartsWith(x, p)
    decreases |p|
  {
    if p != [] {
      assert Spaced(x) != [];
      assert Spaced(x)[..|p|] == p;
      SpacedHead(x);
      assert x != [] && NewlineRun(x) < 2 && x[0] != '\n';
      assert Spaced(x)[1..][..|p| - 1] == p[1..];
      SpacedPrefix(x[1..], p[1..]);
      assert x[..|p|] == [x[0]] + x[1..][..|p| - 1];
    }
  }

  /** The first character of Spaced(x). */
  lemma SpacedHead(x: string)
    requires Spaced(x) != []
    ensures x != []
    ensures Spaced(x)[0] == if NewlineRun(x) >= 2 then '<' else if x[0] == '\n' then ' ' else x[0]
  {
    if NewlineRun(x) >= 2 {
      assert Spaced(x) == ParagraphMarker + Spaced(x[NewlineRun(x)..]);
    }
  }

  lemma NotContainsSuffix(t: string, k: nat, m: string)
    requires k <= |t| && !Contains(t, m)
    ensures !Contains(t[k..], m)
  {
    if Contains(t[k..], m) {
      var i :| 0 <= i <= |t[k..]| - |m| && OccursAt(t[k..], m, i);
      assert t[k + i..k + i + |m|] == t[k..][i..i + |m|];
      assert OccursAt(t, m, k + i);
    }
  }

  /** The last step turns exactly the protected breaks back into "\n\n". */
  lemma {:induction false} RestoreBreaks(t: string)
    requires !Contains(t, ParagraphMarker)
    ensures ReplaceAll(Spaced(t), ParagraphMarker, "\n\n") == Normalized(t)
    decreases |t|
  {
    if t != [] {
      var n := if NewlineRun(t) >= 2 then NewlineRun(t) else 1;
      NotContainsSuffix(t, n, ParagraphMarker);
      RestoreBreaks(t[n..]);
      if NewlineRun(t) >= 2 {
        RestoreAfterRun(t);
      } else {
        RestoreAfterChar(t);
      }
    }
  }

  /** A run of newlines: the marker turns back into the break. */
  lemma RestoreAfterRun(t: string)
    requires NewlineRun(t) >= 2
    requires ReplaceAll(Spaced(t[NewlineRun(t)..]), ParagraphMarker, "\n\n") == Normalized(t[NewlineRun(t)..])
    ensures ReplaceAll(Spaced(t), ParagraphMarker, "\n\n") == Normalized(t)
  {
    var m := ParagraphMarker;
    var s := m + Spaced(t[NewlineRun(t)..]);
    assert s[..|m|] == m && s[|m|..] == Spaced(t[NewlineRun(t)..]);
  }

  /** Any other first character is copied, or a single newline spaced, and no marker starts there. */
  lemma RestoreAfterChar(t: string)
    requires t != [] && NewlineRun(t) < 2 && !Contains(t, ParagraphMarker)
    requires ReplaceAll(Spaced(t[1..]), ParagraphMarker, "\n\n") == Normalized(t[1..])
    ensures ReplaceAll(Spaced(t), ParagraphMarker, "\n\n") == Normalized(t)
  {
    var m := ParagraphMarker;
    var s := Spaced(t);
    assert s == [s[0]] + Spaced(t[1..]);
    NoMarkerAtStart(t);
    if |s| >= |m| {
      assert s[1..] == Spaced(t[1..]);
    }
  }

  /** Spaced(t) does not start with the marker when t does not contain it. */
  lemma NoMarkerAtStart(t: string)
    requires t != [] && NewlineRun(t) < 2 && !Contains(t, ParagraphMarker)
    ensures !StartsWith(Spaced(t), ParagraphMarker)
  {
    MarkerAtStartCopied(t);
  }

  /** After its first character the marker has neither a space nor a '<'. */
  lemma MarkerTailPlain()
    ensures forall k :: 0 <= k < |ParagraphMarker[1..]| ==> ParagraphMarker[1..][k] != ' ' && ParagraphMarker[1..][k] != '<'
  {
    assert ParagraphMarker[1..] == "!PARAGRAPH!>";
  }

  /** Spaced(t) starts with the marker only when t does, for t without a leading break. */
  lemma MarkerAtStartCopied(t: string)
    requires t != [] && NewlineRun(t) < 2
    ensures StartsWith(Spaced(t), ParagraphMarker) ==> OccursAt(t, ParagraphMarker, 0)
  {
    var m := ParagraphMarker;
    var x := Spaced(t[1..]);
    var s := Spaced(t);
    if StartsWith(s, m) {
      SpacedHead(t);
      assert t[0] == '<' by {
        assert s[0] == s[..|m|][0] == '<';
      }
      assert s == [t[0]] + x;
      assert x[..|m| - 1] == s[..|m|][1..];
      MarkerTailPlain();
      SpacedPrefix(t[1..], m[1..]);
      assert t[..|m|] == [t[0]] + t[1..][..|m| - 1];
    }
  }

  /**
   * For a text that does not itself contain the placeholder, the three steps
   * of _normalize_newlines give the intended result.
   */
  lemma NormalizeNewlinesMatches(text: string)
    requires !Contains(text, ParagraphMarker)
    ensures NormalizeNewlines(text) == Normalized(text)
  {
    ProtectThenSpace(text);
    RestoreBreaks(text);
  }

  /** A text with the placeholder itself, and no newline, gets a paragraph break in its place. */
  lemma MarkerBecomesBreak()
    ensures NormalizeNewlines(ParagraphMarker) == "\n\n"
  {
    var m := ParagraphMarker;
    assert ProtectParagraphs(m) == m by { NoNewlineProtected(m); }
    ReplaceCharAbsent(m, '\n', ' ');
    assert m[..|m|] == m && m[|m|..] == [];
  }

  lemma {:induction false} NoNewlineProtected(t: string)
    requires '\n' !in t
    ensures ProtectParagraphs(t) == t
    decreases |t|
  {
    if t != [] {
      NoNewlineProtected(t[1..]);
    }
  }

  /** Normalized text starts with a newline only where the text starts with a paragraph break. */
  lemma NormalizedHead(t: string)
    requires NewlineRun(t) < 2
    ensures Normalized(t) == [] || Normalized(t)[0] != '\n'
  {
  }

  /** Normalizing twice changes nothing more: breaks stay "\n\n" and spaces stay spaces. */
  lemma {:induction false} NormalizedIdempotent(t: string)
    ensures Normalized(Normalized(t)) == Normalized(t)
    decreases |t|
  {
    if t != [] {
      var n := NewlineRun(t);
      if n >= 2 {
        var rest := t[n..];
        var r := Normalized(rest);
        NormalizedHead(rest);
        NormalizedIdempotent(rest);
        var s := "\n\n" + r;
        assert s[1..] == "\n" + r && s[1..][1..] == r;
        assert NewlineRun(s) == 2;
        assert s[2..] == r;
      } else {
        var r := Normalized(t[1..]);
        NormalizedIdempotent(t[1..]);
        var c := if t[0] == '\n' then ' ' else t[0];
        var s := [c] + r;
        assert Normalized(t) == s;
        assert s[1..] == r;
        assert NewlineRun(s) == 0;
      }
    }
  }

  // ---------------------------------------------------------------------------
  // _add_title_pause

  /** The long pause written after the title line. */
  const TitlePause: string := "<silence:2.0>"

  /**
   * _add_title_pause: the first line, stripped, then the pause, then the rest
   * of the text without its leading whitespace. A text of one line is kept.
   */
  function AddTitlePause(text: string): (r: string)
    ensures '\n' !in text ==> r == text
  {
    if '\n' !in text then text
    else
      var i := IndexOf(text, '\n');
      Strip(text[..i]) + TitlePause + LStrip(text[i + 1..])
  }

  // ---------------------------------------------------------------------------
  // _chunk_with_silences

  /** The opening of a silence marker. */
  const SilenceOpen: string := "<silence:"

  /**
   * A duration the group [1-9]\d*\.?\d* matches in full: a digit 1-9, then
   * digits with at most one dot among them.
   */
  predicate IsDuration(d: string)
  {
    |d| >= 1 && '1' <= d[0] <= '9'
    && (forall k :: 1 <= k < |d| ==> IsDigit(d[k]) || d[k] == '.')
    && (forall k, l :: 1 <= k < l < |d| && d[k] == '.' ==> d[l] != '.')
  }

  /** The chunk that stands for a silence of duration d. */
  function SilenceChunk(d: string): string
  {
    SilenceOpen + d + ">"
  }

  /**
   * Length of the match of <silence:([1-9]\d*\.?\d*)> at i, or 0 when it does
   * not match there. A duration has no '>', so a match ends at the first '>'
   * after the opening.
   */
  function SilenceLen(s: string, i: nat): (n: nat)
    ensures n > 0 ==> i + n <= |s| && n >= |SilenceOpen| + 2
  {
    if i <= |s| && StartsWith(s[i..], SilenceOpen) && '>' in s[i + |SilenceOpen|..] then
      var j := i + |SilenceOpen| + IndexOf(s[i + |SilenceOpen|..], '>');
      if IsDuration(s[i + |SilenceOpen|..j]) then j + 1 - i else 0
    else 0
  }

  /**
   * The separators cut finds in s are whole silence markers around
   * durations: cut(s, j) is the length of the marker at j, or 0.
   */
  predicate MarkerCuts(s: string, cut: (string, nat) -> nat)
  {
    forall j :: 0 <= j < |s| && cut(s, j) > 0 ==>
      j + cut(s, j) <= |s| && cut(s, j) > |SilenceOpen|
      && s[j..j + cut(s, j)] == SilenceChunk(s[j + |SilenceOpen|..j + cut(s, j) - 1])
  }

  /** What the group captures inside each separator cut finds is a duration. */
  predicate DurationCuts(s: string, cut: (string, nat) -> nat)
  {
    forall j :: 0 <= j < |s| && |SilenceOpen| < cut(s, j) <= |s| - j ==>
      IsDuration(s[j + |SilenceOpen|..j + cut(s, j) - 1])
  }

  /** A match is a whole silence marker around a duration. */
  lemma SilenceAt(s: string, i: nat)
    requires SilenceLen(s, i) > 0
    ensures i + SilenceLen(s, i) <= |s| && SilenceLen(s, i) > |SilenceOpen|
    ensures s[i..i + SilenceLen(s, i)] == SilenceChunk(s[i + |SilenceOpen|..i + SilenceLen(s, i) - 1])
    ensures IsDuration(s[i + |SilenceOpen|..i + SilenceLen(s, i) - 1])
  {
    var o := |SilenceOpen|;
    var t := s[i + o..];
    var k := IndexOf(t, '>');
    var j := i + o + k;
    assert s[i..][..o] == s[i..i + o];
    assert t[k] == s[j];
    assert s[i..j + 1] == s[i..i + o] + s[i + o..j] + [s[j]];
  }

  /** The separators the silence pattern finds are whole markers around durations. */
  lemma SilenceLenCuts(s: string)
    ensures MarkerCuts(s, SilenceLen) && DurationCuts(s, SilenceLen)
  {
    SilenceLenMarkers(s);
    SilenceLenDurations(s);
  }

  lemma SilenceLenMarkers(s: string)
    ensures MarkerCuts(s, SilenceLen)
  {
    forall j | 0 <= j < |s| && SilenceLen(s, j) > 0
      ensures j + SilenceLen(s, j) <= |s| && SilenceLen(s, j) > |SilenceOpen|
        && s[j..j + SilenceLen(s, j)] == SilenceChunk(s[j + |SilenceOpen|..j + SilenceLen(s, j) - 1])
    {
      SilenceAt(s, j);
    }
  }

  lemma SilenceLenDurations(s: string)
    ensures DurationCuts(s, SilenceLen)
  {
    forall j | 0 <= j < |s| && |SilenceOpen| < SilenceLen(s, j) <= |s| - j
      ensures IsDuration(s[j + |SilenceOpen|..j + SilenceLen(s, j) - 1])
    {
      SilenceAt(s, j);
    }
  }

  /** No marker starts at a character other than '<'. */
  lemma NoSilenceWithoutOpen(s: string, j: nat)
    requires j < |s| && s[j] != '<'
    ensures SilenceLen(s, j) == 0
  {
    assert j + 1 <= |s| && s[j..][0] == s[j];
  }

  /**
   * `re.split` of s[start..] at the separators cut finds, scanning from i,
   * with the pattern's one group: the text pieces and, between them, what the
   * group captured inside each separator.
   */
  function SplitAt(s: string, start: nat, i: nat, cut: (string, nat) -> nat): (parts: seq<string>)
    requires start <= i <= |s|
    ensures |parts| % 2 == 1
    decreases |s| - i
  {
    if i == |s| then [s[start..]]
    else if |SilenceOpen| < cut(s, i) <= |s| - i then
      var n := cut(s, i);
      [s[start..i], s[i + |SilenceOpen|..i + n - 1]] + SplitAt(s, i + n, i + n, cut)
    else SplitAt(s, start, i + 1, cut)
  }

  /** `re.split(r'<silence:([1-9]\d*\.?\d*)>', text)` */
  function SilenceParts(text: string): (parts: seq<string>)
    ensures |parts| % 2 == 1
  {
    SplitAt(text, 0, 0, SilenceLen)
  }

  /** The text a list of parts comes from: the pieces with the markers put back. */
  function Rejoin(parts: seq<string>): string
    requires |parts| % 2 == 1
    decreases |parts|
  {
    if |parts| == 1 then parts[0] else parts[0] + SilenceChunk(parts[1]) + Rejoin(parts[2..])
  }

  /** Splitting loses nothing: putting the markers back gives the text again. */
  lemma {:induction false} SplitAtRejoin(s: string, start: nat, i: nat, cut: (string, nat) -> nat)
    requires start <= i <= |s| && MarkerCuts(s, cut)
    ensures Rejoin(SplitAt(s, start, i, cut)) == s[start..]
    decreases |s| - i
  {
    if i < |s| {
      if |SilenceOpen| < cut(s, i) <= |s| - i {
        SplitAtRejoin(s, i + cut(s, i), i + cut(s, i), cut);
        RejoinAtCut(s, start, i, cut);
      } else {
        SplitAtRejoin(s, start, i + 1, cut);
      }
    }
  }

  /** The step of SplitAtRejoin at a separator, given the rejoined rest. */
  lemma RejoinAtCut(s: string, start: nat, i: nat, cut: (string, nat) -> nat)
    requires start <= i < |s| && MarkerCuts(s, cut) && |SilenceOpen| < cut(s, i) <= |s| - i
    requires Rejoin(SplitAt(s, i + cut(s, i), i + cut(s, i), cut)) == s[i + cut(s, i)..]
    ensures Rejoin(SplitAt(s, start, i, cut)) == s[start..]
  {
    var n := cut(s, i);
    var d := s[i + |SilenceOpen|..i + n - 1];
    SplitAtCut(s, start, i, cut);
    RejoinCons(s[start..i], d, SplitAt(s, i + n, i + n, cut));
    RejoinMarker(s, start, i, n);
  }

  /** Putting back one marker in front of the rest of the parts. */
  lemma RejoinCons(a: string, d: string, rest: seq<string>)
    requires |rest| % 2 == 1
    ensures Rejoin([a, d] + rest) == a + SilenceChunk(d) + Rejoin(rest)
  {
    assert ([a, d] + rest)[2..] == rest;
  }

  /** The text from start is the piece before a marker, the marker and what follows. */
  lemma RejoinMarker(s: string, start: nat, i: nat, n: nat)
    requires start <= i && |SilenceOpen| < n && i + n <= |s|
    requires s[i..i + n] == SilenceChunk(s[i + |SilenceOpen|..i + n - 1])
    ensures s[start..i] + SilenceChunk(s[i + |SilenceOpen|..i + n - 1]) + s[i + n..] == s[start..]
  {
    assert s[start..] == s[start..i] + s[i..i + n] + s[i + n..];
  }

  /** Every part at an odd position is a captured duration. */
  lemma {:induction false} SplitAtDurations(s: string, start: nat, i: nat, cut: (string, nat) -> nat)
    requires start <= i <= |s| && DurationCuts(s, cut)
    ensures forall k :: 0 <= k < |SplitAt(s, start, i, cut)| && k % 2 == 1 ==> IsDuration(SplitAt(s, start, i, cut)[k])
    decreases |s| - i
  {
    if i < |s| {
      if |SilenceOpen| < cut(s, i) <= |s| - i {
        var n := cut(s, i);
        var rest := SplitAt(s, i + n, i + n, cut);
        var parts := [s[start..i], s[i + |SilenceOpen|..i + n - 1]] + rest;
        SplitAtDurations(s, i + n, i + n, cut);
        assert IsDuration(parts[1]);
        forall k | 0 <= k < |parts| && k % 2 == 1
          ensures IsDuration(parts[k])
        {
          if k > 1 {
            assert parts[k] == rest[k - 2];
            assert (k - 2) % 2 == 1;
          }
        }
      } else {
        SplitAtDurations(s, start, i + 1, cut);
      }
    }
  }

  /** The splitting of a text round-trips and its odd parts are durations. */
  lemma SilencePartsShape(text: string)
    ensures Rejoin(SilenceParts(text)) == text
    ensures forall k :: 0 <= k < |SilenceParts(text)| && k % 2 == 1 ==> IsDuration(SilenceParts(text)[k])
  {
    SilenceLenCuts(text);
    SplitAtRejoin(text, 0, 0, SilenceLen);
    SplitAtDurations(text, 0, 0, SilenceLen);
  }

  /** cut finds no separator at the positions lo to hi - 1. */
  predicate NoCut(s: string, lo: nat, hi: nat, cut: (string, nat) -> nat)
  {
    forall j :: lo <= j < hi ==> cut(s, j) == 0
  }

  /** Scanning over positions where no separator starts changes nothing. */
  lemma {:induction false} SplitSkip(s: string, start: nat, i: nat, k: nat, cut: (string, nat) -> nat)
    requires start <= i <= k <= |s| && NoCut(s, i, k, cut)
    ensures SplitAt(s, start, i, cut) == SplitAt(s, start, k, cut)
    decreases k - i
  {
    if i < k {
      SplitSkip(s, start, i + 1, k, cut);
    }
  }

  /** A '>' never occurs in a duration. */
  lemma DurationHasNoClose(d: string)
    requires IsDuration(d)
    ensures '>' !in d
  {
    forall k | 0 <= k < |d| ensures d[k] != '>' {
      if k > 0 { assert IsDigit(d[k]) || d[k] == '.'; }
    }
  }

  /** The marker at the end of head. */
  lemma SilenceAfter(head: string, d: string, tail: string)
    requires IsDuration(d)
    ensures SilenceLen(head + SilenceChunk(d) + tail, |head|) == |SilenceChunk(d)|
  {
    var s := head + SilenceChunk(d) + tail;
    var i := |head|;
    var o := |SilenceOpen|;
    assert s[i..][..o] == SilenceOpen;
    assert s[i + o..] == d + ['>'] + tail;
    DurationHasNoClose(d);
    IndexOfAfterPrefix(d, '>', tail);
    assert s[i + o..i + o + |d|] == d;
  }

  /** No marker starts in a stretch of s without '<'. */
  lemma NoSilenceIn(s: string, lo: nat, hi: nat)
    requires lo <= hi <= |s| && forall j :: lo <= j < hi ==> s[j] != '<'
    ensures NoCut(s, lo, hi, SilenceLen)
  {
    forall j | lo <= j < hi ensures SilenceLen(s, j) == 0 {
      NoSilenceWithoutOpen(s, j);
    }
  }

  lemma NoOpenOutside(head: string, mid: string, tail: string)
    requires '<' !in head && '<' !in tail
    ensures forall j :: 0 <= j < |head| ==> (head + mid + tail)[j] != '<'
    ensures forall j :: |head| + |mid| <= j < |head + mid + tail| ==> (head + mid + tail)[j] != '<'
  {
    var s := head + mid + tail;
    assert forall j :: |head| + |mid| <= j < |s| ==> s[j] == tail[j - |head| - |mid|];
  }

  /** One step of the split at a separator. */
  lemma SplitAtCut(s: string, start: nat, i: nat, cut: (string, nat) -> nat)
    requires start <= i < |s| && |SilenceOpen| < cut(s, i) <= |s| - i
    ensures SplitAt(s, start, i, cut)
      == [s[start..i], s[i + |SilenceOpen|..i + cut(s, i) - 1]] + SplitAt(s, i + cut(s, i), i + cut(s, i), cut)
  {
  }

  /** A text with exactly one separator, at i, splits into three parts. */
  lemma SplitAtOne(s: string, i: nat, cut: (string, nat) -> nat)
    requires i < |s| && |SilenceOpen| < cut(s, i) <= |s| - i
    requires NoCut(s, 0, i, cut) && NoCut(s, i + cut(s, i), |s|, cut)
    ensures SplitAt(s, 0, 0, cut) == [s[..i], s[i + |SilenceOpen|..i + cut(s, i) - 1], s[i + cut(s, i)..]]
  {
    SplitSkip(s, 0, 0, i, cut);
    SplitAtCut(s, 0, i, cut);
    SplitSkip(s, i + cut(s, i), i + cut(s, i), |s|, cut);
  }

  /** A text with one silence marker and no other '<' splits into its three parts. */
  lemma SplitAroundOne(head: string, d: string, tail: string)
    requires '<' !in head && '<' !in tail && IsDuration(d)
    ensures SilenceParts(head + SilenceChunk(d) + tail) == [head, d, tail]
  {
    var s := head + SilenceChunk(d) + tail;
    var i := |head|;
    var n := |SilenceChunk(d)|;
    NoOpenOutside(head, SilenceChunk(d), tail);
    NoSilenceIn(s, 0, i);
    NoSilenceIn(s, i + n, |s|);
    SilenceAfter(head, d, tail);
    SilencePartsOne(s, i);
    assert s[..i] == head && s[i + |SilenceOpen|..i + n - 1] == d && s[i + n..] == tail;
  }

  /** A text with exactly one silence marker, at i, splits into three parts. */
  lemma SilencePartsOne(s: string, i: nat)
    requires i < |s| && |SilenceOpen| < SilenceLen(s, i) <= |s| - i
    requires NoCut(s, 0, i, SilenceLen) && NoCut(s, i + SilenceLen(s, i), |s|, SilenceLen)
    ensures SilenceParts(s)
      == [s[..i], s[i + |SilenceOpen|..i + SilenceLen(s, i) - 1], s[i + SilenceLen(s, i)..]]
  {
    SplitAtOne(s, i, SilenceLen);
  }

  /** The length budget of the processor's chunker when none is given. */
  const DefaultChunkSize := 500

  /** The chunks the pause-aware chunker makes of one text piece. */
  function TextChunks(part: string, maxChars: int): seq<string>
  {
    PauseAwareChunker.Joined(Grouping.Greedy(PauseAwareChunker.SplitSentences(part), PauseAwareChunker.Len, maxChars))
  }

  /**
   * What the loop does with a text piece that is not a silence, with the
   * budget fixed: the pause-aware chunker's chunks when it has text, none
   * when it is blank. The chunking below is stated over any such function.
   */
  function Chunker(maxChars: int): string -> seq<string>
  {
    part => if HasText(part) then TextChunks(part, maxChars) else []
  }

  /** Every chunk the chunker makes has text. */
  ghost predicate ChunksHaveText(chunk: string -> seq<string>)
  {
    forall t, k :: 0 <= k < |chunk(t)| ==> HasText(chunk(t)[k])
  }

  /** The chunker keeps the words of a piece, in order. */
  ghost predicate KeepsWords(chunk: string -> seq<string>)
  {
    forall t :: AllWords(chunk(t)) == Words(t)
  }

  /** The pause-aware chunker makes no blank chunk and loses no word. */
  lemma ChunkerKeeps(maxChars: int)
    ensures ChunksHaveText(Chunker(maxChars)) && KeepsWords(Chunker(maxChars))
  {
    forall t
      ensures AllWords(Chunker(maxChars)(t)) == Words(t)
      ensures forall k :: 0 <= k < |Chunker(maxChars)(t)| ==> HasText(Chunker(maxChars)(t)[k])
    {
      if HasText(t) {
        PauseAwareChunker.ChunkTextWords(t, maxChars);
      } else {
        WordsOfBlank(t);
      }
    }
  }

  /** `re.match(r'[1-9]\d*\.?\d*', part)`: only the first character has to match. */
  predicate LooksLikeDuration(part: string)
  {
    |part| > 0 && '1' <= part[0] <= '9'
  }

  /**
   * Whether k is odd. Counted down rather than written `k % 2 == 1`: with the
   * remainder in the loop over the parts, the solver's arithmetic makes
   * ChunkParts and BlocksSpoken too costly. OddMod ties the two readings.
   */
  predicate Odd(k: nat)
  {
    k > 0 && !Odd(k - 1)
  }

  lemma {:induction false} OddMod(k: nat)
    ensures Odd(k) <==> k % 2 == 1
  {
    if k > 0 {
      OddMod(k - 1);
    }
  }

  /**
   * Whether part k is taken for a silence duration: as written, any part
   * after the first that starts with a digit 1-9; as intended, the parts at
   * odd positions, which are the ones the split captured.
   */
  predicate TakenAsSilence(parts: seq<string>, k: nat, asWritten: bool)
    requires k < |parts|
  {
    if asWritten then k > 0 && LooksLikeDuration(parts[k]) else Odd(k)
  }

  /** The chunks of one part: a silence chunk, or what the chunker makes of it. */
  function PartChunks(part: string, silence: bool, chunk: string -> seq<string>): seq<string>
  {
    if silence then [SilenceChunk(part)] else chunk(part)
  }

  /** The chunks of the first n parts, in order. */
  function Blocks(parts: seq<string>, n: nat, chunk: string -> seq<string>, asWritten: bool): seq<string>
    requires n <= |parts|
  {
    if n == 0 then []
    else
      Blocks(parts, n - 1, chunk, asWritten)
      + PartChunks(parts[n - 1], TakenAsSilence(parts, n - 1, asWritten), chunk)
  }

  /** The body of the loop of _chunk_with_silences for one part. */
  method ChunkPart(part: string, silence: bool, maxChars: int) returns (c: seq<string>)
    ensures c == PartChunks(part, silence, Chunker(maxChars))
  {
    if silence {
      c := [SilenceChunk(part)];
    } else if HasText(part) {
      c := PauseAwareChunker.ChunkText(part, maxChars);
    } else {
      c := [];
    }
  }

  /** The loop of _chunk_with_silences: the chunks of every part, in order. */
  method ChunkParts(parts: seq<string>, maxChars: int, asWritten: bool) returns (all: seq<string>)
    ensures all == Blocks(parts, |parts|, Chunker(maxChars), asWritten)
  {
    all := [];
    var i := 0;
    while i < |parts|
      invariant 0 <= i <= |parts|
      invariant all == Blocks(parts, i, Chunker(maxChars), asWritten)
    {
      var c := ChunkPart(parts[i], TakenAsSilence(parts, i, asWritten), maxChars);
      all := all + c;
      i := i + 1;
    }
  }

  /**
   * _chunk_with_silences as written: a part after the first that starts with
   * a digit 1-9 is written out as a silence chunk, any other part with text
   * goes to the chunker, and blank chunks are dropped at the end.
   */
  method ChunkWithSilences(text: string, maxChars: int) returns (chunks: seq<string>)
    ensures chunks == Filter(Blocks(SilenceParts(text), |SilenceParts(text)|, Chunker(maxChars), true), HasText)
  {
    var all := ChunkParts(SilenceParts(text), maxChars, true);
    chunks := Filter(all, HasText);
  }

  /**
   * _chunk_with_silences with the duration test replaced by the part's
   * position; the final filter then drops nothing.
   */
  method ChunkWithSilencesFixed(text: string, maxChars: int) returns (chunks: seq<string>)
    ensures chunks == Blocks(SilenceParts(text), |SilenceParts(text)|, Chunker(maxChars), false)
  {
    var all := ChunkParts(SilenceParts(text), maxChars, false);
    NoChunkDropped(text, maxChars, false);
    chunks := Filter(all, HasText);
  }

  lemma {:induction false} FilterKeepsEvery<T>(s: seq<T>, p: T -> bool)
    requires forall k :: 0 <= k < |s| ==> p(s[k])
    ensures Filter(s, p) == s
  {
    if s != [] {
      FilterKeepsEvery(s[1..], p);
    }
  }

  /** A silence chunk has text: it starts with '<'. */
  lemma SilenceChunkHasText(d: string)
    ensures HasText(SilenceChunk(d))
  {
    var c := SilenceChunk(d);
    assert c[0] == '<' && !IsSpace(c[0]);
    assert LStrip(c) == c;
  }

  /**
   * When every silence chunk and every chunk the chunker makes pass a test,
   * so does every chunk of the first n parts; stated for any test so the
   * proof does not look inside it.
   */
  lemma {:induction false} BlocksAll(parts: seq<string>, n: nat, chunk: string -> seq<string>, asWritten: bool, p: string -> bool)
    requires n <= |parts|
    requires forall d :: p(SilenceChunk(d))
    requires forall t, k :: 0 <= k < |chunk(t)| ==> p(chunk(t)[k])
    ensures forall k :: 0 <= k < |Blocks(parts, n, chunk, asWritten)| ==> p(Blocks(parts, n, chunk, asWritten)[k])
  {
    if n > 0 {
      BlocksAll(parts, n - 1, chunk, asWritten, p);
      var prev := Blocks(parts, n - 1, chunk, asWritten);
      var last := PartChunks(parts[n - 1], TakenAsSilence(parts, n - 1, asWritten), chunk);
      assert forall k :: 0 <= k < |last| ==> p(last[k]);
      assert Blocks(parts, n, chunk, asWritten) == prev + last;
      forall k | 0 <= k < |prev + last|
        ensures p((prev + last)[k])
      {
        if k >= |prev| {
          assert (prev + last)[k] == last[k - |prev|];
        }
      }
    }
  }

  /** The final filter of _chunk_with_silences never drops a chunk. */
  lemma NoChunkDropped(text: string, maxChars: int, asWritten: bool)
    ensures Filter(Blocks(SilenceParts(text), |SilenceParts(text)|, Chunker(maxChars), asWritten), HasText)
      == Blocks(SilenceParts(text), |SilenceParts(text)|, Chunker(maxChars), asWritten)
  {
    ChunkerKeeps(maxChars);
    forall d
      ensures HasText(SilenceChunk(d))
    {
      SilenceChunkHasText(d);
    }
    var blocks := Blocks(SilenceParts(text), |SilenceParts(text)|, Chunker(maxChars), asWritten);
    BlocksAll(SilenceParts(text), |SilenceParts(text)|, Chunker(maxChars), asWritten, HasText);
    FilterKeepsEvery(blocks, HasText);
  }

  /** What is spoken from the first n parts, in order: the words of each text part and each silence marker. */
  function Spoken(parts: seq<string>, n: nat): seq<string>
    requires n <= |parts|
  {
    if n == 0 then []
    else
      Spoken(parts, n - 1)
      + (if Odd(n - 1) then [SilenceChunk(parts[n - 1])] else Words(parts[n - 1]))
  }

  /** A silence chunk is a single word. */
  lemma SilenceChunkWord(d: string)
    requires IsDuration(d)
    ensures Words(SilenceChunk(d)) == [SilenceChunk(d)]
  {
    var c := SilenceChunk(d);
    assert NoSpace(c) by {
      forall k | 0 <= k < |c| ensures !IsSpace(c[k]) {
        if |SilenceOpen| < k < |SilenceOpen| + |d| {
          assert c[k] == d[k - |SilenceOpen|];
        } else if k == |SilenceOpen| {
          assert c[k] == d[0];
        }
      }
    }
    WordsOfToken(c);
  }

  /** The words of one part's chunks. */
  lemma PartChunksWords(part: string, silence: bool, chunk: string -> seq<string>)
    requires KeepsWords(chunk) && (silence ==> IsDuration(part))
    ensures AllWords(PartChunks(part, silence, chunk)) == if silence then [SilenceChunk(part)] else Words(part)
  {
    if silence {
      SilenceChunkWord(part);
      SingleWords(SilenceChunk(part));
    }
  }

  /** The intended chunks carry every word of the text parts and every silence, in order. */
  lemma {:induction false} BlocksSpoken(parts: seq<string>, n: nat, chunk: string -> seq<string>)
    requires n <= |parts| && KeepsWords(chunk)
    requires forall j :: 0 <= j < |parts| && Odd(j) ==> IsDuration(parts[j])
    ensures AllWords(Blocks(parts, n, chunk, false)) == Spoken(parts, n)
  {
    if n > 0 {
      BlocksSpoken(parts, n - 1, chunk);
      var silence := Odd(n - 1);
      PartChunksWords(parts[n - 1], silence, chunk);
      AllWordsAppend(Blocks(parts, n - 1, chunk, false), PartChunks(parts[n - 1], silence, chunk));
    }
  }

  /**
   * The intended chunking keeps every word of the text between the markers
   * and turns each long silence into its own chunk, all in order.
   */
  lemma ChunksFixedSpoken(text: string, maxChars: int)
    ensures AllWords(Blocks(SilenceParts(text), |SilenceParts(text)|, Chunker(maxChars), false))
      == Spoken(SilenceParts(text), |SilenceParts(text)|)
  {
    ChunkerKeeps(maxChars);
    SilencePartsShape(text);
    var parts := SilenceParts(text);
    forall j | 0 <= j < |parts| && Odd(j)
      ensures IsDuration(parts[j])
    {
      OddMod(j);
    }
    BlocksSpoken(SilenceParts(text), |SilenceParts(text)|, Chunker(maxChars));
  }

  /** "2.0" is a duration the split pattern captures. */
  lemma TitlePauseIsSilence()
    ensures IsDuration("2.0") && TitlePause == SilenceChunk("2.0")
  {
  }

  /**
   * The pause after the title is one the chunking splits on: a text of
   * several lines without any '<', its first line head and the rest after
   * the first newline, splits into head stripped, the duration 2.0 and the
   * rest without its leading whitespace.
   */
  lemma TitlePauseSplits(head: string, rest: string)
    requires '\n' !in head && '<' !in head && '<' !in rest
    ensures SilenceParts(AddTitlePause(head + "\n" + rest)) == [Strip(head), "2.0", LStrip(rest)]
  {
    var text := head + "\n" + rest;
    IndexOfAfterPrefix(head, '\n', rest);
    assert text[..|head|] == head && text[|head| + 1..] == rest;
    StripKeepsOut(head, '<');
    StripKeepsOut(rest, '<');
    TitleAround(Strip(head), LStrip(rest));
  }

  /** Two pieces without '<' around the title pause split back into themselves and its duration. */
  lemma TitleAround(a: string, b: string)
    requires '<' !in a && '<' !in b
    ensures SilenceParts(a + TitlePause + b) == [a, "2.0", b]
  {
    TitlePauseIsSilence();
    SplitAroundOne(a, "2.0", b);
  }

  /** A piece that starts with a digit is not blank. */
  lemma DigitLedHasText(part: string)
    requires LooksLikeDuration(part)
    ensures HasText(part)
  {
    assert !IsSpace(part[0]);
    assert LStrip(part) == part;
  }

  /** The chunks of a head, the title pause and a digit-led tail, both ways. */
  lemma DigitTextBlocks(head: string, tail: string, chunk: string -> seq<string>)
    requires LooksLikeDuration(tail)
    ensures Blocks([head, "2.0", tail], 3, chunk, true)
      == PartChunks(head, false, chunk) + [TitlePause, SilenceChunk(tail)]
    ensures Blocks([head, "2.0", tail], 3, chunk, false)
      == PartChunks(head, false, chunk) + [TitlePause] + chunk(tail)
  {
    var parts := [head, "2.0", tail];
    TitlePauseIsSilence();
    assert Blocks(parts, 1, chunk, true) == PartChunks(head, false, chunk);
    assert Blocks(parts, 1, chunk, false) == PartChunks(head, false, chunk);
  }

  /**
   * As written, a text piece after a silence that starts with a digit 1-9 is
   * taken for a duration: it comes out as a silence chunk holding the text,
   * where the intended chunking speaks it.
   */
  lemma DigitTextTakenAsSilence(head: string, tail: string, maxChars: int)
    requires '<' !in head && '<' !in tail && LooksLikeDuration(tail)
    ensures SilenceParts(head + TitlePause + tail) == [head, "2.0", tail]
    ensures Blocks(SilenceParts(head + TitlePause + tail), 3, Chunker(maxChars), true)
      == PartChunks(head, false, Chunker(maxChars)) + [TitlePause, SilenceChunk(tail)]
    ensures Blocks(SilenceParts(head + TitlePause + tail), 3, Chunker(maxChars), false)
      == PartChunks(head, false, Chunker(maxChars)) + [TitlePause] + TextChunks(tail, maxChars)
  {
    TitleAround(head, tail);
    DigitTextBlocks(head, tail, Chunker(maxChars));
    DigitLedHasText(tail);
  }
}
