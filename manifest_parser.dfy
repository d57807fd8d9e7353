/**
 * The manifest parser of the speech pipeline: it reads a book that collects
 * several works, takes the list of works from the book's index, finds where
 * each work starts in the body, and orders the works by position.
 *
 * Reading the file is not part of this model: the parser works on the file's
 * lines (with or without their line endings, which strip() removes anyway)
 * and on the file's path.
 */
module ManifestParser {
  import opened Wrappers
  import opened TextUtil
  import Sorting
  import Versioning
  import SeqUtil

  /** A line containing this opens the index. */
  const IndexStart: string := "ÍNDICE"
  /** A line containing this was meant to close the index. */
  const IndexEnd: string := "FIN DEL ÍNDICE"
  /** Index lines that name a work start with this. */
  const WorkMarker: string := "$"
  /** Work titles are searched from this line number (1-based) on. */
  const FirstBodyLine: nat := 100

  /**
   * A work of the collection. The program's Work also carries the work's
   * text and chapter list, which the parser leaves empty.
   */
  datatype Work = Work(id: int, title: string, year: Option<int>, startLine: int, endLine: int)

  /** An entry of the index: a title and the year found in it, if any. */
  datatype IndexEntry = IndexEntry(title: string, year: Option<int>)

  // ---------------------------------------------------------------------------
  // _extract_author

  /** str.title(), with the state "the previous character was cased". */
  function TitleFrom(s: string, prevCased: bool): (r: string)
    ensures |r| == |s|
  {
    if s == [] then []
    else [if prevCased then LowerChar(s[0]) else UpperChar(s[0])] + TitleFrom(s[1..], IsCased(s[0]))
  }

  /** str.title() */
  function TitleCase(s: string): (r: string)
    ensures |r| == |s|
  {
    TitleFrom(s, false)
  }

  lemma {:induction false} TitleFromAt(s: string, prevCased: bool, i: nat)
    requires i < |s|
    ensures TitleFrom(s, prevCased)[i]
      == if (if i == 0 then prevCased else IsCased(s[i - 1])) then LowerChar(s[i]) else UpperChar(s[i])
  {
    if i > 0 {
      TitleFromAt(s[1..], IsCased(s[0]), i - 1);
      assert s[1..][i - 1] == s[i];
      if i > 1 {
        assert s[1..][i - 2] == s[i - 1];
      }
    }
  }

  /**
   * A character is upper-cased when it opens a word (no cased character
   * before it) and lower-cased otherwise.
   */
  lemma TitleCaseAt(s: string)
    ensures forall i :: 0 <= i < |s| ==>
      TitleCase(s)[i] == if i > 0 && IsCased(s[i - 1]) then LowerChar(s[i]) else UpperChar(s[i])
  {
    forall i | 0 <= i < |s|
      ensures TitleCase(s)[i] == if i > 0 && IsCased(s[i - 1]) then LowerChar(s[i]) else UpperChar(s[i])
    {
      TitleFromAt(s, false, i);
    }
  }

  /** Title-casing a title-cased text changes nothing. */
  lemma TitleCaseIdempotent(s: string)
    ensures TitleCase(TitleCase(s)) == TitleCase(s)
  {
    var t := TitleCase(s);
    TitleCaseAt(s);
    TitleCaseAt(t);
    forall i | 0 <= i < |s| ensures TitleCase(t)[i] == t[i] {
      if i > 0 {
        var c := s[i - 1];
        assert t[i - 1] == if i > 1 && IsCased(s[i - 2]) then LowerChar(c) else UpperChar(c);
        assert IsCased(t[i - 1]) == IsCased(c);
      }
    }
  }

  /** Each occurrence of the character c is replaced by d, and nothing else changes. */
  lemma {:induction false} ReplaceCharAt(s: string, c: char, d: char)
    ensures var r := ReplaceAll(s, [c], [d]);
      |r| == |s| && forall i :: 0 <= i < |s| ==> r[i] == if s[i] == c then d else s[i]
    decreases |s|
  {
    if s != [] {
      ReplaceCharAt(s[1..], c, d);
      var rest := ReplaceAll(s[1..], [c], [d]);
      assert s[..1] == [s[0]];
      assert ReplaceAll(s, [c], [d]) == [if s[0] == c then d else s[0]] + rest;
      forall i | 0 < i < |s| ensures s[i] == s[1..][i - 1] { }
    }
  }

  /** _extract_author: the file's stem, with dashes and underscores as spaces, title-cased. */
  function ExtractAuthor(path: string): string
  {
    var stem := Versioning.Stem(Versioning.Name(path));
    TitleCase(ReplaceAll(ReplaceAll(stem, "-", " "), "_", " "))
  }

  /**
   * The author has one character per character of the file's stem: dashes
   * and underscores become spaces, and each word is capitalised.
   */
  lemma ExtractAuthorShape(path: string)
    ensures var stem := Versioning.Stem(Versioning.Name(path));
      var a := ExtractAuthor(path);
      |a| == |stem|
      && (forall i :: 0 <= i < |a| ==> (a[i] == ' ' <==> stem[i] == ' ' || stem[i] == '-' || stem[i] == '_'))
      && TitleCase(a) == a
  {
    var stem := Versioning.Stem(Versioning.Name(path));
    var spaced := ReplaceAll(ReplaceAll(stem, "-", " "), "_", " ");
    ReplaceCharAt(stem, '-', ' ');
    ReplaceCharAt(ReplaceAll(stem, "-", " "), '_', ' ');
    TitleCaseAt(spaced);
    TitleCaseIdempotent(spaced);
    forall i | 0 <= i < |spaced| ensures TitleCase(spaced)[i] == ' ' <==> spaced[i] == ' ' {
      assert TitleCase(spaced)[i] == if i > 0 && IsCased(spaced[i - 1]) then LowerChar(spaced[i]) else UpperChar(spaced[i]);
      CaseKeepsSpace(spaced[i]);
    }
  }

  /** Case mapping neither makes nor removes a space. */
  lemma CaseKeepsSpace(c: char)
    ensures LowerChar(c) == ' ' <==> c == ' '
    ensures UpperChar(c) == ' ' <==> c == ' '
  {
  }

  // ---------------------------------------------------------------------------
  // _extract_year

  /** `\((\d{4})\)` matches at p. */
  predicate YearAt(t: string, p: nat)
  {
    p + 6 <= |t| && t[p] == '(' && t[p + 5] == ')' && forall k :: p + 1 <= k < p + 5 ==> IsDigit(t[k])
  }

  /** re.search for `\((\d{4})\)` from p on: the leftmost match. */
  function FindYear(t: string, p: nat): (r: Option<nat>)
    ensures r.Some? ==> p <= r.value && YearAt(t, r.value) && forall q :: p <= q < r.value ==> !YearAt(t, q)
    ensures r.None? ==> forall q :: p <= q ==> !YearAt(t, q)
    decreases |t| - p
  {
    if p + 6 > |t| then None else if YearAt(t, p) then Some(p) else FindYear(t, p + 1)
  }

  /** int(match.group(1)) for a match at p. */
  function YearValue(t: string, p: nat): (y: nat)
    requires YearAt(t, p)
  {
    var digits := t[p + 1..p + 5];
    assert forall k :: 0 <= k < |digits| ==> digits[k] == t[p + 1 + k];
    DigitsValue(digits)
  }

  /** _extract_year: the four digits of the first parenthesised four-digit group, or None. */
  function ExtractYear(title: string): (r: Option<int>)
    ensures r.None? <==> forall q: nat :: !YearAt(title, q)
    ensures r.Some? ==> exists p: nat :: YearAt(title, p) && r.value == YearValue(title, p)
                                         && forall q: nat :: q < p ==> !YearAt(title, q)
  {
    match FindYear(title, 0)
    case None => None
    case Some(p) => Some(YearValue(title, p))
  }

  /**
   * re.sub(r'\s*\(\d{4}\)\s*$', '', title): a trailing parenthesised year is
   * removed with the whitespace around it. The leftmost match starts at the
   * first of the whitespace characters before the year.
   */
  function StripYear(title: string): string
  {
    var u := RStrip(title);
    if |u| >= 6 && YearAt(u, |u| - 6) then RStrip(u[..|u| - 6]) else title
  }

  /** A title followed by whitespace, a parenthesised year and whitespace gets back the title. */
  lemma StripYearSuffix(head: string, gap: string, digits: string, tail: string)
    requires head == [] || !IsSpace(head[|head| - 1])
    requires AllSpace(gap) && AllSpace(tail)
    requires |digits| == 4 && forall k :: 0 <= k < 4 ==> IsDigit(digits[k])
    ensures StripYear(head + gap + "(" + digits + ")" + tail) == head
  {
    var u := head + gap + "(" + digits + ")";
    EndsWithYear(head + gap, digits);
    assert head + gap + "(" + digits + ")" + tail == u + tail;
    RStripThenSpaces(u, tail);
    assert u[..|u| - 6] == head + gap;
    RStripThenSpaces(head, gap);
  }

  lemma EndsWithYear(p: string, digits: string)
    requires |digits| == 4 && forall k :: 0 <= k < 4 ==> IsDigit(digits[k])
    ensures var u := p + "(" + digits + ")";
      YearAt(u, |u| - 6) && u[..|u| - 6] == p && u != [] && !IsSpace(u[|u| - 1])
  {
    var u := p + "(" + digits + ")";
    forall k | |u| - 5 <= k < |u| - 1 ensures IsDigit(u[k]) {
      assert u[k] == digits[k - (|u| - 5)];
    }
  }

  /** A title that does not end with a parenthesised year is left as it is. */
  lemma StripYearKeeps(title: string)
    requires var u := RStrip(title); !(|u| >= 6 && YearAt(u, |u| - 6))
    ensures StripYear(title) == title
  {
  }

  // ---------------------------------------------------------------------------
  // _extract_index

  /** A stripped index line that names a work. */
  predicate IsMarkerLine(stripped: string)
  {
    StartsWith(stripped, WorkMarker)
  }

  /**
   * The entry a marker line names: the rest of the line stripped, the year
   * found in it, and, when that year is truthy (present and not 0), the
   * title without its trailing year.
   */
  function EntryOf(stripped: string): IndexEntry
    requires IsMarkerLine(stripped)
  {
    var title := Strip(stripped[1..]);
    var year := ExtractYear(title);
    IndexEntry(if year.Some? && year.value != 0 then StripYear(title) else title, year)
  }

  /** How the index scan reads one line. */
  datatype IndexLine = Opening | Closing | Marker(entry: IndexEntry) | Plain

  /**
   * The reading of _extract_index as written: the opening test comes first,
   * then the closing test, then the work marker.
   */
  function ClassifyAsWritten(line: string): IndexLine
  {
    var l := Strip(line);
    if Contains(l, IndexStart) then Opening
    else if Contains(l, IndexEnd) then Closing
    else if IsMarkerLine(l) then Marker(EntryOf(l))
    else Plain
  }

  /** The reading with the closing test first, as the index was evidently meant to be read. */
  function Classify(line: string): IndexLine
  {
    var l := Strip(line);
    if Contains(l, IndexEnd) then Closing
    else if Contains(l, IndexStart) then Opening
    else if IsMarkerLine(l) then Marker(EntryOf(l))
    else Plain
  }

  function ClassifyAllAsWritten(lines: seq<string>): (r: seq<IndexLine>)
    ensures |r| == |lines| && forall k :: 0 <= k < |lines| ==> r[k] == ClassifyAsWritten(lines[k])
  {
    seq(|lines|, k requires 0 <= k < |lines| => ClassifyAsWritten(lines[k]))
  }

  function ClassifyAll(lines: seq<string>): (r: seq<IndexLine>)
    ensures |r| == |lines| && forall k :: 0 <= k < |lines| ==> r[k] == Classify(lines[k])
  {
    seq(|lines|, k requires 0 <= k < |lines| => Classify(lines[k]))
  }

  /**
   * The entries collected from the remaining lines: an opening line enters the
   * index, a closing line ends the scan, a marker line inside the index gives
   * its entry.
   */
  function Scan(kinds: seq<IndexLine>, inIndex: bool): seq<IndexEntry>
    decreases |kinds|
  {
    if kinds == [] then []
    else match kinds[0]
      case Opening => Scan(kinds[1..], true)
      case Closing => []
      case Marker(e) => (if inIndex then [e] else []) + Scan(kinds[1..], inIndex)
      case Plain => Scan(kinds[1..], inIndex)
  }

  lemma ScanStep(kinds: seq<IndexLine>, i: nat, inIndex: bool)
    requires i < |kinds|
    ensures Scan(kinds[i..], inIndex) == match kinds[i]
      case Opening => Scan(kinds[i + 1..], true)
      case Closing => []
      case Marker(e) => (if inIndex then [e] else []) + Scan(kinds[i + 1..], inIndex)
      case Plain => Scan(kinds[i + 1..], inIndex)
  {
    assert kinds[i..][1..] == kinds[i + 1..];
  }

  /** _extract_index as written: the line loop with the in_index flag. */
  method ExtractIndex(lines: seq<string>) returns (works: seq<IndexEntry>)
    ensures works == Scan(ClassifyAllAsWritten(lines), false)
  {
    ghost var kinds := ClassifyAllAsWritten(lines);
    works := [];
    var inIndex := false;
    var i := 0;
    while i < |lines|
      invariant 0 <= i <= |lines|
      invariant works + Scan(kinds[i..], inIndex) == Scan(kinds, false)
    {
      var stripped := Strip(lines[i]);
      assert kinds[i] == ClassifyAsWritten(lines[i]);
      ScanStep(kinds, i, inIndex);
      if Contains(stripped, IndexStart) {
        assert kinds[i] == Opening;
        inIndex := true;
      } else if Contains(stripped, IndexEnd) {
        assert kinds[i] == Closing;
        break;
      } else if inIndex && IsMarkerLine(stripped) {
        assert kinds[i] == Marker(EntryOf(stripped));
        SeqUtil.ConcatAssoc(works, [EntryOf(stripped)], Scan(kinds[i + 1..], inIndex));
        works := works + [EntryOf(stripped)];
      } else {
        assert Scan(kinds[i..], inIndex) == Scan(kinds[i + 1..], inIndex);
      }
      i := i + 1;
    }
  }

  /** _extract_index with the closing test moved before the opening test. */
  method ExtractIndexFixed(lines: seq<string>) returns (works: seq<IndexEntry>)
    ensures works == Scan(ClassifyAll(lines), false)
  {
    ghost var kinds := ClassifyAll(lines);
    works := [];
    var inIndex := false;
    var i := 0;
    while i < |lines|
      invariant 0 <= i <= |lines|
      invariant works + Scan(kinds[i..], inIndex) == Scan(kinds, false)
    {
      var stripped := Strip(lines[i]);
      assert kinds[i] == Classify(lines[i]);
      ScanStep(kinds, i, inIndex);
      if Contains(stripped, IndexEnd) {
        assert kinds[i] == Closing;
        break;
      } else if Contains(stripped, IndexStart) {
        assert kinds[i] == Opening;
        inIndex := true;
      } else if inIndex && IsMarkerLine(stripped) {
        assert kinds[i] == Marker(EntryOf(stripped));
        SeqUtil.ConcatAssoc(works, [EntryOf(stripped)], Scan(kinds[i + 1..], inIndex));
        works := works + [EntryOf(stripped)];
      } else {
        assert Scan(kinds[i..], inIndex) == Scan(kinds[i + 1..], inIndex);
      }
      i := i + 1;
    }
  }

  /** An opening line comes before position k, or the scan started inside the index. */
  predicate Opened(kinds: seq<IndexLine>, k: nat, inIndex: bool)
    requires k <= |kinds|
  {
    inIndex || exists j: nat :: j < k && kinds[j] == Opening
  }

  /** No closing line up to and including position k. */
  predicate NoClosingUpTo(kinds: seq<IndexLine>, k: nat)
    requires k < |kinds|
  {
    forall m: nat :: m <= k ==> kinds[m] != Closing
  }

  lemma ShiftUp(kinds: seq<IndexLine>, k: nat, inIndex: bool, next: bool)
    requires k + 1 < |kinds| && kinds[0] != Closing
    requires next == (inIndex || kinds[0] == Opening)
    requires Opened(kinds[1..], k, next) && NoClosingUpTo(kinds[1..], k)
    ensures Opened(kinds, k + 1, inIndex) && NoClosingUpTo(kinds, k + 1)
  {
    if !next {
      var j: nat :| j < k && kinds[1..][j] == Opening;
      assert kinds[j + 1] == Opening;
    }
    forall m: nat | m <= k + 1
      ensures kinds[m] != Closing
    {
      if m > 0 {
        assert kinds[m] == kinds[1..][m - 1];
      }
    }
  }

  lemma ShiftDown(kinds: seq<IndexLine>, k: nat, inIndex: bool, next: bool)
    requires 0 < k < |kinds| && next == (inIndex || kinds[0] == Opening)
    requires Opened(kinds, k, inIndex) && NoClosingUpTo(kinds, k)
    ensures kinds[0] != Closing && kinds[1..][k - 1] == kinds[k]
    ensures Opened(kinds[1..], k - 1, next) && NoClosingUpTo(kinds[1..], k - 1)
  {
    assert kinds[0] != Closing;
    if !next {
      var j: nat :| j < k && kinds[j] == Opening;
      assert j > 0;
      assert kinds[1..][j - 1] == Opening;
    }
    forall m: nat | m <= k - 1
      ensures kinds[1..][m] != Closing
    {
      assert kinds[1..][m] == kinds[m + 1];
    }
  }

  /**
   * Every entry the scan collects comes from a marker line reached inside the
   * index before any closing line.
   */
  lemma {:induction false} ScanSound(kinds: seq<IndexLine>, inIndex: bool, e: IndexEntry)
    requires e in Scan(kinds, inIndex)
    ensures exists k: nat :: k < |kinds| && kinds[k] == Marker(e) && Opened(kinds, k, inIndex) && NoClosingUpTo(kinds, k)
    decreases |kinds|
  {
    var next := inIndex || kinds[0] == Opening;
    if kinds[0] == Marker(e) && inIndex {
      assert Opened(kinds, 0, inIndex) && NoClosingUpTo(kinds, 0);
    } else {
      assert kinds[0] != Closing;
      assert e in Scan(kinds[1..], next);
      ScanSound(kinds[1..], next, e);
      var k: nat :| k < |kinds[1..]| && kinds[1..][k] == Marker(e) && Opened(kinds[1..], k, next) && NoClosingUpTo(kinds[1..], k);
      ShiftUp(kinds, k, inIndex, next);
      assert kinds[k + 1] == Marker(e);
    }
  }

  /** Conversely, every such marker line gives its entry. */
  lemma {:induction false} ScanComplete(kinds: seq<IndexLine>, inIndex: bool, k: nat, e: IndexEntry)
    requires k < |kinds| && kinds[k] == Marker(e) && Opened(kinds, k, inIndex) && NoClosingUpTo(kinds, k)
    ensures e in Scan(kinds, inIndex)
    decreases k
  {
    if k > 0 {
      var next := inIndex || kinds[0] == Opening;
      ShiftDown(kinds, k, inIndex, next);
      ScanComplete(kinds[1..], next, k - 1, e);
    }
  }

  /** The scan ignores everything from a closing line on. */
  lemma {:induction false} ScanStops(kinds: seq<IndexLine>, inIndex: bool, k: nat)
    requires k < |kinds| && kinds[k] == Closing
    ensures Scan(kinds, inIndex) == Scan(kinds[..k], inIndex)
    decreases k
  {
    if k > 0 && kinds[0] != Closing {
      assert kinds[..k][1..] == kinds[1..][..k - 1];
      assert kinds[1..][k - 1] == Closing;
      ScanStops(kinds[1..], inIndex || kinds[0] == Opening, k - 1);
    }
  }

  /** The closing text holds the opening text eight characters in. */
  lemma EndLineOpens(l: string)
    ensures Contains(l, IndexEnd) ==> Contains(l, IndexStart)
  {
    if Contains(l, IndexEnd) {
      var k :| 0 <= k <= |l| - |IndexEnd| && OccursAt(l, IndexEnd, k);
      assert IndexEnd[8..] == IndexStart;
      assert l[k + 8..k + 8 + |IndexStart|] == l[k..k + |IndexEnd|][8..];
      assert OccursAt(l, IndexStart, k + 8);
    }
  }

  /** As written, the closing test is never reached: no line reads as closing. */
  lemma AsWrittenNeverCloses(line: string)
    ensures ClassifyAsWritten(line) != Closing
  {
    EndLineOpens(Strip(line));
  }

  /**
   * As written, an entry is collected exactly when its marker line follows some
   * opening line: closing lines play no part.
   */
  lemma ExtractIndexAsWrittenMember(lines: seq<string>, e: IndexEntry)
    ensures e in Scan(ClassifyAllAsWritten(lines), false) <==>
      exists k: nat :: k < |lines| && ClassifyAsWritten(lines[k]) == Marker(e)
        && exists j: nat :: j < k && ClassifyAsWritten(lines[j]) == Opening
  {
    var kinds := ClassifyAllAsWritten(lines);
    if e in Scan(kinds, false) {
      ScanSound(kinds, false, e);
    }
    if exists k: nat :: k < |lines| && ClassifyAsWritten(lines[k]) == Marker(e)
        && exists j: nat :: j < k && ClassifyAsWritten(lines[j]) == Opening {
      var k: nat :| k < |lines| && ClassifyAsWritten(lines[k]) == Marker(e)
        && exists j: nat :: j < k && ClassifyAsWritten(lines[j]) == Opening;
      forall m: nat | m <= k
        ensures kinds[m] != Closing
      {
        AsWrittenNeverCloses(lines[m]);
      }
      assert Opened(kinds, k, false);
      ScanComplete(kinds, false, k, e);
    }
  }

  /** The corrected scan reads nothing from the first closing line on. */
  lemma IndexFixedStops(lines: seq<string>, k: nat)
    requires k < |lines| && Contains(Strip(lines[k]), IndexEnd)
    ensures Scan(ClassifyAll(lines), false) == Scan(ClassifyAll(lines[..k]), false)
  {
    assert ClassifyAll(lines)[..k] == ClassifyAll(lines[..k]);
    ScanStops(ClassifyAll(lines), false, k);
  }

  /** Both readings take the opening text for an opening line. */
  lemma OpeningLine(line: string)
    requires line == IndexStart
    ensures ClassifyAsWritten(line) == Opening && Classify(line) == Opening
  {
    StripOfStripped(line);
    assert Strip(line) == line;
    assert OccursAt(line, IndexStart, 0);
    assert !Contains(line, IndexEnd);
  }

  /** Only the corrected reading takes the closing text for a closing line. */
  lemma ClosingLine(line: string)
    requires line == IndexEnd
    ensures ClassifyAsWritten(line) == Opening && Classify(line) == Closing
  {
    StripOfStripped(line);
    assert Strip(line) == line;
    assert OccursAt(line, IndexEnd, 0);
    EndLineOpens(line);
  }

  /** A one-character title holds no year. */
  lemma NoYearInOneLetter(c: char)
    ensures ExtractYear([c]) == None
  {
    assert forall q: nat :: !YearAt([c], q);
  }

  /** A marker line whose title holds no year names that title as it stands. */
  lemma EntryWithoutYear(line: string, title: string)
    requires IsMarkerLine(line) && Strip(line[1..]) == title && ExtractYear(title) == None
    ensures EntryOf(line) == IndexEntry(title, None)
  {
  }

  /** The entry of a marker line naming a one-letter work with no year. */
  lemma OneLetterEntry(line: string, c: char)
    requires line == ['$', c] && !IsSpace(c)
    ensures IsMarkerLine(line) && EntryOf(line) == IndexEntry([c], None)
  {
    assert line[..1] == WorkMarker;
    assert line[1..] == [c];
    StripOfStripped([c]);
    NoYearInOneLetter(c);
    EntryWithoutYear(line, [c]);
  }

  /** A stripped marker line holding neither delimiter reads the same both ways. */
  lemma MarkerClassified(line: string, e: IndexEntry)
    requires IsMarkerLine(Strip(line)) && EntryOf(Strip(line)) == e
    requires !Contains(Strip(line), IndexStart) && !Contains(Strip(line), IndexEnd)
    ensures ClassifyAsWritten(line) == Marker(e) && Classify(line) == Marker(e)
  {
  }

  /** Both readings take such a line for a marker line. */
  lemma OneLetterMarker(line: string, c: char)
    requires line == ['$', c] && !IsSpace(c)
    ensures ClassifyAsWritten(line) == Marker(IndexEntry([c], None))
    ensures Classify(line) == Marker(IndexEntry([c], None))
  {
    var e := IndexEntry([c], None);
    assert IsMarkerLine(Strip(line)) && EntryOf(Strip(line)) == e
      && !Contains(Strip(line), IndexStart) && !Contains(Strip(line), IndexEnd) by {
      assert !IsSpace(line[0]);
      StripOfStripped(line);
      OneLetterEntry(line, c);
    }
    MarkerClassified(line, e);
  }

  lemma ScanPastClosing(a: IndexEntry, b: IndexEntry)
    ensures Scan([Opening, Marker(a), Opening, Marker(b)], false) == [a, b]
    ensures Scan([Opening, Marker(a), Closing, Marker(b)], false) == [a]
  {
    var w := [Opening, Marker(a), Opening, Marker(b)];
    assert w[1..][1..][1..][1..] == [];
    assert Scan(w[1..][1..][1..], true) == [b];
    assert Scan(w[1..][1..], true) == [b];
    assert Scan(w[1..], true) == [a, b];
    var f := [Opening, Marker(a), Closing, Marker(b)];
    assert f[1..][1..][0] == Closing;
    assert Scan(f[1..], true) == [a];
  }

  lemma FourElements(s: seq<IndexLine>, x0: IndexLine, x1: IndexLine, x2: IndexLine, x3: IndexLine)
    requires |s| == 4 && s[0] == x0 && s[1] == x1 && s[2] == x2 && s[3] == x3
    ensures s == [x0, x1, x2, x3]
  {
  }

  /**
   * An index followed by one more marker line: as written both entries are
   * collected.
   */
  lemma IndexRunsPastClosing(lines: seq<string>, c: char, d: char)
    requires lines == [IndexStart, ['$', c], IndexEnd, ['$', d]] && !IsSpace(c) && !IsSpace(d)
    ensures Scan(ClassifyAllAsWritten(lines), false) == [IndexEntry([c], None), IndexEntry([d], None)]
  {
    OpeningLine(lines[0]);
    ClosingLine(lines[2]);
    OneLetterMarker(lines[1], c);
    OneLetterMarker(lines[3], d);
    var a := IndexEntry([c], None);
    var b := IndexEntry([d], None);
    var written := ClassifyAllAsWritten(lines);
    FourElements(written, Opening, Marker(a), Opening, Marker(b));
    ScanPastClosing(a, b);
  }

  /** The same lines read with the correction: only the entry inside the index. */
  lemma IndexFixedStopsAtClosing(lines: seq<string>, c: char, d: char)
    requires lines == [IndexStart, ['$', c], IndexEnd, ['$', d]] && !IsSpace(c) && !IsSpace(d)
    ensures Scan(ClassifyAll(lines), false) == [IndexEntry([c], None)]
  {
    OpeningLine(lines[0]);
    ClosingLine(lines[2]);
    OneLetterMarker(lines[1], c);
    OneLetterMarker(lines[3], d);
    var a := IndexEntry([c], None);
    var b := IndexEntry([d], None);
    var fixed := ClassifyAll(lines);
    FourElements(fixed, Opening, Marker(a), Closing, Marker(b));
    ScanPastClosing(a, b);
  }

  // ---------------------------------------------------------------------------
  // _find_work_start

  /**
   * Line n (1-based) stands alone as the work's title: stripped and
   * upper-cased it is not empty and equals the cleaned title.
   */
  predicate IsTitleLine(lines: seq<string>, n: nat, titleClean: string)
    requires 1 <= n <= |lines|
  {
    var lineClean := Upper(Strip(lines[n - 1]));
    lineClean != [] && lineClean == titleClean
  }

  /** The first n' in n..last with at(n'), if any. */
  function FirstFrom(at: nat -> bool, n: nat, last: nat): Option<nat>
    decreases last + 1 - n
  {
    if n > last then None
    else if at(n) then Some(n)
    else FirstFrom(at, n + 1, last)
  }

  /** FirstFrom finds the least position that satisfies at, or reports that there is none. */
  lemma {:induction false} FirstFromLeast(at: nat -> bool, n: nat, last: nat)
    ensures var r := FirstFrom(at, n, last);
      && (r.Some? ==> n <= r.value <= last && at(r.value) && forall m: nat :: n <= m < r.value ==> !at(m))
      && (r.None? ==> forall m: nat :: n <= m <= last ==> !at(m))
    decreases last + 1 - n
  {
    if n <= last && !at(n) {
      FirstFromLeast(at, n + 1, last);
    }
  }

  /** The lines the search for a cleaned title accepts: title lines from line 100 on. */
  function TitleLineFn(lines: seq<string>, titleClean: string): (at: nat -> bool)
    ensures forall n: nat :: at(n) ==> FirstBodyLine <= n <= |lines|
  {
    (n: nat) => FirstBodyLine <= n <= |lines| && IsTitleLine(lines, n, titleClean)
  }

  /** The lines the search for a title accepts, once the title is cleaned. */
  function TitleFn(lines: seq<string>, title: string): nat -> bool
  {
    (n: nat) => TitleLineFn(lines, Strip(Upper(title)))(n)
  }

  /** The line where a work starts: the first title line from line 100 on. */
  function WorkStart(lines: seq<string>, title: string): Option<nat>
  {
    FirstFrom(TitleFn(lines, title), 1, |lines|)
  }

  /** A search gives the same answer for two tests that agree on its range. */
  lemma {:induction false} FirstFromSame(at: nat -> bool, at': nat -> bool, n: nat, last: nat)
    requires forall m: nat :: n <= m <= last ==> at(m) == at'(m)
    ensures FirstFrom(at, n, last) == FirstFrom(at', n, last)
    decreases last + 1 - n
  {
    if n <= last {
      FirstFromSame(at, at', n + 1, last);
    }
  }

  /** The search for a title accepts line m when m is from line 100 on and holds the title alone. */
  lemma TitleFnAt(lines: seq<string>, title: string, m: nat)
    ensures TitleFn(lines, title)(m) <==> FirstBodyLine <= m <= |lines| && IsTitleLine(lines, m, Strip(Upper(title)))
  {
    var t := Strip(Upper(title));
    assert TitleFn(lines, title)(m) == TitleLineFn(lines, t)(m);
  }

  /** A work starts at the first line from line 100 on that holds its title alone. */
  lemma WorkStartFirst(lines: seq<string>, title: string)
    ensures var r := WorkStart(lines, title);
      var t := Strip(Upper(title));
      && (r.Some? ==> FirstBodyLine <= r.value <= |lines| && IsTitleLine(lines, r.value, t)
                      && forall m: nat :: FirstBodyLine <= m < r.value ==> !IsTitleLine(lines, m, t))
      && (r.None? ==> forall m: nat :: FirstBodyLine <= m <= |lines| ==> !IsTitleLine(lines, m, t))
  {
    var t := Strip(Upper(title));
    var at := TitleFn(lines, title);
    var r := WorkStart(lines, title);
    FirstFromLeast(at, 1, |lines|);
    if r.Some? {
      TitleFnAt(lines, title, r.value);
    }
    var bound := if r.Some? then r.value else |lines| + 1;
    forall m: nat | FirstBodyLine <= m < bound
      ensures !IsTitleLine(lines, m, t)
    {
      TitleFnAt(lines, title, m);
    }
  }

  /** _find_work_start: cleans the title, then scans the numbered lines. */
  method FindWorkStart(lines: seq<string>, title: string) returns (r: Option<nat>)
    ensures r == WorkStart(lines, title)
  {
    var titleClean := Strip(Upper(title));
    r := FirstLine(TitleLineFn(lines, titleClean), |lines|);
    FirstFromSame(TitleFn(lines, title), TitleLineFn(lines, titleClean), 1, |lines|);
  }

  /**
   * The scan of _find_work_start over the numbered lines 1..last: the first
   * line the test accepts, or None when the scan runs out.
   */
  method FirstLine(at: nat -> bool, last: nat) returns (r: Option<nat>)
    ensures r == FirstFrom(at, 1, last)
  {
    var n := 1;
    while n <= last
      invariant 1 <= n <= last + 1
      invariant FirstFrom(at, n, last) == FirstFrom(at, 1, last)
      decreases last + 1 - n
    {
      if at(n) {
        return Some(n);
      }
      n := n + 1;
    }
    return None;
  }

  // ---------------------------------------------------------------------------
  // _find_work_boundaries

  /** The start lines already taken. */
  function StartsOf(works: seq<Work>): set<int>
  {
    set w | w in works :: w.startLine
  }

  function StartKey(w: Work): int
  {
    w.startLine
  }

  /** The start line of each index entry's work, in index order. */
  function Starts(lines: seq<string>, index: seq<IndexEntry>): (starts: seq<Option<nat>>)
    ensures |starts| == |index|
  {
    if index == [] then []
    else Starts(lines, index[..|index| - 1]) + [WorkStart(lines, index[|index| - 1].title)]
  }

  /**
   * The works collected from the first n index entries, in index order, given
   * the start found for each: an entry whose title is found, at a line no
   * earlier entry took, gives a work with id 0 and end 0.
   */
  function Collected(index: seq<IndexEntry>, starts: seq<Option<nat>>, n: nat): seq<Work>
    requires n <= |index| && n <= |starts|
  {
    if n == 0 then []
    else
      var prev := Collected(index, starts, n - 1);
      var e := index[n - 1];
      var s := starts[n - 1];
      if s.Some? && s.value !in StartsOf(prev) then prev + [Work(0, e.title, e.year, s.value, 0)] else prev
  }

  /**
   * The sorted works numbered from 1, each ending on the line before the next
   * one starts and the last on the book's last line.
   */
  function Numbered(sorted: seq<Work>, total: int): seq<Work>
  {
    seq(|sorted|, i requires 0 <= i < |sorted| =>
      sorted[i].(id := i + 1, endLine := if i + 1 < |sorted| then sorted[i + 1].startLine - 1 else total))
  }

  /**
   * The result of _find_work_boundaries for an index, the start found for
   * each entry and the book's line count.
   */
  function BoundariesFrom(index: seq<IndexEntry>, starts: seq<Option<nat>>, total: int): seq<Work>
    requires |starts| == |index|
  {
    Numbered(Sorting.SortBy(Collected(index, starts, |index|), StartKey), total)
  }

  /** The result of _find_work_boundaries for a book and its index. */
  function Boundaries(lines: seq<string>, index: seq<IndexEntry>): seq<Work>
  {
    BoundariesFrom(index, Starts(lines, index), |lines|)
  }

  /** The loop of _find_work_boundaries over the index, with the set of start lines seen. */
  method CollectWorks(lines: seq<string>, index: seq<IndexEntry>) returns (works: seq<Work>)
    ensures works == Collected(index, Starts(lines, index), |index|)
  {
    works := [];
    var seen: set<int> := {};
    ghost var starts: seq<Option<nat>> := [];
    for i := 0 to |index|
      invariant starts == Starts(lines, index[..i])
      invariant works == Collected(index, starts, i)
      invariant seen == StartsOf(works)
    {
      var title, year := index[i].title, index[i].year;
      var start := FindWorkStart(lines, title);
      assert index[..i + 1][..i] == index[..i];
      starts := starts + [start];
      CollectedPrefix(index, starts, i);
      if start.Some? && start.value !in seen {
        var w := Work(0, title, year, start.value, 0);
        assert StartsOf(works + [w]) == StartsOf(works) + {w.startLine};
        works := works + [w];
        seen := seen + {start.value};
      }
    }
    assert index[..|index|] == index;
  }

  /** Collected reads the starts of the first n entries only. */
  lemma {:induction false} CollectedPrefix(index: seq<IndexEntry>, starts: seq<Option<nat>>, n: nat)
    requires n < |starts| && n <= |index|
    ensures Collected(index, starts, n) == Collected(index, starts[..n], n)
  {
    if n > 0 {
      CollectedPrefix(index, starts, n - 1);
      CollectedPrefix(index, starts[..n], n - 1);
      assert starts[..n][..n - 1] == starts[..n - 1];
    }
  }

  /** Entry k's start is the start found for its title. */
  lemma {:induction false} StartsAt(lines: seq<string>, index: seq<IndexEntry>, k: nat)
    requires k < |index|
    ensures Starts(lines, index)[k] == WorkStart(lines, index[k].title)
    decreases |index|
  {
    var init := index[..|index| - 1];
    if k < |index| - 1 {
      StartsAt(lines, init, k);
      assert init[k] == index[k];
    }
  }

  /** A start that is found lies in the body, from line 100 to the last line. */
  lemma WorkStartInBody(lines: seq<string>, title: string)
    ensures var r := WorkStart(lines, title);
      r.Some? ==> FirstBodyLine <= r.value <= |lines|
  {
    var at := TitleFn(lines, title);
    FirstFromLeast(at, 1, |lines|);
    var r := WorkStart(lines, title);
    if r.Some? {
      TitleFnAt(lines, title, r.value);
    }
  }

  /** Every start found for an entry is taken by some collected work. */
  lemma {:induction false} CollectedComplete(index: seq<IndexEntry>, starts: seq<Option<nat>>, n: nat)
    requires n <= |index| && n <= |starts|
    ensures forall k :: 0 <= k < n && starts[k].Some? ==> starts[k].value in StartsOf(Collected(index, starts, n))
  {
    if n > 0 {
      CollectedComplete(index, starts, n - 1);
      var prev := Collected(index, starts, n - 1);
      var s := starts[n - 1];
      if s.Some? && s.value !in StartsOf(prev) {
        var w := Work(0, index[n - 1].title, index[n - 1].year, s.value, 0);
        assert StartsOf(prev + [w]) == StartsOf(prev) + {s.value};
      }
    }
  }

  /**
   * w has the title and year of the first of the first n entries whose
   * start is w's start line.
   */
  predicate FromFirstEntry(index: seq<IndexEntry>, starts: seq<Option<nat>>, n: nat, w: Work)
  {
    exists k :: 0 <= k < n && k < |index| && k < |starts| && starts[k] == Some(w.startLine)
      && index[k].title == w.title && index[k].year == w.year
      && forall j :: 0 <= j < k ==> starts[j] != Some(w.startLine)
  }

  /**
   * Every collected work comes from the first entry whose start is its start
   * line: it carries that entry's title and year, id 0 and end 0.
   */
  lemma {:induction false} CollectedSound(index: seq<IndexEntry>, starts: seq<Option<nat>>, n: nat)
    requires n <= |index| && n <= |starts|
    ensures forall w :: w in Collected(index, starts, n) ==>
      w.id == 0 && w.endLine == 0 && FromFirstEntry(index, starts, n, w)
  {
    if n > 0 {
      CollectedSound(index, starts, n - 1);
      var prev := Collected(index, starts, n - 1);
      var s := starts[n - 1];
      if s.Some? && s.value !in StartsOf(prev) {
        CollectedComplete(index, starts, n - 1);
        var w := Work(0, index[n - 1].title, index[n - 1].year, s.value, 0);
        assert forall j :: 0 <= j < n - 1 ==> starts[j] != Some(w.startLine);
      }
    }
  }

  /** Every collected work starts on a line found for some entry. */
  lemma {:induction false} CollectedFromStarts(index: seq<IndexEntry>, starts: seq<Option<nat>>, n: nat)
    requires n <= |index| && n <= |starts|
    ensures forall w :: w in Collected(index, starts, n) ==> exists k :: 0 <= k < n && starts[k] == Some(w.startLine)
  {
    if n > 0 {
      CollectedFromStarts(index, starts, n - 1);
    }
  }

  /** No two collected works start on the same line. */
  lemma {:induction false} CollectedDistinct(index: seq<IndexEntry>, starts: seq<Option<nat>>, n: nat)
    requires n <= |index| && n <= |starts|
    ensures Sorting.DistinctKeys(Collected(index, starts, n), StartKey)
  {
    if n > 0 {
      CollectedDistinct(index, starts, n - 1);
      var prev := Collected(index, starts, n - 1);
      var s := starts[n - 1];
      if s.Some? && s.value !in StartsOf(prev) {
        var w := Work(0, index[n - 1].title, index[n - 1].year, s.value, 0);
        var r := prev + [w];
        forall i, j | 0 <= i < j < |r|
          ensures StartKey(r[i]) != StartKey(r[j])
        {
          if j == |prev| {
            assert r[i] in prev;
          }
        }
      }
    }
  }

  /** Every start found for an entry lies in the body, from line 100 to the last line. */
  lemma StartsInBody(lines: seq<string>, index: seq<IndexEntry>)
    ensures forall k :: 0 <= k < |Starts(lines, index)| && Starts(lines, index)[k].Some? ==>
      FirstBodyLine <= Starts(lines, index)[k].value <= |lines|
  {
    var starts := Starts(lines, index);
    forall k | 0 <= k < |starts| && starts[k].Some?
      ensures FirstBodyLine <= starts[k].value <= |lines|
    {
      StartsAt(lines, index, k);
      WorkStartInBody(lines, index[k].title);
    }
  }

  /** Works in strictly increasing order of start line, numbered and given their end lines. */
  lemma NumberedShape(sorted: seq<Work>, total: int)
    requires forall i, j :: 0 <= i < j < |sorted| ==> sorted[i].startLine < sorted[j].startLine
    ensures var ws := Numbered(sorted, total);
      && |ws| == |sorted|
      && (forall i :: 0 <= i < |ws| ==> ws[i].id == i + 1)
      && (forall i :: 0 <= i < |ws| ==> ws[i].(id := 0, endLine := 0) == sorted[i].(id := 0, endLine := 0))
      && (forall i, j :: 0 <= i < j < |ws| ==> ws[i].startLine < ws[j].startLine)
      && (forall i :: 0 <= i < |ws| - 1 ==> ws[i].startLine <= ws[i].endLine == ws[i + 1].startLine - 1)
      && (|ws| > 0 ==> ws[|ws| - 1].endLine == total)
  {
  }

  /** Collected works, sorted by start line: strictly increasing, each one a collected work. */
  lemma SortedCollected(index: seq<IndexEntry>, starts: seq<Option<nat>>)
    requires |starts| == |index|
    ensures forall i, j :: 0 <= i < j < |Sorting.SortBy(Collected(index, starts, |index|), StartKey)| ==>
      Sorting.SortBy(Collected(index, starts, |index|), StartKey)[i].startLine
        < Sorting.SortBy(Collected(index, starts, |index|), StartKey)[j].startLine
    ensures forall w :: w in Collected(index, starts, |index|) <==> w in Sorting.SortBy(Collected(index, starts, |index|), StartKey)
  {
    var c := Collected(index, starts, |index|);
    var sorted := Sorting.SortBy(c, StartKey);
    CollectedDistinct(index, starts, |index|);
    Sorting.SortByStrict(c, StartKey);
    forall w
      ensures w in c <==> w in sorted
    {
      assert w in c <==> w in multiset(c);
    }
  }

  /**
   * The works come out numbered 1, 2, ... in strictly increasing order of
   * start line; each ends on the line before the next one starts, and the
   * last on the book's last line.
   */
  lemma BoundariesOrdered(index: seq<IndexEntry>, starts: seq<Option<nat>>, total: int)
    requires |starts| == |index|
    ensures var ws := BoundariesFrom(index, starts, total);
      && (forall i :: 0 <= i < |ws| ==> ws[i].id == i + 1)
      && (forall i, j :: 0 <= i < j < |ws| ==> ws[i].startLine < ws[j].startLine)
      && (forall i :: 0 <= i < |ws| - 1 ==> ws[i].endLine == ws[i + 1].startLine - 1)
      && (|ws| > 0 ==> ws[|ws| - 1].endLine == total)
  {
    SortedCollected(index, starts);
    var sorted := Sorting.SortBy(Collected(index, starts, |index|), StartKey);
    assert forall i, j :: 0 <= i < j < |sorted| ==> sorted[i].startLine < sorted[j].startLine;
    NumberedShape(sorted, total);
  }

  /**
   * When every start found lies between line lo and the last line, every
   * work spans a non-empty range of lines: lo <= start <= end <= last line.
   */
  lemma BoundariesInRange(index: seq<IndexEntry>, starts: seq<Option<nat>>, lo: int, total: int)
    requires |starts| == |index|
    requires forall k :: 0 <= k < |starts| && starts[k].Some? ==> lo <= starts[k].value <= total
    ensures var ws := BoundariesFrom(index, starts, total);
      forall i :: 0 <= i < |ws| ==> lo <= ws[i].startLine <= ws[i].endLine <= total
  {
    var c := Collected(index, starts, |index|);
    var sorted := Sorting.SortBy(c, StartKey);
    CollectedFromStarts(index, starts, |index|);
    SortedCollected(index, starts);
    StartsBounded(starts, c, sorted, lo, total);
    NumberedInRange(sorted, lo, total);
  }

  /** Works in strictly increasing order, all starting in [lo, total], span [lo, total] once numbered. */
  lemma NumberedInRange(sorted: seq<Work>, lo: int, total: int)
    requires forall i, j :: 0 <= i < j < |sorted| ==> sorted[i].startLine < sorted[j].startLine
    requires forall i :: 0 <= i < |sorted| ==> lo <= sorted[i].startLine <= total
    ensures var ws := Numbered(sorted, total);
      forall i :: 0 <= i < |ws| ==> lo <= ws[i].startLine <= ws[i].endLine <= total
  {
    var ws := Numbered(sorted, total);
    forall i | 0 <= i < |ws|
      ensures lo <= ws[i].startLine <= ws[i].endLine <= total
    {
      if i + 1 < |sorted| {
        assert sorted[i].startLine < sorted[i + 1].startLine;
      }
    }
  }

  /** Works whose start lines are all starts found in [lo, total] start in [lo, total]. */
  lemma StartsBounded(starts: seq<Option<nat>>, c: seq<Work>, sorted: seq<Work>, lo: int, total: int)
    requires forall k :: 0 <= k < |starts| && starts[k].Some? ==> lo <= starts[k].value <= total
    requires forall w :: w in c ==> exists k :: 0 <= k < |starts| && starts[k] == Some(w.startLine)
    requires forall w :: w in c <==> w in sorted
    ensures forall i :: 0 <= i < |sorted| ==> lo <= sorted[i].startLine <= total
  {
    forall i | 0 <= i < |sorted|
      ensures lo <= sorted[i].startLine <= total
    {
      assert sorted[i] in c;
    }
  }

  /** Every work of a book starts and ends in the body: 100 <= start <= end <= last line. */
  lemma BoundariesInBody(lines: seq<string>, index: seq<IndexEntry>)
    ensures var ws := Boundaries(lines, index);
      forall i :: 0 <= i < |ws| ==> FirstBodyLine <= ws[i].startLine <= ws[i].endLine <= |lines|
  {
    StartsInBody(lines, index);
    BoundariesInRange(index, Starts(lines, index), FirstBodyLine, |lines|);
  }

  /**
   * Each work carries the title and year of the first index entry found at
   * its start line.
   */
  lemma BoundariesFromIndex(index: seq<IndexEntry>, starts: seq<Option<nat>>, total: int)
    requires |starts| == |index|
    ensures var ws := BoundariesFrom(index, starts, total);
      forall i :: 0 <= i < |ws| ==> FromFirstEntry(index, starts, |index|, ws[i])
  {
    var c := Collected(index, starts, |index|);
    var sorted := Sorting.SortBy(c, StartKey);
    var ws := BoundariesFrom(index, starts, total);
    SortedCollected(index, starts);
    NumberedShape(sorted, total);
    CollectedSound(index, starts, |index|);
    forall i | 0 <= i < |ws|
      ensures FromFirstEntry(index, starts, |index|, ws[i])
    {
      assert sorted[i] in c;
      assert ws[i].(id := 0, endLine := 0) == sorted[i];
    }
  }

  /** Every start found for an index entry is the start line of a work. */
  lemma BoundariesCoverIndex(index: seq<IndexEntry>, starts: seq<Option<nat>>, total: int)
    requires |starts| == |index|
    ensures var ws := BoundariesFrom(index, starts, total);
      forall k :: 0 <= k < |index| && starts[k].Some? ==>
        exists i :: 0 <= i < |ws| && ws[i].startLine == starts[k].value
  {
    var c := Collected(index, starts, |index|);
    var sorted := Sorting.SortBy(c, StartKey);
    var ws := BoundariesFrom(index, starts, total);
    SortedCollected(index, starts);
    NumberedShape(sorted, total);
    CollectedComplete(index, starts, |index|);
    assert forall i :: 0 <= i < |ws| ==> ws[i].startLine == sorted[i].startLine by {
      forall i | 0 <= i < |ws|
        ensures ws[i].startLine == sorted[i].startLine
      {
        assert ws[i].(id := 0, endLine := 0) == sorted[i].(id := 0, endLine := 0);
      }
    }
    forall k | 0 <= k < |index| && starts[k].Some?
      ensures exists i :: 0 <= i < |ws| && ws[i].startLine == starts[k].value
    {
      StartCarried(c, sorted, ws, starts[k].value);
    }
  }

  /** A start line of c is the start line of some entry of ws, which has c's works in order. */
  lemma StartCarried(c: seq<Work>, sorted: seq<Work>, ws: seq<Work>, v: int)
    requires v in StartsOf(c)
    requires forall w :: w in c <==> w in sorted
    requires |ws| == |sorted|
    requires forall i :: 0 <= i < |ws| ==> ws[i].startLine == sorted[i].startLine
    ensures exists i :: 0 <= i < |ws| && ws[i].startLine == v
  {
    var w :| w in c && w.startLine == v;
    var i :| 0 <= i < |sorted| && sorted[i] == w;
    assert ws[i].startLine == v;
  }


  /**
   * _find_work_boundaries: collect, sort by start line, then number the works
   * and set their end lines in place.
   */
  method FindWorkBoundaries(lines: seq<string>, index: seq<IndexEntry>) returns (works: seq<Work>)
    ensures works == Boundaries(lines, index)
  {
    var collected := CollectWorks(lines, index);
    var sorted := Sorting.SortBy(collected, StartKey);
    works := NumberWorks(sorted, |lines|);
  }

  /**
   * The two numbering loops of _find_work_boundaries over the sorted list: ids
   * from 1, then each work ending on the line before the next one starts, and
   * the last on the book's last line.
   */
  method NumberWorks(sorted: seq<Work>, total: int) returns (works: seq<Work>)
    ensures works == Numbered(sorted, total)
  {
    var numbered := SetIds(sorted);
    works := SetEnds(numbered, total);
    forall k | 0 <= k < |works|
      ensures works[k] == Numbered(sorted, total)[k]
    {
      assert numbered[k] == sorted[k].(id := k + 1);
      assert |Numbered(sorted, total)| == |sorted|;
      if k + 1 < |works| {
        assert numbered[k + 1].startLine == sorted[k + 1].startLine;
        assert works[k] == sorted[k].(id := k + 1, endLine := sorted[k + 1].startLine - 1);
      } else {
        assert works[k] == sorted[k].(id := k + 1, endLine := total);
      }
    }
  }

  /** The loop of _find_work_boundaries that numbers the works from 1. */
  method SetIds(sorted: seq<Work>) returns (works: seq<Work>)
    ensures |works| == |sorted|
    ensures forall k :: 0 <= k < |works| ==> works[k] == sorted[k].(id := k + 1)
  {
    works := sorted;
    for i := 0 to |works|
      invariant |works| == |sorted|
      invariant forall k :: 0 <= k < i ==> works[k] == sorted[k].(id := k + 1)
      invariant forall k :: i <= k < |works| ==> works[k] == sorted[k]
    {
      works := works[i := works[i].(id := i + 1)];
    }
  }

  /**
   * The loop of _find_work_boundaries that ends each work on the line before
   * the next one starts, then the step that ends the last on the last line.
   */
  method SetEnds(numbered: seq<Work>, total: int) returns (works: seq<Work>)
    ensures |works| == |numbered|
    ensures forall k :: 0 <= k < |works| ==>
      works[k] == numbered[k].(endLine := if k + 1 < |works| then numbered[k + 1].startLine - 1 else total)
  {
    works := numbered;
    var i := 0;
    while i + 1 < |works|
      invariant |works| == |numbered|
      invariant i <= |works| && (|works| == 0 || i < |works|)
      invariant forall k :: 0 <= k < i ==> works[k] == numbered[k].(endLine := numbered[k + 1].startLine - 1)
      invariant forall k :: i <= k < |works| ==> works[k] == numbered[k]
    {
      works := works[i := works[i].(endLine := works[i + 1].startLine - 1)];
      i := i + 1;
    }
    if |works| > 0 {
      works := works[|works| - 1 := works[|works| - 1].(endLine := total)];
    }
  }

  // ---------------------------------------------------------------------------
  // The parser object and the manifest it produces
  // ---------------------------------------------------------------------------

  /** The collection manifest: the author, the source file and its works. */
  datatype Manifest = Manifest(author: string, sourceFile: string, totalWorks: int, works: seq<Work>)

  /** The manifest of the book at path with the given lines, for the index entries read from them. */
  function ManifestFor(path: string, lines: seq<string>, index: seq<IndexEntry>): Manifest
  {
    var works := Boundaries(lines, index);
    Manifest(ExtractAuthor(path), path, |works|, works)
  }

  /** The manifest as parse builds it, with the index read by the scan as written. */
  function ManifestOfAsWritten(path: string, lines: seq<string>): Manifest
  {
    ManifestFor(path, lines, Scan(ClassifyAllAsWritten(lines), false))
  }

  /** The manifest with the index read by the corrected scan that stops at the closing line. */
  function ManifestOf(path: string, lines: seq<string>): Manifest
  {
    ManifestFor(path, lines, Scan(ClassifyAll(lines), false))
  }

  /**
   * A manifest of a book of total lines that counts its works, numbers them
   * 1, 2, ... in strictly increasing order of start line, and cuts the body
   * from the first work's start to the last line into consecutive non-empty
   * spans, one per work, none starting before line 100.
   */
  predicate WellShaped(m: Manifest, path: string, total: int)
  {
    && m.totalWorks == |m.works|
    && m.author == ExtractAuthor(path)
    && (forall i :: 0 <= i < |m.works| ==> m.works[i].id == i + 1)
    && (forall i, j :: 0 <= i < j < |m.works| ==> m.works[i].startLine < m.works[j].startLine)
    && (forall i :: 0 <= i < |m.works| - 1 ==> m.works[i].endLine == m.works[i + 1].startLine - 1)
    && (|m.works| > 0 ==> m.works[|m.works| - 1].endLine == total)
    && (forall i :: 0 <= i < |m.works| ==> FirstBodyLine <= m.works[i].startLine <= m.works[i].endLine <= total)
  }

  /** Whatever index entries are read, the manifest built from them is well shaped. */
  lemma ManifestForShape(path: string, lines: seq<string>, index: seq<IndexEntry>)
    ensures WellShaped(ManifestFor(path, lines, index), path, |lines|)
  {
    BoundariesOrdered(index, Starts(lines, index), |lines|);
    BoundariesInBody(lines, index);
  }

  /** The manifests of both scans, the one parse runs and the corrected one, are well shaped. */
  lemma ManifestShape(path: string, lines: seq<string>)
    ensures WellShaped(ManifestOfAsWritten(path, lines), path, |lines|)
    ensures WellShaped(ManifestOf(path, lines), path, |lines|)
  {
    ManifestForShape(path, lines, Scan(ClassifyAllAsWritten(lines), false));
    ManifestForShape(path, lines, Scan(ClassifyAll(lines), false));
  }

  /**
   * ManifestParser: built from a file path, it keeps the author taken from
   * the path and, once parse has run, the lines of the file.
   */
  class Parser {
    const filePath: string
    const author: string
    var lines: seq<string>

    /** The author is the one named by the path. */
    predicate Valid()
    {
      author == ExtractAuthor(filePath)
    }

    constructor (filePath: string)
      ensures this.filePath == filePath
      ensures lines == []
      ensures Valid()
    {
      this.filePath := filePath;
      lines := [];
      author := ExtractAuthor(filePath);
    }

    /**
     * parse: load the lines (given here as contents, since file reading is
     * not modelled), read the index, find the work boundaries and build the
     * manifest. The index is read by the scan as written (ExtractIndex).
     */
    method Parse(contents: seq<string>) returns (m: Manifest)
      requires Valid()
      modifies this
      ensures lines == contents
      ensures m == ManifestOfAsWritten(filePath, contents)
      ensures WellShaped(m, filePath, |contents|)
    {
      lines := contents;
      ManifestShape(filePath, contents);
      var index := ExtractIndex(lines);
      var works := FindWorkBoundaries(lines, index);
      m := Manifest(author, filePath, |works|, works);
    }
  }
}
