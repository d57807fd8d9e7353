/**
 * Names of the corrected file and of its summary: the original file's stem,
 * a version tag, and a suffix. The version is a parameter; when the program
 * is given none it draws one from the clock, which is not part of this model.
 *
 * Paths follow POSIX pure paths: the name is the last component that is
 * neither empty nor ".", and the suffix starts at the name's last dot when
 * that dot is neither the first nor the last character.
 */
module Versioning {
  import opened TextUtil

  /** The position of the last c in s. */
  function LastIndexOf(s: string, c: char): (i: nat)
    requires c in s
    ensures i < |s| && s[i] == c && c !in s[i + 1..]
  {
    if s[|s| - 1] == c then |s| - 1
    else
      assert c in s[..|s| - 1] by {
        var k :| 0 <= k < |s| && s[k] == c;
        assert s[..|s| - 1][k] == c;
      }
      var i := LastIndexOf(s[..|s| - 1], c);
      assert s[i + 1..] == s[..|s| - 1][i + 1..] + [s[|s| - 1]];
      i
  }

  /** Path(p).name */
  function Name(p: string): (n: string)
    ensures '/' !in n && n != "."
    decreases |p|
  {
    if '/' !in p then (if p == "." then "" else p)
    else
      var i := LastIndexOf(p, '/');
      var last := p[i + 1..];
      if last == "" || last == "." then Name(p[..i]) else last
  }

  /** PurePath.suffix of a name */
  function Suffix(name: string): (r: string)
  {
    if '.' in name && 0 < LastIndexOf(name, '.') < |name| - 1 then name[LastIndexOf(name, '.')..] else ""
  }

  /** PurePath.stem of a name */
  function Stem(name: string): (r: string)
  {
    if '.' in name && 0 < LastIndexOf(name, '.') < |name| - 1 then name[..LastIndexOf(name, '.')] else name
  }

  /** A name is its stem followed by its suffix; a suffix is a dot and at least one character. */
  lemma StemSuffix(name: string)
    ensures Stem(name) + Suffix(name) == name
    ensures Suffix(name) != "" ==> |Suffix(name)| >= 2 && Suffix(name)[0] == '.' && '.' !in Suffix(name)[1..]
    ensures Suffix(name) != "" ==> Stem(name) != ""
  {
    if Suffix(name) != "" {
      var i := LastIndexOf(name, '.');
      assert Suffix(name)[1..] == name[i + 1..];
    }
  }

  /** create_versioned_filename: `{stem}_v{version}{suffix}` from the file's name. */
  function VersionedFilename(originalPath: string, version: string): string
  {
    var name := Name(originalPath);
    Stem(name) + "_v" + version + Suffix(name)
  }

  /** create_summary_filename: `{stem}_fixes_v{version}.json` from the file's name. */
  function SummaryFilename(originalPath: string, version: string): string
  {
    Stem(Name(originalPath)) + "_fixes_v" + version + ".json"
  }

  /** A name ending in a dot and a dot-free, non-empty tail after a non-empty head has that suffix. */
  lemma SuffixOfAppend(head: string, suffix: string)
    requires head != [] && |suffix| >= 2 && suffix[0] == '.' && '.' !in suffix[1..]
    ensures Suffix(head + suffix) == suffix && Stem(head + suffix) == head
  {
    var s := head + suffix;
    assert s[|head|] == '.';
    var i := LastIndexOf(s, '.');
    assert i == |head|;
    assert s[i..] == suffix && s[..i] == head;
  }

  /** A string without '/' that is neither empty nor "." is its own name. */
  lemma NameOfBare(s: string)
    requires '/' !in s && s != "" && s != "."
    ensures Name(s) == s
  {
  }

  /** Only the last component counts: a directory in front changes nothing. */
  lemma NameIgnoresDirectory(dir: string, name: string)
    requires '/' !in name && name != "" && name != "."
    ensures Name(dir + "/" + name) == name
  {
    var p := dir + "/" + name;
    var i := LastIndexOf(p, '/');
    assert p[|dir|] == '/';
    assert i == |dir|;
    assert p[i + 1..] == name;
  }

  /**
   * For a version without '/' the versioned name is a bare file name, and
   * when the original has a suffix, the versioned name keeps it and its stem
   * is the original stem with the version tag.
   */
  lemma VersionedFilenameShape(originalPath: string, version: string)
    requires '/' !in version
    ensures var r := VersionedFilename(originalPath, version);
      Name(r) == r
      && (Suffix(Name(originalPath)) != "" ==>
            Suffix(r) == Suffix(Name(originalPath)) && Stem(r) == Stem(Name(originalPath)) + "_v" + version)
  {
    var name := Name(originalPath);
    var r := VersionedFilename(originalPath, version);
    StemSuffix(name);
    assert '/' !in Stem(name) && '/' !in Suffix(name);
    assert r == (Stem(name) + "_v" + version) + Suffix(name);
    assert '/' !in r;
    assert r[|Stem(name)|] == '_';
    NameOfBare(r);
    if Suffix(name) != "" {
      SuffixOfAppend(Stem(name) + "_v" + version, Suffix(name));
    }
  }

  /**
   * For a version without '/' the summary name is a bare file name with the
   * suffix ".json" and the original stem with the "_fixes_v" tag.
   */
  lemma SummaryFilenameShape(originalPath: string, version: string)
    requires '/' !in version
    ensures var r := SummaryFilename(originalPath, version);
      Name(r) == r && Suffix(r) == ".json" && Stem(r) == Stem(Name(originalPath)) + "_fixes_v" + version
  {
    var name := Name(originalPath);
    var r := SummaryFilename(originalPath, version);
    StemSuffix(name);
    assert '/' !in Stem(name);
    var head := Stem(name) + "_fixes_v" + version;
    assert r == head + ".json";
    assert '/' !in r;
    assert r[|Stem(name)|] == '_';
    NameOfBare(r);
    assert ".json"[1..] == "json";
    SuffixOfAppend(head, ".json");
  }
}
