// Small shared datatypes.
module Common {
  datatype Option<T> = None | Some(value: T)
}

/**
 * The parts of Windows path handling (Python's ntpath: os.path.basename,
 * os.path.splitext, str.lower) that decide how an input is classified and
 * where its converted copy is written. Both '/' and '\\' separate path
 * components; a name without a separator may start with a drive "X:".
 */
module Paths {

  predicate IsSep(c: char) {
    c == '/' || c == '\\'
  }

  /** Index just past the last separator of p; 0 when p has none. */
  function TailStart(p: string): (k: nat)
    ensures k <= |p|
    ensures 0 < k ==> IsSep(p[k - 1])
    ensures forall j :: k <= j < |p| ==> !IsSep(p[j])
  {
    if p == [] then 0
    else if IsSep(p[|p| - 1]) then |p|
    else TailStart(p[..|p| - 1])
  }

  /** os.path.basename: the final component, after the last separator or the drive. */
  function Basename(p: string): (b: string)
    ensures |b| <= |p| && b == p[|p| - |b|..]
    ensures forall j :: 0 <= j < |b| ==> !IsSep(b[j])
    ensures 0 < TailStart(p) ==> b == p[TailStart(p)..]
    ensures TailStart(p) == 0 && 2 <= |p| && p[1] == ':' ==> b == p[2..]
    ensures TailStart(p) == 0 && !(2 <= |p| && p[1] == ':') ==> b == p
  {
    var k := TailStart(p);
    if 0 < k then p[k..]
    else if 2 <= |p| && p[1] == ':' then p[2..]
    else p
  }

  /** Index of the last '.' in p, or -1 when there is none (str.rfind). */
  function LastDot(p: string): (d: int)
    ensures -1 <= d < |p|
    ensures 0 <= d ==> p[d] == '.'
    ensures forall j :: d < j < |p| ==> p[j] != '.'
  {
    if p == [] then -1
    else if p[|p| - 1] == '.' then |p| - 1
    else LastDot(p[..|p| - 1])
  }

  predicate AllDots(s: string) {
    forall j :: 0 <= j < |s| ==> s[j] == '.'
  }

  /**
   * os.path.splitext: the extension starts at the last dot of the last
   * component, unless everything before that dot in the component is dots
   * (".pdf" and "..pdf" have no extension).
   */
  function SplitExt(p: string): (parts: (string, string))
    ensures parts.0 + parts.1 == p
    ensures parts.1 != [] ==> parts.1[0] == '.'
    ensures forall j :: 1 <= j < |parts.1| ==> parts.1[j] != '.' && !IsSep(parts.1[j])
    ensures parts.1 != [] <==>
              TailStart(p) <= LastDot(p) && !AllDots(p[TailStart(p)..LastDot(p)])
  {
    var s := TailStart(p);
    var d := LastDot(p);
    if s <= d && !AllDots(p[s..d]) then (p[..d], p[d..]) else (p, [])
  }

  function LowerChar(c: char): char {
    if 'A' <= c <= 'Z' then (c as int + 32) as char else c
  }

  /** str.lower on the ASCII letters. */
  function Lower(s: string): (r: string)
    ensures |r| == |s|
  {
    seq(|s|, i requires 0 <= i < |s| => LowerChar(s[i]))
  }

  /** The lower-cased extension the dispatch looks at. */
  function Extension(path: string): string {
    SplitExt(Lower(Basename(path))).1
  }

  /** The original-case name without its extension. */
  function Stem(path: string): string {
    SplitExt(Basename(path)).0
  }

  /** Name of the converted copy inside the temporary directory. */
  function TempName(path: string): string {
    Stem(path) + ".pdf"
  }

  lemma LowerAppend(s: string, t: string)
    ensures Lower(s + t) == Lower(s) + Lower(t)
  {
  }

  lemma LowerSlice(s: string, i: int, j: int)
    requires 0 <= i <= j <= |s|
    ensures Lower(s)[i..j] == Lower(s[i..j])
  {
  }

  /** Lower-casing moves no separator and no dot. */
  lemma {:induction false} LowerKeepsStructure(p: string)
    ensures TailStart(Lower(p)) == TailStart(p)
    ensures LastDot(Lower(p)) == LastDot(p)
  {
    if p != [] {
      var q := p[..|p| - 1];
      LowerSlice(p, 0, |p| - 1);
      assert Lower(p)[..|p| - 1] == Lower(q);
      LowerKeepsStructure(q);
    }
  }

  lemma AllDotsLower(s: string)
    ensures AllDots(Lower(s)) == AllDots(s)
  {
    if !AllDots(s) {
      var j :| 0 <= j < |s| && s[j] != '.';
      assert Lower(s)[j] != '.';
    }
  }

  /** Splitting a lower-cased name gives the lower-cased parts of the original split. */
  lemma SplitExtLower(p: string)
    ensures SplitExt(Lower(p)).0 == Lower(SplitExt(p).0)
    ensures SplitExt(Lower(p)).1 == Lower(SplitExt(p).1)
  {
    LowerKeepsStructure(p);
    var s, d := TailStart(p), LastDot(p);
    if s <= d {
      LowerSlice(p, s, d);
      AllDotsLower(p[s..d]);
      LowerSlice(p, 0, d);
      LowerSlice(p, d, |p|);
      assert p[0..d] == p[..d] && p[d..|p|] == p[d..];
    }
  }

  /** Basename commutes with lower-casing: neither separators nor ':' are letters. */
  lemma BasenameLower(p: string)
    ensures Basename(Lower(p)) == Lower(Basename(p))
  {
    LowerKeepsStructure(p);
    var k := TailStart(p);
    if 0 < k {
      LowerSlice(p, k, |p|);
      assert p[k..|p|] == p[k..];
    } else if 2 <= |p| && p[1] == ':' {
      LowerSlice(p, 2, |p|);
      assert p[2..|p|] == p[2..];
    }
  }

  /**
   * The case-insensitive extension and the case-preserving stem split the
   * same basename at the same dot: stem + original extension is the
   * basename, and the extension the dispatch sees is that original
   * extension lower-cased.
   */
  lemma ExtensionMatchesStem(path: string)
    ensures Stem(path) + SplitExt(Basename(path)).1 == Basename(path)
    ensures Extension(path) == Lower(SplitExt(Basename(path)).1)
  {
    SplitExtLower(Basename(path));
  }

  /** Two paths that differ only in letter case have the same extension. */
  lemma ExtensionIgnoresCase(p: string, q: string)
    requires Lower(p) == Lower(q)
    ensures Extension(p) == Extension(q)
  {
    BasenameLower(p);
    BasenameLower(q);
  }

  lemma {:induction false} TailStartAt(p: string, k: nat)
    requires 0 < k <= |p| && IsSep(p[k - 1])
    requires forall j :: k <= j < |p| ==> !IsSep(p[j])
    ensures TailStart(p) == k
    decreases |p|
  {
    if k < |p| {
      TailStartAt(p[..|p| - 1], k);
    }
  }

  lemma {:induction false} LastDotAt(p: string, d: nat)
    requires d < |p| && p[d] == '.'
    requires forall j :: d < j < |p| ==> p[j] != '.'
    ensures LastDot(p) == d
    decreases |p|
  {
    if d < |p| - 1 {
      LastDotAt(p[..|p| - 1], d);
    }
  }

  /**
   * A path built as directory + stem + extension, where the directory ends
   * in a separator, the stem has no separator and is not all dots (it may
   * contain dots, as in "v1.2") and the extension is one dot followed by
   * neither: its basename is stem + extension, its stem is the stem as
   * written and the extension the dispatch sees is the extension
   * lower-cased.
   */
  lemma JoinedPathParts(dir: string, stem: string, ext: string)
    requires |dir| > 0 && IsSep(dir[|dir| - 1])
    requires !AllDots(stem) && forall j :: 0 <= j < |stem| ==> !IsSep(stem[j])
    requires |ext| > 0 && ext[0] == '.'
    requires forall j :: 1 <= j < |ext| ==> ext[j] != '.' && !IsSep(ext[j])
    ensures Basename(dir + stem + ext) == stem + ext
    ensures Stem(dir + stem + ext) == stem
    ensures Extension(dir + stem + ext) == Lower(ext)
  {
    var p, name := dir + stem + ext, stem + ext;
    TailStartAt(p, |dir|);
    assert p[|dir|..] == name;
    LastDotAt(name, |stem|);
    assert name[0..|stem|] == stem;
    assert TailStart(name) == 0;
    assert SplitExt(name) == (stem, ext) by {
      assert name[..|stem|] == stem && name[|stem|..] == ext;
    }
    ExtensionMatchesStem(p);
  }

  /**
   * A file whose name is a dot followed by neither dots nor separators
   * (".pdf", ".docx") has no extension: the leading dot belongs to the name.
   */
  lemma DotFileHasNoExtension(dir: string, name: string)
    requires |dir| > 0 && IsSep(dir[|dir| - 1])
    requires |name| > 0 && name[0] == '.'
    requires forall j :: 1 <= j < |name| ==> name[j] != '.' && !IsSep(name[j])
    ensures Basename(dir + name) == name
    ensures Extension(dir + name) == []
  {
    var p := dir + name;
    TailStartAt(p, |dir|);
    assert p[|dir|..] == name;
    LastDotAt(name, 0);
    assert TailStart(name) == 0;
    assert AllDots(name[0..0]);
    assert SplitExt(name).1 == [];
    ExtensionMatchesStem(p);
  }
}
