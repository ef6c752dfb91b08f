/** Paths as strings, with the three std::filesystem::path operations the
    build driver relies on: `filename()`, `operator/` and `extension()`.
    Only the relative/absolute forms a POSIX path can take are modelled
    (no root names). */
module Paths {

  type Path = string

  const Separator: char := '/'

  /** The final component of `p`: everything after its last separator
      (empty when `p` ends with a separator, as in std::filesystem). */
  function Filename(p: Path): (f: Path)
    ensures |f| <= |p|
  {
    if p == [] || p[|p| - 1] == Separator then []
    else Filename(p[..|p| - 1]) + [p[|p| - 1]]
  }

  /** The filename is the part of the path after its last separator: it
      holds no separator, it ends the path, and what precedes it (if
      anything) is a separator. */
  lemma {:induction false} FilenameShape(p: Path)
    ensures Separator !in Filename(p)
    ensures var f := Filename(p);
      |f| <= |p| && f == p[|p| - |f|..]
    ensures var f := Filename(p);
      |f| < |p| ==> p[|p| - |f| - 1] == Separator
    decreases |p|
  {
    if p != [] && p[|p| - 1] != Separator {
      var init := p[..|p| - 1];
      FilenameShape(init);
      var g := Filename(init);
      assert Filename(p) == g + [p[|p| - 1]];
      assert init[|init| - |g|..] + [p[|p| - 1]] == p[|p| - |g| - 1..];
      if |g| < |init| {
        assert p[|p| - |g| - 2] == init[|init| - |g| - 1];
      }
    }
  }

  /** `dir` written as a directory prefix: empty stays empty, and otherwise
      it ends with exactly the separator it already has, or one more. */
  function AsDirectory(dir: Path): (d: Path)
    ensures d == [] || d[|d| - 1] == Separator
    ensures dir == [] || dir[|dir| - 1] == Separator ==> d == dir
    ensures dir != [] && dir[|dir| - 1] != Separator ==> d == dir + [Separator]
  {
    if dir == [] || dir[|dir| - 1] == Separator then dir else dir + [Separator]
  }

  /** `dir / name` for a relative `name`: a separator is inserted unless `dir`
      is empty or already ends with one. */
  function Join(dir: Path, name: Path): (p: Path)
    ensures |p| >= |dir| && p[..|dir|] == dir
    ensures p == AsDirectory(dir) + name
  {
    if dir == [] then name
    else if dir[|dir| - 1] == Separator then dir + name
    else dir + [Separator] + name
  }

  /** Index of the last occurrence of `c` in `s`, or -1 if there is none. */
  function LastIndexOf(s: string, c: char): (k: int)
    ensures -1 <= k < |s|
  {
    if s == [] then -1
    else if s[|s| - 1] == c then |s| - 1
    else LastIndexOf(s[..|s| - 1], c)
  }

  /** The index found holds `c` and no later position does; -1 means `c`
      does not occur at all. */
  lemma {:induction false} LastIndexOfSpec(s: string, c: char)
    ensures LastIndexOf(s, c) >= 0 ==> s[LastIndexOf(s, c)] == c
    ensures forall j :: LastIndexOf(s, c) < j < |s| ==> s[j] != c
    decreases |s|
  {
    if s != [] && s[|s| - 1] != c {
      LastIndexOfSpec(s[..|s| - 1], c);
    }
  }

  /** The extension of the final component: from its last dot on. A name
      without a dot, a dot-file such as ".profile", "." and ".." have none. */
  function Extension(p: Path): (e: string)
    ensures e != [] ==> e[0] == '.'
  {
    var f := Filename(p);
    var k := LastIndexOf(f, '.');
    LastIndexOfSpec(f, '.');
    if k <= 0 || f == ".." then [] else f[k..]
  }

  /** A non-empty extension starts with the only dot it holds and is a
      proper suffix of the filename. */
  lemma ExtensionShape(p: Path)
    ensures var e := Extension(p);
      e != [] ==> e[0] == '.' && forall j :: 0 < j < |e| ==> e[j] != '.'
    ensures var e := Extension(p);
      e != [] ==> |e| < |Filename(p)| && e == Filename(p)[|Filename(p)| - |e|..]
  {
    var f := Filename(p);
    var k := LastIndexOf(f, '.');
    if k > 0 && f != ".." {
      assert Extension(p) == f[k..];
      SuffixFromLastDot(f, k);
    }
  }

  /** A filename with a dot after its first character has an extension
      (unless it is ".."): the text from its last dot on. So "a.b.cpp" has
      the extension ".cpp". */
  lemma ExtensionNonEmpty(p: Path, j: int)
    requires 0 < j < |Filename(p)| && Filename(p)[j] == '.'
    requires Filename(p) != ".."
    ensures LastIndexOf(Filename(p), '.') >= j
    ensures Extension(p) != [] && Extension(p) == Filename(p)[LastIndexOf(Filename(p), '.')..]
  {
    LastIndexOfSpec(Filename(p), '.');
  }

  /** The text of `f` from its last dot on starts with that dot, holds no
      other, and is a proper suffix of `f` when the dot is not first. */
  lemma SuffixFromLastDot(f: string, k: int)
    requires k == LastIndexOf(f, '.') && k > 0
    ensures var e := f[k..];
      e[0] == '.' && (forall j :: 0 < j < |e| ==> e[j] != '.') && |e| < |f| && e == f[|f| - |e|..]
  {
    LastIndexOfSpec(f, '.');
    var e := f[k..];
    forall j | 0 < j < |e|
      ensures e[j] != '.'
    {
      assert e[j] == f[k + j];
    }
  }

  /** The filename of a path made of a directory part ending in a separator
      (or empty) followed by a name that holds no separator is that name. */
  lemma {:induction false} FilenameAfterSeparator(prefix: Path, name: Path)
    requires prefix == [] || prefix[|prefix| - 1] == Separator
    requires Separator !in name
    ensures Filename(prefix + name) == name
    decreases |name|
  {
    if name == [] {
      assert prefix + name == prefix;
    } else {
      var init := name[..|name| - 1];
      assert (prefix + name)[..|prefix + name| - 1] == prefix + init;
      FilenameAfterSeparator(prefix, init);
      assert init + [name[|name| - 1]] == name;
    }
  }

  /** Joining a non-empty name that holds no separator onto any directory
      yields a path whose filename is exactly that name. */
  lemma FilenameOfJoin(dir: Path, name: Path)
    requires name != [] && Separator !in name
    ensures Filename(Join(dir, name)) == name
  {
    if dir == [] {
      FilenameAfterSeparator([], name);
      assert [] + name == name;
    } else if dir[|dir| - 1] == Separator {
      FilenameAfterSeparator(dir, name);
    } else {
      FilenameAfterSeparator(dir + [Separator], name);
    }
  }
}
