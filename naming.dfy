/** The naming convention shared by the three discoverers: a test package
    is `test_<token>` and a test module is `test_<token>.py`, where a token
    is one or more of `[A-Za-z0-9_]`, matched in full. Group 1 of either
    pattern is the qualified segment `test_<token>` and group 2 is the
    alias segment `<token>`. */
module Naming {
  import opened Wrappers
  import opened FileSystem

  const Prefix: string := "test_"
  const Extension: string := ".py"
  const Marker: string := "__init__.py"

  /** A successful match: `name` is group 1, `alias` is group 2. */
  datatype Match = Match(name: string, alias: string)

  predicate IsTokenChar(c: char)
  {
    ('a' <= c <= 'z') || ('A' <= c <= 'Z') || ('0' <= c <= '9') || c == '_'
  }

  predicate IsToken(s: string)
  {
    |s| > 0 && forall i :: 0 <= i < |s| ==> IsTokenChar(s[i])
  }

  /** What every match returned by either pattern satisfies. */
  predicate IsMatch(m: Match)
  {
    IsToken(m.alias) && m.name == Prefix + m.alias
  }

  /** The package pattern `(test_([a-zA-Z0-9_]+))$`, anchored at both ends. */
  function MatchPackage(name: string): (r: Option<Match>)
    ensures r.Some? ==> IsMatch(r.value) && name == r.value.name
  {
    if |name| >= |Prefix| && name[..|Prefix|] == Prefix && IsToken(name[|Prefix|..])
    then Some(Match(name, name[|Prefix|..]))
    else None
  }

  /** The module pattern `(test_([a-zA-Z0-9_]+))\.py$`: group 1 leaves the
      extension out. */
  function MatchModule(name: string): (r: Option<Match>)
    ensures r.Some? ==> IsMatch(r.value) && name == r.value.name + Extension
  {
    if |name| >= |Prefix| + |Extension| && name[..|Prefix|] == Prefix
       && name[|name| - |Extension|..] == Extension
       && IsToken(name[|Prefix|..|name| - |Extension|])
    then Some(Match(name[..|name| - |Extension|], name[|Prefix|..|name| - |Extension|]))
    else None
  }

  /** `test_` + t matches the package pattern exactly when t is a token,
      and then group 2 is t. */
  lemma MatchPackageOf(t: string)
    ensures MatchPackage(Prefix + t) == if IsToken(t) then Some(Match(Prefix + t, t)) else None
  {
    var n := Prefix + t;
    assert n[..|Prefix|] == Prefix && n[|Prefix|..] == t;
  }

  /** `test_` + t + `.py` matches the module pattern exactly when t is a
      token, and then group 1 is `test_` + t and group 2 is t. */
  lemma MatchModuleOf(t: string)
    ensures MatchModule(Prefix + t + Extension) == if IsToken(t) then Some(Match(Prefix + t, t)) else None
  {
    var n := Prefix + t + Extension;
    assert n[..|Prefix|] == Prefix;
    assert n[|n| - |Extension|..] == Extension;
    assert n[|Prefix|..|n| - |Extension|] == t;
    assert n[..|n| - |Extension|] == Prefix + t;
  }

  /** No name matches both patterns: a module name holds a '.', which no
      token does. */
  lemma PatternsExclusive(name: string)
    ensures !(MatchModule(name).Some? && MatchPackage(name).Some?)
  {
    if MatchModule(name).Some? {
      var rest := name[|Prefix|..];
      assert rest[|rest| - |Extension|] == '.';
      assert !IsToken(rest);
    }
  }

  /** Segments built from matches: both sequences have the same length, and
      every qualified segment is its alias segment with the prefix. */
  predicate WellNamed(alias: seq<string>, name: seq<string>)
  {
    |alias| == |name| && forall i :: 0 <= i < |alias| ==> IsToken(alias[i]) && name[i] == Prefix + alias[i]
  }

  /** `_sub_item` / `sub_item`: extend the alias sequence with group 2 and the
      name sequence with group 1. */
  function SubItem(m: Match, alias: seq<string>, name: seq<string>): (r: (seq<string>, seq<string>))
    requires IsMatch(m)
    ensures WellNamed(alias, name) ==> WellNamed(r.0, r.1)
    ensures |r.0| == |alias| + 1 && r.0[..|alias|] == alias && r.0[|alias|] == m.alias
    ensures |r.1| == |name| + 1 && r.1[..|name|] == name && r.1[|name|] == m.name
  {
    (alias + [m.alias], name + [m.name])
  }

  /** No segment of a well-named pair holds a '.', so the dotted forms
      determine the segments. */
  lemma WellNamedDotFree(alias: seq<string>, name: seq<string>)
    requires WellNamed(alias, name)
    ensures forall i :: 0 <= i < |alias| ==> '.' !in alias[i]
    ensures forall i :: 0 <= i < |name| ==> '.' !in name[i]
  {
  }

  /** `_is_package`: a directory holding `__init__.py`. */
  predicate IsPackage(fs: Tree, p: Path)
  {
    IsDir(fs, p) && IsFile(fs, Join(p, Marker))
  }

  /** `_is_module`: a regular file. */
  predicate IsModule(fs: Tree, p: Path)
  {
    IsFile(fs, p)
  }
}
