/** The flat discoverer of distcovery/test.py: `_walk_path` yields the
    (dotted alias, dotted name) pair of every leaf test module, `_walk`
    qualifies the names by the base prefix and builds the map, and the
    `Test` command validates the selected aliases and runs the matching
    modules in the order given. */
module FlatTest {
  import opened Wrappers
  import opened FileSystem
  import opened Naming
  import opened Exceptions
  import Strings
  import Dict
  import PathTree

  /** `_walk_path` over the entries `names` of the directory `path`, in
      order: package-pattern names are descended into when they pass
      `_is_package`, other names yield a pair when they match the module
      pattern and pass `_is_module`. */
  function WalkNames(fs: Tree, path: Path, alias: seq<string>, package: seq<string>, names: seq<string>)
    : seq<(string, string)>
    decreases Deeper(fs, path), |names|
  {
    if |names| == 0 then []
    else
      var name := names[0];
      var sub := Join(path, name);
      var rest := WalkNames(fs, path, alias, package, names[1..]);
      match MatchPackage(name)
      case Some(m) =>
        if IsPackage(fs, sub) then
          DeeperShrinks(fs, path, name);
          var items := SubItem(m, alias, package);
          WalkNames(fs, sub, items.0, items.1, fs[sub].names) + rest
        else rest
      case None =>
        match MatchModule(name)
        case Some(m) =>
          if IsModule(fs, sub) then
            var items := SubItem(m, alias, package);
            [(Strings.Dotted(items.0), Strings.Dotted(items.1))] + rest
          else rest
        case None => rest
  }

  /** `_walk_path(path, alias, package)`: `listdir` fails on a missing
      path or a file. */
  function WalkPath(fs: Tree, path: Path, alias: seq<string>, package: seq<string>)
    : (r: Result<seq<(string, string)>, OsError>)
    ensures r.Success? <==> IsDir(fs, path)
    ensures r.Failure? ==> r.error == ListDir(fs, path).error
  {
    match ListDir(fs, path)
    case Failure(e) => Failure(e)
    case Success(names) => Success(WalkNames(fs, path, alias, package, names))
  }

  /** `ts` are the tokens of a leaf module below `path`, whose first name
      is among `names`: `test_<t>` package directories holding
      `__init__.py`, each listed in its parent, and last a `test_<t>.py`
      file. */
  ghost predicate Leaf(fs: Tree, path: Path, names: seq<string>, ts: seq<string>)
    decreases |ts|
  {
    |ts| > 0 && IsToken(ts[0])
    && if |ts| == 1 then
         Prefix + ts[0] + Extension in names && IsModule(fs, Join(path, Prefix + ts[0] + Extension))
       else
         var sub := Join(path, Prefix + ts[0]);
         Prefix + ts[0] in names && IsPackage(fs, sub) && Leaf(fs, sub, fs[sub].names, ts[1..])
  }

  /** The qualified segments of alias segments. */
  function Prefixed(ts: seq<string>): (r: seq<string>)
    ensures |r| == |ts| && forall i :: 0 <= i < |ts| ==> r[i] == Prefix + ts[i]
  {
    if |ts| == 0 then [] else [Prefix + ts[0]] + Prefixed(ts[1..])
  }

  /** The pair yielded for the leaf `ts` below a node with segments `alias`
      and `package`. */
  function LeafPair(alias: seq<string>, package: seq<string>, ts: seq<string>): (string, string)
  {
    (Strings.Dotted(alias + ts), Strings.Dotted(package + Prefixed(ts)))
  }

  lemma {:induction false} LeafTokens(fs: Tree, path: Path, names: seq<string>, ts: seq<string>)
    requires Leaf(fs, path, names, ts)
    ensures forall i :: 0 <= i < |ts| ==> IsToken(ts[i])
    decreases |ts|
  {
    if |ts| > 1 {
      var sub := Join(path, Prefix + ts[0]);
      LeafTokens(fs, sub, fs[sub].names, ts[1..]);
      assert forall i :: 1 <= i < |ts| ==> ts[i] == ts[1..][i - 1];
    }
  }

  /** `Prefixed` over a cons, for `LeafPairStep` and `WalkStep`. */
  lemma PrefixedCons(t: string, ts: seq<string>)
    ensures Prefixed([t] + ts) == [Prefix + t] + Prefixed(ts)
  {
    assert ([t] + ts)[1..] == ts;
  }

  lemma LeafPairStep(alias: seq<string>, package: seq<string>, t: string, ts: seq<string>)
    ensures LeafPair(alias + [t], package + [Prefix + t], ts) == LeafPair(alias, package, [t] + ts)
  {
    var a := alias + [t] + ts;
    var b := alias + ([t] + ts);
    assert a == b;
    PrefixedCons(t, ts);
    var c := package + [Prefix + t] + Prefixed(ts);
    var d := package + Prefixed([t] + ts);
    assert c == d;
  }

  /** The first entry of the listing, classified as `_walk_path` does. */
  lemma WalkStep(fs: Tree, path: Path, alias: seq<string>, package: seq<string>, names: seq<string>)
    requires |names| > 0
    ensures var name := names[0];
      var sub := Join(path, name);
      var w := WalkNames(fs, path, alias, package, names);
      var rest := WalkNames(fs, path, alias, package, names[1..]);
      if MatchPackage(name).Some? && IsPackage(fs, sub) then
        var t := MatchPackage(name).value.alias;
        name == Prefix + t && IsToken(t)
        && Deeper(fs, sub) < Deeper(fs, path)
        && w == WalkNames(fs, sub, alias + [t], package + [name], fs[sub].names) + rest
      else if MatchPackage(name).None? && MatchModule(name).Some? && IsModule(fs, sub) then
        var t := MatchModule(name).value.alias;
        name == Prefix + t + Extension && IsToken(t)
        && w == [LeafPair(alias, package, [t])] + rest
      else
        w == rest
  {
    var name := names[0];
    var sub := Join(path, name);
    if MatchPackage(name).Some? && IsPackage(fs, sub) {
      DeeperShrinks(fs, path, name);
    } else if MatchPackage(name).None? && MatchModule(name).Some? {
      var t := MatchModule(name).value.alias;
      PrefixedCons(t, []);
      assert [t] + [] == [t] && [Prefix + t] + [] == [Prefix + t];
    }
  }

  /** Soundness: every pair `_walk_path` yields is the pair of a leaf module
      reached through test packages; it never yields a package. */
  lemma {:induction false} WalkSound(fs: Tree, path: Path, alias: seq<string>, package: seq<string>,
                                     names: seq<string>, k: nat) returns (ts: seq<string>)
    requires k < |WalkNames(fs, path, alias, package, names)|
    ensures Leaf(fs, path, names, ts)
    ensures WalkNames(fs, path, alias, package, names)[k] == LeafPair(alias, package, ts)
    decreases Deeper(fs, path), |names|
  {
    var name := names[0];
    var sub := Join(path, name);
    WalkStep(fs, path, alias, package, names);
    var m := MatchPackage(name);
    if m.Some? && IsPackage(fs, sub) {
      var t := m.value.alias;
      var inner := WalkNames(fs, sub, alias + [t], package + [name], fs[sub].names);
      if k < |inner| {
        var ts' := WalkSound(fs, sub, alias + [t], package + [name], fs[sub].names, k);
        ts := [t] + ts';
        assert ts[1..] == ts';
        LeafPairStep(alias, package, t, ts');
      } else {
        ts := WalkSound(fs, path, alias, package, names[1..], k - |inner|);
        LeafMore(fs, path, names, ts);
      }
    } else if m.None? && MatchModule(name).Some? && IsModule(fs, sub) {
      if k == 0 {
        ts := [MatchModule(name).value.alias];
      } else {
        ts := WalkSound(fs, path, alias, package, names[1..], k - 1);
        LeafMore(fs, path, names, ts);
      }
    } else {
      ts := WalkSound(fs, path, alias, package, names[1..], k);
      LeafMore(fs, path, names, ts);
    }
  }

  /** A leaf among the later names is a leaf among all of them. */
  lemma LeafMore(fs: Tree, path: Path, names: seq<string>, ts: seq<string>)
    requires |names| > 0 && Leaf(fs, path, names[1..], ts)
    ensures Leaf(fs, path, names, ts)
  {
  }

  /** A leaf not reached through the first name is reached through the rest. */
  lemma LeafLess(fs: Tree, path: Path, names: seq<string>, ts: seq<string>)
    requires |names| > 0 && Leaf(fs, path, names, ts)
    requires names[0] != (if |ts| == 1 then Prefix + ts[0] + Extension else Prefix + ts[0])
    ensures Leaf(fs, path, names[1..], ts)
  {
  }

  /** Completeness: the pair of every leaf module is yielded. */
  lemma {:induction false} WalkComplete(fs: Tree, path: Path, alias: seq<string>, package: seq<string>,
                                        names: seq<string>, ts: seq<string>)
    requires Leaf(fs, path, names, ts)
    ensures LeafPair(alias, package, ts) in WalkNames(fs, path, alias, package, names)
    decreases Deeper(fs, path), |names|
  {
    var name := names[0];
    var sub := Join(path, name);
    var t := ts[0];
    WalkStep(fs, path, alias, package, names);
    MatchPackageOf(t);
    MatchModuleOf(t);
    PatternsExclusive(name);
    if |ts| == 1 && name == Prefix + t + Extension {
      assert MatchPackage(name).None?;
      assert ts == [t];
    } else if |ts| > 1 && name == Prefix + t {
      WalkComplete(fs, sub, alias + [t], package + [name], fs[sub].names, ts[1..]);
      LeafPairStep(alias, package, t, ts[1..]);
      assert [t] + ts[1..] == ts;
    } else {
      LeafLess(fs, path, names, ts);
      WalkComplete(fs, path, alias, package, names[1..], ts);
    }
  }

  /** `_split_path`, list version: the same contract as the tuple version
      of path.py. */
  method SplitPath(path: Path, root: Path) returns (r: Result<seq<string>, Error>)
    ensures r == PathTree.BaseOf(path, root)
  {
    var head := path;
    var tail: seq<string> := [];
    while head != root
      invariant |head| <= |path| && head == path[..|head|] && tail == path[|head|..]
      invariant PathTree.NoEmptyName(tail)
      invariant forall j :: |head| < j <= |path| ==> path[..j] != root
      decreases |head|
    {
      ghost var previous := head;
      var parts := Split(head);
      head := parts.0;
      var name := parts.1;
      if name == "" {
        PathTree.NotBelow(path, root, previous);
        return Failure(InvalidTestRoot(PathString(path), PathString(root)));
      }
      tail := [name] + tail;
    }
    assert path[..|root|] == root;
    return Success(tail);
  }

  /** The comprehension of `_walk`: each name qualified by the base. */
  function Qualify(base: seq<string>, ps: seq<(string, string)>): seq<(string, string)>
  {
    seq(|ps|, i requires 0 <= i < |ps| => (ps[i].0, Strings.Dotted(base + [ps[i].1])))
  }

  /** The map `_walk` builds below the directory `root`, with the names
      qualified by `base`. */
  function ModuleMap(fs: Tree, root: Path, base: seq<string>): map<string, string>
    requires IsDir(fs, root)
  {
    Dict.FromPairs(Qualify(base, WalkNames(fs, root, [], [], fs[root].names)))
  }

  /** What `_walk(root)` returns: `InvalidTestRoot` when the root is not
      below `cwd`, the `listdir` failure when the root is no directory, and
      otherwise the module map. */
  function TestModules(fs: Tree, cwd: Path, root: Path): (r: Result<map<string, string>, Error>)
    ensures r.Success? ==>
      PathTree.BaseOf(AbsPath(cwd, root), cwd).Success? && IsDir(fs, root)
      && r.value == ModuleMap(fs, root, PathTree.BaseOf(AbsPath(cwd, root), cwd).value)
    ensures PathTree.BaseOf(AbsPath(cwd, root), cwd).Failure? ==>
      r == Failure(PathTree.BaseOf(AbsPath(cwd, root), cwd).error)
    ensures PathTree.BaseOf(AbsPath(cwd, root), cwd).Success? && !IsDir(fs, root) ==>
      r == Failure(Os(ListDir(fs, root).error))
  {
    match PathTree.BaseOf(AbsPath(cwd, root), cwd)
    case Failure(e) => Failure(e)
    case Success(base) =>
      match WalkPath(fs, root, [], [])
      case Failure(e) => Failure(Os(e))
      case Success(ps) => Success(Dict.FromPairs(Qualify(base, ps)))
  }

  /** `_walk`. */
  method Walk(fs: Tree, cwd: Path, root: Path) returns (r: Result<map<string, string>, Error>)
    ensures r == TestModules(fs, cwd, root)
  {
    var base := SplitPath(AbsPath(cwd, root), cwd);
    if base.Failure? {
      return Failure(base.error);
    }
    var walked := WalkPath(fs, root, [], []);
    if walked.Failure? {
      return Failure(Os(walked.error));
    }
    return Success(Dict.FromPairs(Qualify(base.value, walked.value)));
  }

  /** `_make_name(base + [name])`: the name alone under an empty base, and
      otherwise the dotted base, a dot and the name. */
  lemma QualifiedName(base: seq<string>, name: string)
    ensures Strings.Dotted(base + [name]) == if base == [] then name else Strings.Dotted(base) + "." + name
  {
    if base != [] {
      Strings.JoinAppend(base, [name], ".");
    } else {
      assert base + [name] == [name];
    }
  }

  /** Every leaf module below the root is in the map, under its dotted
      alias, with its dotted name qualified by the base. */
  lemma ModuleMapFound(fs: Tree, root: Path, base: seq<string>, ts: seq<string>)
    requires IsDir(fs, root) && Leaf(fs, root, fs[root].names, ts)
    ensures Strings.Dotted(ts) in ModuleMap(fs, root, base)
    ensures ModuleMap(fs, root, base)[Strings.Dotted(ts)] == Strings.Dotted(base + [Strings.Dotted(Prefixed(ts))])
  {
    var ps := WalkNames(fs, root, [], [], fs[root].names);
    var qs := Qualify(base, ps);
    var key := Strings.Dotted(ts);
    WalkComplete(fs, root, [], [], fs[root].names, ts);
    assert [] + ts == ts && [] + Prefixed(ts) == Prefixed(ts);
    var i :| 0 <= i < |ps| && ps[i] == LeafPair([], [], ts);
    assert qs[i].0 == key;
    Dict.FromPairsHas(qs, i);
    var at := Dict.FromPairsLast(qs, key);
    var ts' := WalkSound(fs, root, [], [], fs[root].names, at);
    assert [] + ts' == ts' && [] + Prefixed(ts') == Prefixed(ts');
    SameLeaf(fs, root, fs[root].names, ts, ts');
  }

  /** Two leaves with the same dotted alias are the same leaf. */
  lemma SameLeaf(fs: Tree, path: Path, names: seq<string>, ts: seq<string>, ts': seq<string>)
    requires Leaf(fs, path, names, ts) && Leaf(fs, path, names, ts')
    requires Strings.Dotted(ts) == Strings.Dotted(ts')
    ensures ts == ts'
  {
    LeafTokens(fs, path, names, ts);
    LeafTokens(fs, path, names, ts');
    Strings.DottedInjective(ts, ts');
  }

  /** Every key of the map is the dotted alias of a leaf module. */
  lemma ModuleMapKnown(fs: Tree, root: Path, base: seq<string>, a: string) returns (ts: seq<string>)
    requires IsDir(fs, root) && a in ModuleMap(fs, root, base)
    ensures Leaf(fs, root, fs[root].names, ts) && a == Strings.Dotted(ts)
  {
    var ps := WalkNames(fs, root, [], [], fs[root].names);
    var qs := Qualify(base, ps);
    var at := Dict.FromPairsLast(qs, a);
    ts := WalkSound(fs, root, [], [], fs[root].names, at);
    assert [] + ts == ts;
  }

  /** `validate_modules`: no test module at all is reported first, whatever
      was asked for; otherwise exactly the requested names that are not
      keys are reported, and validation passes iff there is none. */
  function ValidateModules(testModules: map<string, string>, testRoot: string, modules: seq<string>)
    : (r: Outcome<Error>)
    ensures |testModules| == 0 ==> r == Fail(NoTestModules(testRoot))
    ensures |testModules| > 0 ==> (r.Pass? <==> forall i :: 0 <= i < |modules| ==> modules[i] in testModules)
    ensures |testModules| > 0 && r.Fail? ==>
      r.error.UnknownModules?
      && r.error.modules != {}
      && forall x :: x in r.error.modules <==> x in modules && x !in testModules
  {
    if |testModules| == 0 then Fail(NoTestModules(testRoot))
    else
      var unknown := (set i | 0 <= i < |modules| :: modules[i]) - testModules.Keys;
      UnknownEmpty(testModules, modules);
      if unknown == {} then Pass else Fail(UnknownModules(unknown))
  }

  lemma UnknownEmpty(testModules: map<string, string>, modules: seq<string>)
    ensures (set i | 0 <= i < |modules| :: modules[i]) - testModules.Keys == {}
      <==> forall i :: 0 <= i < |modules| ==> modules[i] in testModules
  {
    var unknown := (set i | 0 <= i < |modules| :: modules[i]) - testModules.Keys;
    if i :| 0 <= i < |modules| && modules[i] !in testModules {
      assert modules[i] in unknown;
    }
  }

  /** The selector of `run`: the `--module` value split on commas, each
      item stripped; no item holds a comma or surrounding whitespace. */
  function Selection(selector: string): (r: seq<string>)
    ensures |r| >= 1
    ensures forall i :: 0 <= i < |r| ==> ',' !in r[i] && Strings.IsStripped(r[i])
  {
    var items := Strings.SplitOn(selector, ',');
    seq(|items|, i requires 0 <= i < |items| => Strings.Strip(items[i]))
  }

  /** Stripped, comma-free names joined by commas are selected back, in order. */
  lemma SelectionOfJoin(names: seq<string>)
    requires |names| >= 1
    requires forall i :: 0 <= i < |names| ==> ',' !in names[i] && Strings.IsStripped(names[i])
    ensures Selection(Strings.Join(names, ",")) == names
  {
    Strings.SplitJoin(names, ',');
    forall i | 0 <= i < |names| ensures Strings.Strip(names[i]) == names[i]
    {
      Strings.StripKeeps(names[i]);
    }
  }

  /** What `run` does once the modules are collected: the aliases that
      `print_test_modules` logs, or the module names handed in turn to
      `unittest.main`. */
  datatype Report = Listed(aliases: set<string>) | Ran(names: seq<string>)

  class Test {
    const testRoot: Path
    const selector: Option<string>
    var testModules: map<string, string>

    /** `initialize_options`: no selector means list mode. */
    constructor (testRoot: Path, selector: Option<string>)
      ensures this.testRoot == testRoot && this.selector == selector && testModules == map[]
    {
      this.testRoot := testRoot;
      this.selector := selector;
      testModules := map[];
    }

    /** `collect_modules`: a failing walk leaves the map as it was. */
    method CollectModules(fs: Tree, cwd: Path) returns (err: Option<Error>)
      modifies this
      ensures TestModules(fs, cwd, testRoot).Success? ==>
        err.None? && testModules == TestModules(fs, cwd, testRoot).value
      ensures TestModules(fs, cwd, testRoot).Failure? ==>
        err == Some(TestModules(fs, cwd, testRoot).error) && testModules == old(testModules)
    {
      var walked := Walk(fs, cwd, testRoot);
      if walked.Failure? {
        return Some(walked.error);
      }
      testModules := walked.value;
      return None;
    }

    /** `run`: collect; with no selector (or an empty one) list the
      aliases; otherwise validate the selection and run the module of each
      selected alias, in the order given, repeats included. */
    method Run(fs: Tree, cwd: Path) returns (r: Result<Report, Error>)
      modifies this
      ensures TestModules(fs, cwd, testRoot).Failure? ==>
        r == Failure(TestModules(fs, cwd, testRoot).error) && testModules == old(testModules)
      ensures TestModules(fs, cwd, testRoot).Success? ==>
        var tm := TestModules(fs, cwd, testRoot).value;
        testModules == tm
        && ((selector.None? || selector.value == "") ==> r == Success(Listed(tm.Keys)))
        && (selector.Some? && selector.value != "" ==>
              var sel := Selection(selector.value);
              match ValidateModules(tm, PathString(testRoot), sel)
              case Fail(e) => r == Failure(e)
              case Pass =>
                r.Success? && r.value.Ran? && |r.value.names| == |sel|
                && forall i :: 0 <= i < |sel| ==> r.value.names[i] == tm[sel[i]])
    {
      var err := CollectModules(fs, cwd);
      if err.Some? {
        return Failure(err.value);
      }
      if selector.None? || selector.value == "" {
        return Success(Listed(testModules.Keys));
      }
      var modules := Selection(selector.value);
      var valid := ValidateModules(testModules, PathString(testRoot), modules);
      if valid.Fail? {
        return Failure(valid.error);
      }
      var names := RunSelected(modules);
      return Success(Ran(names));
    }

    /** The loop of `run`: the module of each selected alias, in order. */
    method RunSelected(modules: seq<string>) returns (names: seq<string>)
      requires forall i :: 0 <= i < |modules| ==> modules[i] in testModules
      ensures |names| == |modules| && forall i :: 0 <= i < |modules| ==> names[i] == testModules[modules[i]]
    {
      names := [];
      var i := 0;
      while i < |modules|
        invariant 0 <= i <= |modules| && |names| == i
        invariant forall j :: 0 <= j < i ==> names[j] == testModules[modules[j]]
      {
        names := names + [testModules[modules[i]]];
        i := i + 1;
      }
    }
  }
}
