/** The discoverer of the top-level distcovery.py: `collect_modules` walks
    the test root, descending only into directories that hold
    `__init__.py` (the root included), and maps the dotted alias of every
    leaf test module to its dotted name, with no base prefix. */
module Distcovery {
  import opened Wrappers
  import opened FileSystem
  import opened Naming
  import Strings
  import Dict
  import FlatTest

  type Item = (seq<string>, seq<string>)

  /** The loop of the nested `walk` over the entries `names` of `path`: a
      package-pattern name is descended into whenever it is a directory,
      the `__init__.py` check then happening inside the recursive call;
      other names yield their segments when they match the module pattern
      and are files. */
  function GatedNames(fs: Tree, path: Path, alias: seq<string>, package: seq<string>, names: seq<string>)
    : seq<Item>
    decreases Deeper(fs, path), |names|
  {
    if |names| == 0 then []
    else
      var name := names[0];
      var sub := Join(path, name);
      var rest := GatedNames(fs, path, alias, package, names[1..]);
      match MatchPackage(name)
      case Some(m) =>
        if IsDir(fs, sub) then
          DeeperShrinks(fs, path, name);
          var items := SubItem(m, alias, package);
          (if IsFile(fs, Join(sub, Marker)) then GatedNames(fs, sub, items.0, items.1, fs[sub].names) else [])
          + rest
        else rest
      case None =>
        match MatchModule(name)
        case Some(m) =>
          if IsFile(fs, sub) then [SubItem(m, alias, package)] + rest else rest
        case None => rest
  }

  /** The nested `walk(path, alias, package)`: nothing at all without
      `__init__.py`; otherwise `listdir` fails on anything but a directory. */
  function GatedWalk(fs: Tree, path: Path, alias: seq<string>, package: seq<string>)
    : (r: Result<seq<Item>, OsError>)
    ensures !IsFile(fs, Join(path, Marker)) ==> r == Success([])
    ensures IsFile(fs, Join(path, Marker)) ==>
      (r.Success? <==> IsDir(fs, path)) && (r.Failure? ==> r.error == ListDir(fs, path).error)
  {
    if !IsFile(fs, Join(path, Marker)) then Success([])
    else
      match ListDir(fs, path)
      case Failure(e) => Failure(e)
      case Success(names) => Success(GatedNames(fs, path, alias, package, names))
  }

  /** `import_string` applied to both halves of every item. */
  function DottedItems(items: seq<Item>): seq<(string, string)>
  {
    seq(|items|, i requires 0 <= i < |items| => (Strings.Dotted(items[i].0), Strings.Dotted(items[i].1)))
  }

  lemma DottedItemsConcat(a: seq<Item>, b: seq<Item>)
    ensures DottedItems(a + b) == DottedItems(a) + DottedItems(b)
  {
  }

  /** Below a directory, the gated walk yields what `_walk_path` of test.py
      yields: the `__init__.py` check moved into the recursive call rejects
      exactly the directories `_is_package` rejects. */
  lemma {:induction false} GatedIsFlat(fs: Tree, path: Path, alias: seq<string>, package: seq<string>,
                                       names: seq<string>)
    ensures DottedItems(GatedNames(fs, path, alias, package, names))
      == FlatTest.WalkNames(fs, path, alias, package, names)
    decreases Deeper(fs, path), |names|
  {
    if |names| > 0 {
      var name := names[0];
      var sub := Join(path, name);
      var rest := GatedNames(fs, path, alias, package, names[1..]);
      GatedIsFlat(fs, path, alias, package, names[1..]);
      var m := MatchPackage(name);
      if m.Some? && IsDir(fs, sub) {
        DeeperShrinks(fs, path, name);
        var items := SubItem(m.value, alias, package);
        if IsFile(fs, Join(sub, Marker)) {
          GatedIsFlat(fs, sub, items.0, items.1, fs[sub].names);
          DottedItemsConcat(GatedNames(fs, sub, items.0, items.1, fs[sub].names), rest);
        } else {
          assert [] + rest == rest;
        }
      } else if m.None? && MatchModule(name).Some? && IsFile(fs, sub) {
        DottedItemsConcat([SubItem(MatchModule(name).value, alias, package)], rest);
      }
    }
  }

  class Test {
    const testRoot: Path
    var testModules: map<string, string>

    constructor (testRoot: Path)
      ensures this.testRoot == testRoot && testModules == map[]
    {
      this.testRoot := testRoot;
      testModules := map[];
    }

    /** `collect_modules`: with no `__init__.py` in the test root the map is
        empty; otherwise it is the map of the flat walk with no base, and a
        root that is no directory fails as `listdir` does, leaving the map
        as it was. */
    method CollectModules(fs: Tree) returns (err: Option<OsError>)
      modifies this
      ensures !IsFile(fs, Join(testRoot, Marker)) ==> err.None? && testModules == map[]
      ensures IsFile(fs, Join(testRoot, Marker)) && IsDir(fs, testRoot) ==>
        err.None? && testModules == FlatTest.ModuleMap(fs, testRoot, [])
      ensures IsFile(fs, Join(testRoot, Marker)) && !IsDir(fs, testRoot) ==>
        err == Some(ListDir(fs, testRoot).error) && testModules == old(testModules)
    {
      var walked := GatedWalk(fs, testRoot, [], []);
      if walked.Failure? {
        return Some(walked.error);
      }
      var modules := DottedPairs(walked.value);
      testModules := Dict.FromPairs(modules);
      if IsFile(fs, Join(testRoot, Marker)) {
        NoBase(fs, testRoot);
      }
      return None;
    }
  }

  /** The loop of `collect_modules`: one dotted pair per item, in order. */
  method DottedPairs(items: seq<Item>) returns (modules: seq<(string, string)>)
    ensures modules == DottedItems(items)
  {
    modules := [];
    var i := 0;
    while i < |items|
      invariant 0 <= i <= |items| && |modules| == i
      invariant forall j :: 0 <= j < i ==> modules[j] == (Strings.Dotted(items[j].0), Strings.Dotted(items[j].1))
    {
      modules := modules + [(Strings.Dotted(items[i].0), Strings.Dotted(items[i].1))];
      i := i + 1;
    }
  }

  /** With an `__init__.py` in the directory `root`, the map the gated
      walk builds is the flat map under an empty base. */
  lemma NoBase(fs: Tree, root: Path)
    requires IsFile(fs, Join(root, Marker)) && IsDir(fs, root)
    ensures Dict.FromPairs(DottedItems(GatedNames(fs, root, [], [], fs[root].names)))
      == FlatTest.ModuleMap(fs, root, [])
  {
    var ps := FlatTest.WalkNames(fs, root, [], [], fs[root].names);
    GatedIsFlat(fs, root, [], [], fs[root].names);
    forall i | 0 <= i < |ps| ensures FlatTest.Qualify([], ps)[i] == ps[i]
    {
      assert [] + [ps[i].1] == [ps[i].1];
    }
    assert FlatTest.Qualify([], ps) == ps;
  }

  /** Every leaf module below a gated root is collected under its dotted
      alias, with its dotted name and no base. */
  lemma CollectedLeaf(fs: Tree, root: Path, ts: seq<string>)
    requires IsFile(fs, Join(root, Marker)) && IsDir(fs, root)
    requires FlatTest.Leaf(fs, root, fs[root].names, ts)
    ensures Strings.Dotted(ts) in FlatTest.ModuleMap(fs, root, [])
    ensures FlatTest.ModuleMap(fs, root, [])[Strings.Dotted(ts)] == Strings.Dotted(FlatTest.Prefixed(ts))
  {
    FlatTest.ModuleMapFound(fs, root, [], ts);
    FlatTest.QualifiedName([], Strings.Dotted(FlatTest.Prefixed(ts)));
  }
}
