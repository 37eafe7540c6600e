/** The test discovery tree of distcovery/path.py: `Importable` nodes with
    alias and qualified-name segments, the `Package` class whose `walk`
    fills `modules`, `packages` and the flattened `content` map, the report
    order of `enumerate`, and the base prefix computed by `_split_path`. */
module PathTree {
  import opened Wrappers
  import opened FileSystem
  import opened Naming
  import opened Exceptions
  import Strings
  import Dict

  type Segments = seq<string>

  /** A discovered node: `base` is the prefix between the working directory
      and the test root, `alias` the prefix-stripped segments from the root
      down to the node and `name` the same segments with the prefix kept. */
  datatype Importable = Importable(base: Segments, path: Path, alias: Segments, name: Segments)
  {
    /** `str_alias`: the dotted alias, without the base. */
    function StrAlias(): string
    {
      Strings.Dotted(alias)
    }

    /** `str_name`: the dotted base followed by the name. */
    function StrName(): string
    {
      Strings.Dotted(base + name)
    }
  }

  /** `Importable.__init__`: with both a match and a parent, the alias and
      name extend the parent's by group 2 and group 1; otherwise both are
      empty. The base is taken as given. */
  function NewImportable(base: Segments, path: Path, m: Option<Match>, parent: Option<Importable>): (r: Importable)
    ensures r.base == base && r.path == path
    ensures m.None? || parent.None? ==> r.alias == [] && r.name == []
    ensures m.Some? && parent.Some? ==>
      r.alias == parent.value.alias + [m.value.alias] && r.name == parent.value.name + [m.value.name]
    ensures (m.None? || IsMatch(m.value)) && (parent.None? || WellNamed(parent.value.alias, parent.value.name))
      ==> WellNamed(r.alias, r.name)
  {
    if m.Some? && parent.Some? then
      Importable(base, path, parent.value.alias + [m.value.alias], parent.value.name + [m.value.name])
    else
      Importable(base, path, [], [])
  }

  /** How `walk` treats one directory entry: a package-pattern name becomes
      a package child only when it is a directory holding `__init__.py`
      and is otherwise skipped, never tried as a module; any other name
      becomes a module child when it matches the module pattern and is a
      regular file. */
  datatype Kind = Skip | AsModule(importable: Importable) | AsPackage(entry: Importable)

  function Classify(fs: Tree, node: Importable, name: string): (k: Kind)
    ensures k.AsPackage? <==> MatchPackage(name).Some? && IsPackage(fs, Join(node.path, name))
    ensures k.AsModule? <==>
      MatchPackage(name).None? && MatchModule(name).Some? && IsModule(fs, Join(node.path, name))
    ensures k.AsPackage? ==> k.entry == NewImportable(node.base, Join(node.path, name), MatchPackage(name), Some(node))
    ensures k.AsModule? ==> k.importable == NewImportable(node.base, Join(node.path, name), MatchModule(name), Some(node))
  {
    var path := Join(node.path, name);
    var m := MatchPackage(name);
    if m.Some? then
      if IsPackage(fs, path) then AsPackage(NewImportable(node.base, path, m, Some(node))) else Skip
    else
      var m' := MatchModule(name);
      if m'.Some? && IsModule(fs, path) then AsModule(NewImportable(node.base, path, m', Some(node))) else Skip
  }

  /** What a content entry records about its node. */
  datatype Info = Info(isPackage: bool, node: Importable)

  /** The state `walk` leaves behind after the entries `names` of the
      listing, in order: direct module children, direct package children,
      and the flattened content. A later entry overwrites an earlier one
      under the same key, as dictionary assignment does. */
  datatype Listing = Listing(modules: seq<Importable>, packages: seq<Importable>, content: map<string, Info>)

  function Scan(fs: Tree, node: Importable, names: seq<string>): Listing
    decreases Deeper(fs, node.path), |names|
  {
    if |names| == 0 then Listing([], [], map[])
    else
      var s := Scan(fs, node, names[..|names| - 1]);
      var name := names[|names| - 1];
      match Classify(fs, node, name)
      case Skip => s
      case AsModule(c) =>
        Listing(s.modules + [c], s.packages, s.content[c.StrAlias() := Info(false, c)])
      case AsPackage(c) =>
        DeeperShrinks(fs, node.path, name);
        var sub := Scan(fs, c, fs[c.path].names);
        Listing(s.modules, s.packages + [c], (s.content + sub.content)[c.StrAlias() := Info(true, c)])
  }

  /** The content a walk of the node's directory produces. */
  function ContentOf(fs: Tree, node: Importable): map<string, Info>
  {
    if IsDir(fs, node.path) then Scan(fs, node, fs[node.path].names).content else map[]
  }

  /** A content value: a module node, or the package object itself. */
  datatype Child = ModuleChild(importable: Importable) | PackageChild(object: Package)

  function InfoOf(c: Child): Info
  {
    match c
    case ModuleChild(m) => Info(false, m)
    case PackageChild(p) => Info(true, p.node)
  }

  function InfoMap(m: map<string, Child>): (r: map<string, Info>)
    ensures r.Keys == m.Keys
    ensures forall k :: k in m ==> r[k] == InfoOf(m[k])
  {
    map k | k in m :: InfoOf(m[k])
  }

  lemma InfoMapUnion(a: map<string, Child>, b: map<string, Child>)
    ensures InfoMap(a + b) == InfoMap(a) + InfoMap(b)
  {
  }

  lemma InfoMapUpdate(a: map<string, Child>, k: string, c: Child)
    ensures InfoMap(a[k := c]) == InfoMap(a)[k := InfoOf(c)]
  {
  }

  /** One more listing entry: what `Scan` adds for `names[i]`. */
  lemma ScanStep(fs: Tree, node: Importable, names: seq<string>, i: nat)
    requires i < |names|
    ensures var s := Scan(fs, node, names[..i]);
      var t := Scan(fs, node, names[..i + 1]);
      match Classify(fs, node, names[i])
      case Skip => t == s
      case AsModule(c) =>
        t == Listing(s.modules + [c], s.packages, s.content[c.StrAlias() := Info(false, c)])
      case AsPackage(c) =>
        IsDir(fs, c.path)
        && t == Listing(s.modules, s.packages + [c], (s.content + ContentOf(fs, c))[c.StrAlias() := Info(true, c)])
  {
    assert names[..i + 1][..i] == names[..i];
  }

  class Package {
    const node: Importable
    var modules: seq<Importable>
    var packages: seq<Package>
    var content: map<string, Child>
    ghost var Repr: set<object>

    ghost predicate Valid()
      reads this, Repr
      decreases Repr
    {
      this in Repr
      && forall i :: 0 <= i < |packages| ==>
           packages[i] in Repr && packages[i].Repr <= Repr && this !in packages[i].Repr
           && packages[i].Valid()
    }

    /** The package and, recursively, its package children hold what a walk
        of the filesystem produces. */
    ghost predicate Walked(fs: Tree)
      reads this, Repr
      requires Valid()
      decreases Repr, 1
    {
      IsDir(fs, node.path) && Reflects(fs, Scan(fs, node, fs[node.path].names))
    }

    /** The fields hold the listing `s`, and every package child is walked. */
    ghost predicate Reflects(fs: Tree, s: Listing)
      reads this, Repr
      requires Valid()
      decreases Repr, 0
    {
      modules == s.modules && |packages| == |s.packages| && InfoMap(content) == s.content
      && forall j :: 0 <= j < |packages| ==> packages[j].node == s.packages[j] && packages[j].Walked(fs)
    }

    /** `Package.__init__`: a node with no children yet. */
    constructor (base: Segments, path: Path, m: Option<Match>, parent: Option<Importable>)
      ensures node == NewImportable(base, path, m, parent)
      ensures modules == [] && packages == [] && content == map[]
      ensures Valid() && Repr == {this}
    {
      node := NewImportable(base, path, m, parent);
      modules := [];
      packages := [];
      content := map[];
      Repr := {this};
    }

    /** `Package.walk`: lists the directory, classifies each entry, walks
        each package child and copies its content into this one pair by
        pair, and records every child under its dotted alias. `pairs` is
        what the generator yields, in order; the dictionary built from it is
        the content. Listing a missing path or a file fails with the
        `OSError` of `listdir`, yields nothing and changes nothing. */
    method Walk(fs: Tree) returns (err: Option<OsError>, pairs: seq<(string, Child)>)
      requires Valid() && Repr == {this}
      requires modules == [] && packages == [] && content == map[]
      modifies this
      decreases Deeper(fs, node.path), 1
      ensures Valid() && fresh(Repr - {this})
      ensures err.Some? <==> !IsDir(fs, node.path)
      ensures err.Some? ==> err.value == ListDir(fs, node.path).error && pairs == [] && unchanged(this)
      ensures err.None? ==> Walked(fs) && Dict.FromPairs(pairs) == content
    {
      pairs := [];
      var listing := ListDir(fs, node.path);
      if listing.Failure? {
        return Some(listing.error), pairs;
      }
      var names := listing.value;
      var i := 0;
      while i < |names|
        invariant 0 <= i <= |names|
        invariant Valid() && fresh(Repr - {this})
        invariant Reflects(fs, Scan(fs, node, names[..i]))
        invariant Dict.FromPairs(pairs) == content
      {
        pairs := Visit(fs, names, i, pairs);
        i := i + 1;
      }
      assert names[..|names|] == names;
      return None, pairs;
    }

    /** The body of the loop of `walk` for the entry `names[i]`. */
    method Visit(fs: Tree, names: seq<string>, i: nat, pairs: seq<(string, Child)>)
      returns (pairs': seq<(string, Child)>)
      requires i < |names| && Valid() && Reflects(fs, Scan(fs, node, names[..i]))
      requires Dict.FromPairs(pairs) == content
      modifies this
      decreases Deeper(fs, node.path), 0
      ensures Valid() && fresh(Repr - old(Repr))
      ensures Reflects(fs, Scan(fs, node, names[..i + 1])) && Dict.FromPairs(pairs') == content
    {
      pairs' := pairs;
      ScanStep(fs, node, names, i);
      ghost var s := Scan(fs, node, names[..i]);
      var name := names[i];
      var path := Join(node.path, name);
      var m := MatchPackage(name);
      if m.Some? {
        if IsPackage(fs, path) {
          var child := new Package(node.base, path, m, Some(node));
          DeeperShrinks(fs, node.path, name);
          var _, childPairs := child.Walk(fs);
          pairs' := AddPackage(fs, s, child, childPairs, pairs);
        }
      } else {
        m := MatchModule(name);
        if m.Some? && IsModule(fs, path) {
          var child := NewImportable(node.base, path, m, Some(node));
          pairs' := AddModule(fs, s, child, pairs);
        }
      }
    }

    /** The module branch of `walk`: append to `modules`, record in
        `content`, yield the pair. */
    method AddModule(ghost fs: Tree, ghost s: Listing, child: Importable, pairs: seq<(string, Child)>)
      returns (pairs': seq<(string, Child)>)
      requires Valid() && Reflects(fs, s) && Dict.FromPairs(pairs) == content
      modifies this
      ensures Valid() && Repr == old(Repr)
      ensures pairs' == pairs + [(child.StrAlias(), ModuleChild(child))] && Dict.FromPairs(pairs') == content
      ensures Reflects(fs, Listing(s.modules + [child], s.packages, s.content[child.StrAlias() := Info(false, child)]))
    {
      var item := (child.StrAlias(), ModuleChild(child));
      Dict.FromPairsSnoc(pairs, item);
      InfoMapUpdate(content, item.0, item.1);
      modules := modules + [child];
      content := content[item.0 := item.1];
      pairs' := pairs + [item];
    }

    /** The package branch of `walk`, once the child is walked: copy and
        re-yield each pair the child yielded, append the child to
        `packages`, record it in `content` and yield it. */
    method AddPackage(ghost fs: Tree, ghost s: Listing, child: Package, childPairs: seq<(string, Child)>,
                      pairs: seq<(string, Child)>) returns (pairs': seq<(string, Child)>)
      requires Valid() && Reflects(fs, s) && Dict.FromPairs(pairs) == content
      requires child.Valid() && child.Walked(fs) && this !in child.Repr
      requires Dict.FromPairs(childPairs) == child.content
      modifies this
      ensures Valid() && Repr == old(Repr) + child.Repr
      ensures pairs' == pairs + childPairs + [(child.node.StrAlias(), PackageChild(child))]
      ensures Dict.FromPairs(pairs') == content
      ensures Reflects(fs, Listing(s.modules, s.packages + [child.node],
        (s.content + ContentOf(fs, child.node))[child.node.StrAlias() := Info(true, child.node)]))
    {
      pairs' := CopyPairs(childPairs, pairs);
      InfoMapUnion(old(content), child.content);
      assert content == old(content) + child.content;
      packages := packages + [child];
      InfoMapUpdate(content, child.node.StrAlias(), PackageChild(child));
      content := content[child.node.StrAlias() := PackageChild(child)];
      pairs' := pairs' + [(child.node.StrAlias(), PackageChild(child))];
      Repr := Repr + child.Repr;
    }

    /** The inner loop of the package branch: assign and re-yield the
        child's pairs one at a time. */
    method CopyPairs(childPairs: seq<(string, Child)>, pairs: seq<(string, Child)>)
      returns (pairs': seq<(string, Child)>)
      requires Dict.FromPairs(pairs) == content
      modifies this
      ensures pairs' == pairs + childPairs && Dict.FromPairs(pairs') == content
      ensures content == old(content) + Dict.FromPairs(childPairs)
      ensures modules == old(modules) && packages == old(packages) && Repr == old(Repr)
    {
      pairs' := pairs;
      var k := 0;
      while k < |childPairs|
        invariant 0 <= k <= |childPairs|
        invariant pairs' == pairs + childPairs[..k] && Dict.FromPairs(pairs') == content
        invariant content == old(content) + Dict.FromPairs(childPairs[..k])
        invariant modules == old(modules) && packages == old(packages) && Repr == old(Repr)
      {
        var item := childPairs[k];
        assert childPairs[..k + 1] == childPairs[..k] + [item];
        Dict.FromPairsSnoc(childPairs[..k], item);
        Dict.FromPairsSnoc(pairs', item);
        Dict.UnionUpdate(old(content), Dict.FromPairs(childPairs[..k]), item.0, item.1);
        content := content[item.0 := item.1];
        pairs' := pairs' + [item];
        k := k + 1;
      }
      assert childPairs[..k] == childPairs;
    }

    /** `Package.enumerate`: the module children at `level`, then each
        package child at `level` followed by its own enumeration one level
        deeper. */
    function Enumerate(level: int := 1): (r: seq<Line>)
      reads this, Repr
      requires Valid()
      decreases Repr, 1
      ensures |r| >= |modules|
      ensures forall i :: 0 <= i < |modules| ==> r[i] == Line(false, level, modules[i].StrAlias())
      ensures forall i :: 0 <= i < |r| ==> r[i].level >= level
      ensures AtLevel(r, level) == ModuleLines(modules, level) + PackageHeads(0, level)
    {
      AtLevelConcat(ModuleLines(modules, level), PackageLines(0, level), level);
      AtLevelSame(ModuleLines(modules, level), level);
      ModuleLines(modules, level) + PackageLines(0, level)
    }

    /** The aliases of the package children from the `k`-th on, and the
        keys of their content. */
    ghost function ChildKeys(k: nat): set<string>
      reads this, Repr
      requires Valid() && k <= |packages|
      decreases |packages| - k
    {
      if k == |packages| then {}
      else {packages[k].node.StrAlias()} + packages[k].content.Keys + ChildKeys(k + 1)
    }

    /** The lines naming the package children from the `k`-th on. */
    function PackageHeads(k: nat, level: int): (r: seq<Line>)
      reads this
      requires k <= |packages|
      ensures |r| == |packages| - k
      ensures forall i :: 0 <= i < |r| ==> r[i] == Line(true, level, packages[k + i].node.StrAlias())
      decreases |packages| - k
    {
      if k == |packages| then [] else [Line(true, level, packages[k].node.StrAlias())] + PackageHeads(k + 1, level)
    }

    /** The lines of the package children from the `k`-th on. */
    function PackageLines(k: nat, level: int): (r: seq<Line>)
      reads this, Repr
      requires Valid() && k <= |packages|
      decreases Repr, 0, |packages| - k
      ensures forall i :: 0 <= i < |r| ==> r[i].level >= level
      ensures AtLevel(r, level) == PackageHeads(k, level)
    {
      if k == |packages| then []
      else
        var head := [Line(true, level, packages[k].node.StrAlias())];
        var sub := packages[k].Enumerate(level + 1);
        var rest := PackageLines(k + 1, level);
        AtLevelConcat(head + sub, rest, level);
        AtLevelConcat(head, sub, level);
        AtLevelDeeper(sub, level);
        head + sub + rest
    }
  }

  /** One item of `enumerate`: whether it is a package, its depth, its alias. */
  datatype Line = Line(isPackage: bool, level: int, alias: string)

  /** The lines at exactly `level`, in order. */
  function AtLevel(lines: seq<Line>, level: int): seq<Line>
  {
    if |lines| == 0 then []
    else (if lines[0].level == level then [lines[0]] else []) + AtLevel(lines[1..], level)
  }

  lemma {:induction false} AtLevelConcat(a: seq<Line>, b: seq<Line>, level: int)
    ensures AtLevel(a + b, level) == AtLevel(a, level) + AtLevel(b, level)
  {
    if |a| > 0 {
      assert (a + b)[1..] == a[1..] + b;
      AtLevelConcat(a[1..], b, level);
    } else {
      assert a + b == b;
    }
  }

  lemma {:induction false} AtLevelSame(lines: seq<Line>, level: int)
    requires forall i :: 0 <= i < |lines| ==> lines[i].level == level
    ensures AtLevel(lines, level) == lines
  {
    if |lines| > 0 {
      AtLevelSame(lines[1..], level);
    }
  }

  lemma {:induction false} AtLevelDeeper(lines: seq<Line>, level: int)
    requires forall i :: 0 <= i < |lines| ==> lines[i].level > level
    ensures AtLevel(lines, level) == []
  {
    if |lines| > 0 {
      AtLevelDeeper(lines[1..], level);
    }
  }

  function ModuleLines(ms: seq<Importable>, level: int): (r: seq<Line>)
    ensures |r| == |ms| && forall i :: 0 <= i < |ms| ==> r[i] == Line(false, level, ms[i].StrAlias())
  {
    if |ms| == 0 then [] else [Line(false, level, ms[0].StrAlias())] + ModuleLines(ms[1..], level)
  }

  /** No name between the root and the path is empty. */
  predicate NoEmptyName(t: Segments)
  {
    forall i :: 0 <= i < |t| ==> t[i] != ""
  }

  /** What `_split_path(path, root)` returns: the names leading from `root`
      down to `path`, or `InvalidTestRoot` when `path` is not below `root`. */
  function BaseOf(path: Path, root: Path): (r: Result<Segments, Error>)
    ensures r.Success? ==> root + r.value == path && NoEmptyName(r.value)
    ensures r.Failure? ==> r.error == InvalidTestRoot(PathString(path), PathString(root))
  {
    if |root| <= |path| && path[..|root|] == root && NoEmptyName(path[|root|..]) then
      Success(path[|root|..])
    else
      Failure(InvalidTestRoot(PathString(path), PathString(root)))
  }

  /** A path below the root gives back exactly the names below it. */
  lemma BaseOfBelow(root: Path, t: Segments)
    requires NoEmptyName(t)
    ensures BaseOf(root + t, root) == Success(t)
  {
    assert (root + t)[..|root|] == root && (root + t)[|root|..] == t;
  }

  /** `_split_path`: split names off `path` until `root` is reached. */
  method SplitPath(path: Path, root: Path) returns (r: Result<Segments, Error>)
    ensures r == BaseOf(path, root)
  {
    var head := path;
    var tail: Segments := [];
    while head != root
      invariant |head| <= |path| && head == path[..|head|] && tail == path[|head|..]
      invariant NoEmptyName(tail)
      invariant forall j :: |head| < j <= |path| ==> path[..j] != root
      decreases |head|
    {
      ghost var previous := head;
      var parts := Split(head);
      var name := parts.1;
      head := parts.0;
      if name == "" {
        NotBelow(path, root, previous);
        return Failure(InvalidTestRoot(PathString(path), PathString(root)));
      }
      tail := [name] + tail;
    }
    assert path[..|root|] == root;
    return Success(tail);
  }

  /** Reaching an empty name before the root means `path` is not below it. */
  lemma NotBelow(path: Path, root: Path, head: Path)
    requires |head| <= |path| && head == path[..|head|] && head != root
    requires forall j :: |head| < j <= |path| ==> path[..j] != root
    requires |head| == 0 || head[|head| - 1] == ""
    ensures BaseOf(path, root).Failure?
  {
    if |root| <= |path| && path[..|root|] == root {
      assert |root| < |head|;
      assert path[|root|..][|head| - 1 - |root|] == "";
    }
  }

  /** `walk(path)`: the base is the names from the working directory `cwd`
      down to the absolute form of `path`; the root package has an empty
      alias and name, and is walked. */
  method Walk(fs: Tree, cwd: Path, path: Path) returns (r: Result<Package, Error>)
    ensures BaseOf(AbsPath(cwd, path), cwd).Failure? ==> r == Failure(BaseOf(AbsPath(cwd, path), cwd).error)
    ensures BaseOf(AbsPath(cwd, path), cwd).Success? ==>
      (r.Failure? <==> !IsDir(fs, path))
      && (r.Failure? ==> r.error == Os(ListDir(fs, path).error))
    ensures r.Success? ==>
      BaseOf(AbsPath(cwd, path), cwd).Success?
      && r.value.node == Importable(BaseOf(AbsPath(cwd, path), cwd).value, path, [], [])
      && r.value.Valid() && fresh(r.value.Repr) && r.value.Walked(fs)
  {
    var base := SplitPath(AbsPath(cwd, path), cwd);
    if base.Failure? {
      return Failure(base.error);
    }
    var package := new Package(base.value, path, None, None);
    var err, pairs := package.Walk(fs);
    var _ := Dict.FromPairs(pairs);
    if err.Some? {
      return Failure(Os(err.value));
    }
    return Success(package);
  }

  /** `a` is a proper prefix of `b`. */
  predicate Below<T(==)>(a: seq<T>, b: seq<T>)
  {
    |a| < |b| && b[..|a|] == a
  }

  /** What holds of the entry `v` recorded under key `k` anywhere below
      `node`: it is keyed by its own dotted alias, it shares the base, its
      alias and path extend the node's by the same number of names, it is
      a package or a module on the filesystem as recorded, and it is well
      named when the node is. */
  predicate EntryOf(fs: Tree, node: Importable, k: string, v: Info)
  {
    v.node.StrAlias() == k
    && v.node.base == node.base
    && Below(node.alias, v.node.alias) && Below(node.path, v.node.path)
    && |v.node.path| - |node.path| == |v.node.alias| - |node.alias|
    && (v.isPackage ==> IsPackage(fs, v.node.path))
    && (!v.isPackage ==> IsModule(fs, v.node.path))
    && (WellNamed(node.alias, node.name) ==> WellNamed(v.node.alias, v.node.name))
  }

  /** An entry below a direct child is an entry below the node. */
  lemma EntryOfChild(fs: Tree, node: Importable, name: string, c: Importable, k: string, v: Info)
    requires Classify(fs, node, name) == AsPackage(c)
    requires EntryOf(fs, c, k, v)
    ensures EntryOf(fs, node, k, v)
  {
    var m := MatchPackage(name);
    assert IsMatch(m.value);
    assert v.node.alias[..|node.alias|] == v.node.alias[..|c.alias|][..|node.alias|];
    assert v.node.path[..|node.path|] == v.node.path[..|c.path|][..|node.path|];
  }

  lemma {:induction false} ScanEntries(fs: Tree, node: Importable, names: seq<string>)
    ensures var s := Scan(fs, node, names);
      forall k :: k in s.content ==> EntryOf(fs, node, k, s.content[k])
    decreases Deeper(fs, node.path), |names|
  {
    if |names| > 0 {
      var n := |names| - 1;
      ScanEntries(fs, node, names[..n]);
      ScanStep(fs, node, names, n);
      MatchPackageWellNamed(names[n]);
      MatchModuleWellNamed(names[n]);
      match Classify(fs, node, names[n])
      case Skip =>
      case AsModule(c) =>
      case AsPackage(c) =>
        DeeperShrinks(fs, node.path, names[n]);
        ScanEntries(fs, c, fs[c.path].names);
        assert ContentOf(fs, c) == Scan(fs, c, fs[c.path].names).content;
        forall k | k in ContentOf(fs, c)
          ensures EntryOf(fs, node, k, ContentOf(fs, c)[k])
        {
          EntryOfChild(fs, node, names[n], c, k, ContentOf(fs, c)[k]);
        }
    }
  }

  lemma MatchPackageWellNamed(name: string)
    ensures MatchPackage(name).Some? ==> IsMatch(MatchPackage(name).value)
  {
  }

  lemma MatchModuleWellNamed(name: string)
    ensures MatchModule(name).Some? ==> IsMatch(MatchModule(name).value)
  {
  }

  /** The dotted aliases of a sequence of nodes. */
  function AliasSet(ns: seq<Importable>): set<string>
  {
    set i | 0 <= i < |ns| :: ns[i].StrAlias()
  }

  /** The aliases of the package nodes `ps` and the keys of the content
      their walks produce. */
  function PackageKeys(fs: Tree, ps: seq<Importable>): set<string>
  {
    if |ps| == 0 then {} else {ps[0].StrAlias()} + ContentOf(fs, ps[0]).Keys + PackageKeys(fs, ps[1..])
  }

  lemma AliasSetSnoc(ns: seq<Importable>, c: Importable)
    ensures AliasSet(ns + [c]) == AliasSet(ns) + {c.StrAlias()}
  {
    var ns' := ns + [c];
    assert ns'[|ns|] == c;
    forall x | x in AliasSet(ns) ensures x in AliasSet(ns')
    {
      var i :| 0 <= i < |ns| && ns[i].StrAlias() == x;
      assert ns'[i] == ns[i];
    }
  }

  lemma {:induction false} PackageKeysSnoc(fs: Tree, ps: seq<Importable>, c: Importable)
    ensures PackageKeys(fs, ps + [c]) == PackageKeys(fs, ps) + {c.StrAlias()} + ContentOf(fs, c).Keys
  {
    if |ps| == 0 {
      assert [] + [c] == [c];
    } else {
      assert (ps + [c])[1..] == ps[1..] + [c];
      PackageKeysSnoc(fs, ps[1..], c);
    }
  }

  /** The content holds exactly the direct children and the content of
      every package child: nothing else, and none of them is lost. */
  lemma {:induction false} ScanKeys(fs: Tree, node: Importable, names: seq<string>)
    ensures var s := Scan(fs, node, names);
      s.content.Keys == AliasSet(s.modules) + PackageKeys(fs, s.packages)
  {
    if |names| > 0 {
      var n := |names| - 1;
      ScanKeys(fs, node, names[..n]);
      ScanStep(fs, node, names, n);
      var s := Scan(fs, node, names[..n]);
      match Classify(fs, node, names[n])
      case Skip =>
      case AsModule(c) =>
        AliasSetSnoc(s.modules, c);
      case AsPackage(c) =>
        PackageKeysSnoc(fs, s.packages, c);
    }
  }

  /** The module children are exactly the entries of the listing that
      classify as modules. */
  lemma {:induction false} ScanModules(fs: Tree, node: Importable, names: seq<string>)
    ensures forall c :: c in Scan(fs, node, names).modules <==>
      exists i :: 0 <= i < |names| && Classify(fs, node, names[i]) == AsModule(c)
  {
    if |names| > 0 {
      var n := |names| - 1;
      var init := names[..n];
      ScanModules(fs, node, init);
      ScanStep(fs, node, names, n);
      assert forall i :: 0 <= i < n ==> init[i] == names[i];
    }
  }

  /** The package children are exactly the entries of the listing that
      classify as packages. */
  lemma {:induction false} ScanPackages(fs: Tree, node: Importable, names: seq<string>)
    ensures forall c :: c in Scan(fs, node, names).packages <==>
      exists i :: 0 <= i < |names| && Classify(fs, node, names[i]) == AsPackage(c)
  {
    if |names| > 0 {
      var n := |names| - 1;
      var init := names[..n];
      ScanPackages(fs, node, init);
      ScanStep(fs, node, names, n);
      assert forall i :: 0 <= i < n ==> init[i] == names[i];
    }
  }

  /** The aliases an enumeration reports. */
  function LineAliases(lines: seq<Line>): set<string>
  {
    set i | 0 <= i < |lines| :: lines[i].alias
  }

  lemma LineAliasesConcat(a: seq<Line>, b: seq<Line>)
    ensures LineAliases(a + b) == LineAliases(a) + LineAliases(b)
  {
    var ab := a + b;
    forall x | x in LineAliases(ab) ensures x in LineAliases(a) + LineAliases(b)
    {
      var i :| 0 <= i < |ab| && ab[i].alias == x;
      if i >= |a| {
        assert b[i - |a|] == ab[i];
      }
    }
    forall x | x in LineAliases(a) + LineAliases(b) ensures x in LineAliases(ab)
    {
      if x in LineAliases(a) {
        var i :| 0 <= i < |a| && a[i].alias == x;
        assert ab[i] == a[i];
      } else {
        var i :| 0 <= i < |b| && b[i].alias == x;
        assert ab[|a| + i] == b[i];
      }
    }
  }

  lemma LineAliasesOne(l: Line)
    ensures LineAliases([l]) == {l.alias}
  {
    assert [l][0] == l;
  }

  lemma ModuleLinesAliases(ms: seq<Importable>, level: int)
    ensures LineAliases(ModuleLines(ms, level)) == AliasSet(ms)
  {
    var ml := ModuleLines(ms, level);
    forall x | x in AliasSet(ms) ensures x in LineAliases(ml)
    {
      var i :| 0 <= i < |ms| && ms[i].StrAlias() == x;
      assert ml[i].alias == x;
    }
  }

  /** The keys of a walked package's content. */
  lemma WalkedContent(q: Package, fs: Tree)
    requires q.Valid() && q.Walked(fs)
    ensures q.content.Keys == ContentOf(fs, q.node).Keys
  {
    assert InfoMap(q.content).Keys == q.content.Keys;
  }

  /** The content of a walked package holds its module children, its
      package children and everything in the content of each package
      child, and nothing else. */
  lemma ContentFlattened(p: Package, fs: Tree)
    requires p.Valid() && p.Walked(fs)
    ensures p.content.Keys == AliasSet(p.modules) + p.ChildKeys(0)
  {
    var s := Scan(fs, p.node, fs[p.node.path].names);
    ScanKeys(fs, p.node, fs[p.node.path].names);
    assert InfoMap(p.content).Keys == p.content.Keys;
    assert s.packages[0..] == s.packages;
    ChildKeysOfScan(p, fs, s, 0);
  }

  lemma {:induction false} ChildKeysOfScan(p: Package, fs: Tree, s: Listing, k: nat)
    requires p.Valid() && k <= |p.packages| && |p.packages| == |s.packages|
    requires forall j :: 0 <= j < |p.packages| ==> p.packages[j].node == s.packages[j] && p.packages[j].Walked(fs)
    ensures p.ChildKeys(k) == PackageKeys(fs, s.packages[k..])
    decreases |p.packages| - k
  {
    if k < |p.packages| {
      ChildKeysOfScan(p, fs, s, k + 1);
      WalkedContent(p.packages[k], fs);
      assert s.packages[k..][1..] == s.packages[k + 1..];
    }
  }

  /** A walked package enumerates exactly the keys of its content. */
  lemma {:induction false} EnumerateCoversContent(p: Package, fs: Tree, level: int)
    requires p.Valid() && p.Walked(fs)
    ensures LineAliases(p.Enumerate(level)) == p.content.Keys
    decreases p.Repr, 1
  {
    ContentFlattened(p, fs);
    ModuleLinesAliases(p.modules, level);
    LineAliasesConcat(ModuleLines(p.modules, level), p.PackageLines(0, level));
    PackageLinesCover(p, fs, level, 0);
  }

  /** The package lines from the `k`-th child on report each of those
      children and the content of each. */
  lemma {:induction false} PackageLinesCover(p: Package, fs: Tree, level: int, k: nat)
    requires p.Valid() && p.Walked(fs) && k <= |p.packages|
    ensures LineAliases(p.PackageLines(k, level)) == p.ChildKeys(k)
    decreases p.Repr, 0, |p.packages| - k
  {
    if k < |p.packages| {
      var q := p.packages[k];
      var head := [Line(true, level, q.node.StrAlias())];
      assert q.Walked(fs);
      EnumerateCoversContent(q, fs, level + 1);
      PackageLinesCover(p, fs, level, k + 1);
      LineAliasesConcat(head, q.Enumerate(level + 1));
      LineAliasesConcat(head + q.Enumerate(level + 1), p.PackageLines(k + 1, level));
      LineAliasesOne(head[0]);
    }
  }

  /** In the listing `r`, the line `h` comes at `at` with `n` lines at
      `level` before it. It is followed at once by `sub`, and then by the
      end of `r` or the next line at `level`. */
  predicate BlockAt(r: seq<Line>, at: nat, h: Line, sub: seq<Line>, level: int, n: nat)
  {
    at + 1 + |sub| <= |r|
    && r[at] == h
    && r[at + 1..at + 1 + |sub|] == sub
    && (at + 1 + |sub| == |r| || r[at + 1 + |sub|].level == level)
    && |AtLevel(r[..at], level)| == n
  }

  /** The `k`-th package head of `p.Enumerate(level)` comes after the module
      lines and the heads of packages `0` to `k - 1`. It is followed at once
      by that package's own `Enumerate(level + 1)`, whose lines are all
      deeper, and then by the end of the listing or the next line at `level`:
      the block under a head is exactly its package's listing. */
  lemma EnumerateNests(p: Package, level: int, k: nat) returns (at: nat)
    requires p.Valid() && k < |p.packages|
    ensures BlockAt(p.Enumerate(level), at, Line(true, level, p.packages[k].node.StrAlias()),
                    p.packages[k].Enumerate(level + 1), level, |p.modules| + k)
  {
    EnumerateSplits(p, level);
    var at' := PackageLinesBlock(p, level, 0, k);
    at := ModulesThenBlock(p.Enumerate(level), p.modules, p.PackageLines(0, level), at',
                           Line(true, level, p.packages[k].node.StrAlias()), p.packages[k].Enumerate(level + 1),
                           level, k);
  }

  /** An unfolding step for `EnumerateNests`: the listing is the module
      lines followed by the package lines. */
  lemma EnumerateSplits(p: Package, level: int)
    requires p.Valid()
    ensures p.Enumerate(level) == ModuleLines(p.modules, level) + p.PackageLines(0, level)
  {
  }

  /** A block of the package lines stays a block once the module lines,
      all at `level`, are put in front. */
  lemma ModulesThenBlock(r: seq<Line>, ms: seq<Importable>, ls: seq<Line>, at: nat, h: Line,
                         sub: seq<Line>, level: int, n: nat) returns (pos: nat)
    requires r == ModuleLines(ms, level) + ls
    requires BlockAt(ls, at, h, sub, level, n)
    ensures BlockAt(r, pos, h, sub, level, |ms| + n)
  {
    var a := ModuleLines(ms, level);
    AtLevelSame(a, level);
    pos := |a| + at;
    BlockAfter(r, a, ls, pos, at, h, sub, level, |ms|, n);
  }

  /** The listing ends with the module lines when there are no package
      children; otherwise the first package head comes right after them. */
  lemma EnumerateStarts(p: Package, level: int)
    requires p.Valid()
    ensures |p.packages| == 0 ==> p.Enumerate(level) == ModuleLines(p.modules, level)
    ensures |p.packages| > 0 ==>
      |p.Enumerate(level)| > |p.modules|
      && p.Enumerate(level)[|p.modules|] == Line(true, level, p.packages[0].node.StrAlias())
  {
    var ms := ModuleLines(p.modules, level);
    var ls := p.PackageLines(0, level);
    PackageLinesStarts(p, level, 0);
    assert p.Enumerate(level) == ms + ls;
    if |p.packages| > 0 {
      assert (ms + ls)[|ms|] == ls[0];
    }
  }

  /** The package lines from the `k`-th child on are empty past the last
      child, and otherwise start with the `k`-th head. */
  lemma PackageLinesStarts(p: Package, level: int, k: nat)
    requires p.Valid() && k <= |p.packages|
    ensures k == |p.packages| ==> p.PackageLines(k, level) == []
    ensures k < |p.packages| ==>
      |p.PackageLines(k, level)| > 0 && p.PackageLines(k, level)[0] == Line(true, level, p.packages[k].node.StrAlias())
  {
    if k < |p.packages| {
      var head := [Line(true, level, p.packages[k].node.StrAlias())];
      assert p.PackageLines(k, level) == head + p.packages[k].Enumerate(level + 1) + p.PackageLines(k + 1, level);
    }
  }

  /** `EnumerateNests` within the package lines from the `j`-th child on. */
  lemma {:induction false} PackageLinesBlock(p: Package, level: int, j: nat, k: nat) returns (at: nat)
    requires p.Valid() && j <= k < |p.packages|
    ensures BlockAt(p.PackageLines(j, level), at, Line(true, level, p.packages[k].node.StrAlias()),
                    p.packages[k].Enumerate(level + 1), level, k - j)
    ensures k == j ==> at == 0
    decreases k - j
  {
    var head := [Line(true, level, p.packages[j].node.StrAlias())];
    var sub := p.packages[j].Enumerate(level + 1);
    var rest := p.PackageLines(j + 1, level);
    if j == k {
      if j + 1 < |p.packages| {
        assert rest[0] == Line(true, level, p.packages[j + 1].node.StrAlias());
      }
      at := 0;
      BlockFirst(p.PackageLines(j, level), head, sub, rest, level);
    } else {
      var at' := PackageLinesBlock(p, level, j + 1, k);
      AtLevelConcat(head, sub, level);
      AtLevelDeeper(sub, level);
      at := |head + sub| + at';
      BlockAfter(p.PackageLines(j, level), head + sub, rest, at, at',
                 Line(true, level, p.packages[k].node.StrAlias()), p.packages[k].Enumerate(level + 1),
                 level, 1, k - j - 1);
    }
  }

  /** A head line, its block, and then lines that start at `level` or none. */
  lemma BlockFirst(r: seq<Line>, head: seq<Line>, sub: seq<Line>, rest: seq<Line>, level: int)
    requires r == head + sub + rest
    requires |head| == 1 && head[0].level == level
    requires rest == [] || rest[0].level == level
    ensures BlockAt(r, 0, head[0], sub, level, 0)
  {
    assert r[..0] == [];
    assert r[1..1 + |sub|] == sub;
    if rest != [] {
      assert r[1 + |sub|] == rest[0];
    }
  }

  /** A block of `b` keeps its shape in `r == a + b`, at `|a|` lines further
      on and with the `m` lines of `a` at `level` counted before it. */
  lemma BlockAfter(r: seq<Line>, a: seq<Line>, b: seq<Line>, pos: nat, at: nat, h: Line, sub: seq<Line>,
                   level: int, m: nat, n: nat)
    requires r == a + b && pos == |a| + at && m == |AtLevel(a, level)|
    requires BlockAt(b, at, h, sub, level, n)
    ensures BlockAt(r, pos, h, sub, level, m + n)
  {
    assert r[pos + 1..pos + 1 + |sub|] == b[at + 1..at + 1 + |sub|];
    assert r[..pos] == a + b[..at];
    AtLevelConcat(a, b[..at], level);
    assert r[pos] == b[at];
    if pos + 1 + |sub| < |r| {
      assert r[pos + 1 + |sub|] == b[at + 1 + |sub|];
    }
  }

  /** Among well-named nodes, a dotted alias determines both the alias
      and the name: two entries under one content key name the same
      module. */
  lemma AliasDetermines(a: Importable, b: Importable)
    requires WellNamed(a.alias, a.name) && WellNamed(b.alias, b.name)
    requires |a.alias| >= 1 && |b.alias| >= 1
    requires a.StrAlias() == b.StrAlias()
    ensures a.alias == b.alias && a.name == b.name
  {
    WellNamedDotFree(a.alias, a.name);
    WellNamedDotFree(b.alias, b.name);
    Strings.DottedInjective(a.alias, b.alias);
    assert forall i :: 0 <= i < |a.name| ==> a.name[i] == b.name[i];
  }

  /** `str_name` writes the dotted base, a dot, then the dotted name. */
  lemma StrNameSplits(i: Importable)
    requires |i.base| >= 1 && |i.name| >= 1
    ensures i.StrName() == Strings.Dotted(i.base) + "." + Strings.Dotted(i.name)
  {
    Strings.JoinAppend(i.base, i.name, ".");
  }

  /** A test root written as plain names, relative to the working
      directory, has exactly those names as its base. */
  lemma WalkBaseBelow(cwd: Path, path: Path)
    requires IsAbsolute(cwd) && forall i :: 1 <= i < |cwd| ==> IsPlain(cwd[i])
    requires forall i :: 0 <= i < |path| ==> IsPlain(path[i])
    ensures BaseOf(AbsPath(cwd, path), cwd) == Success(path)
  {
    AbsPathBelow(cwd, path);
    BaseOfBelow(cwd, path);
  }

  /** A test root above the working directory is refused. */
  lemma WalkBaseAbove()
    ensures BaseOf(AbsPath(["", "w"], [".."]), ["", "w"]) == Failure(InvalidTestRoot("/", "/w"))
  {
    AbsPathUp();
    assert PathString(["", "w"]) == "/w";
    assert PathString([""]) == "/";
  }

  lemma AbsPathUp()
    ensures AbsPath(["", "w"], [".."]) == [""]
  {
    var full: Path := ["", "w"] + [".."];
    assert full[1..] == ["w", ".."];
    ResolveUp();
  }

  lemma ResolveUp()
    ensures Resolve([], ["w", ".."], true) == []
  {
    var segs := ["w", ".."];
    assert segs[1..] == [".."];
    assert [".."][1..] == [];
    assert Resolve(["w"], [".."], true) == Resolve([], [], true);
  }
}
