/** The abstract filesystem the discoverers run against: a map from a path
    to either a regular file or a directory listing, as the mock directory
    tree in test/utils.py builds it. Paths are sequences of segments:
    `os.path.join` appends a segment and `os.path.split` removes the last
    one; an absolute path starts with the empty segment. */
module FileSystem {
  import opened Wrappers
  import Strings

  type Path = seq<string>

  /** A file (the mock's `None`) or a directory with its listing, in order. */
  datatype Node = File | Dir(names: seq<string>)

  type Tree = map<Path, Node>

  datatype Errno = ENOENT | ENOTDIR

  datatype OsError = OsError(errno: Errno, path: Path)

  /** `os.path.isfile`: the path is present and is a file. */
  predicate IsFile(fs: Tree, p: Path)
  {
    p in fs && fs[p].File?
  }

  /** `os.path.isdir`: the path is present and is a directory. */
  predicate IsDir(fs: Tree, p: Path)
  {
    p in fs && fs[p].Dir?
  }

  /** `os.listdir`: the listing of a directory; ENOENT for a missing path
      and ENOTDIR for a file. */
  function ListDir(fs: Tree, p: Path): (r: Result<seq<string>, OsError>)
    ensures r.Success? <==> IsDir(fs, p)
    ensures r.Success? ==> r.value == fs[p].names
    ensures r.Failure? ==> r.error.path == p && (r.error.errno == ENOTDIR <==> IsFile(fs, p))
  {
    if p !in fs then Failure(OsError(ENOENT, p))
    else match fs[p]
      case File => Failure(OsError(ENOTDIR, p))
      case Dir(names) => Success(names)
  }

  /** `os.path.join(p, name)`. */
  function Join(p: Path, name: string): Path
  {
    p + [name]
  }

  /** `os.path.split(p)`: the head and the last name; the empty name once
      nothing is left to split off. */
  function Split(p: Path): (r: (Path, string))
    ensures |p| > 0 ==> Join(r.0, r.1) == p
    ensures |p| == 0 ==> r.1 == ""
  {
    if |p| == 0 then ([], "") else (p[..|p| - 1], p[|p| - 1])
  }

  /** The text form of a path, with the POSIX separator; the root alone
      is "/". */
  function PathString(p: Path): string
  {
    if p == [""] then "/" else Strings.Join(p, "/")
  }

  predicate IsAbsolute(p: Path)
  {
    |p| > 0 && p[0] == ""
  }

  /** A name `normpath` keeps as it is: not empty, not "." and not "..". */
  predicate IsPlain(name: string)
  {
    name != "" && name != "." && name != ".."
  }

  /** The shape of a normalized relative path: plain names, preceded by
      the ".." that could not be resolved. */
  predicate IsResolved(s: seq<string>)
  {
    (forall i :: 0 <= i < |s| ==> s[i] == ".." || IsPlain(s[i]))
    && forall i, j :: 0 <= i < j < |s| && s[j] == ".." ==> s[i] == ".."
  }

  /** The component loop of `posixpath.normpath`: empty names and "." are
      dropped; ".." removes the previous name, is dropped at the root of an
      absolute path, and is kept when there is nothing it can remove. */
  function Resolve(stack: seq<string>, segs: seq<string>, absolute: bool): (r: seq<string>)
    requires IsResolved(stack)
    requires absolute ==> forall i :: 0 <= i < |stack| ==> IsPlain(stack[i])
    ensures IsResolved(r)
    ensures absolute ==> forall i :: 0 <= i < |r| ==> IsPlain(r[i])
    decreases |segs|
  {
    if |segs| == 0 then stack
    else
      var seg := segs[0];
      var next :=
        if seg == "" || seg == "." then stack
        else if seg == ".." && |stack| > 0 && stack[|stack| - 1] != ".." then stack[..|stack| - 1]
        else if seg == ".." && absolute then stack
        else stack + [seg];
      Resolve(next, segs[1..], absolute)
  }

  /** `os.path.normpath`; a relative path that resolves to nothing is ".".
      A leading double slash, which POSIX lets an implementation keep, is
      treated as a single one. */
  function NormPath(p: Path): (r: Path)
    ensures IsAbsolute(p) <==> IsAbsolute(r)
    ensures IsAbsolute(p) ==> forall i :: 1 <= i < |r| ==> IsPlain(r[i])
    ensures !IsAbsolute(p) ==> r == ["."] || IsResolved(r)
  {
    if IsAbsolute(p) then [""] + Resolve([], p[1..], true)
    else
      var r := Resolve([], p, false);
      if r == [] then ["."] else r
  }

  /** `os.path.abspath` against the working directory `cwd`. */
  function AbsPath(cwd: Path, p: Path): Path
  {
    if IsAbsolute(p) then NormPath(p) else NormPath(cwd + p)
  }

  /** Names that are already resolved come out as they went in. */
  lemma {:induction false} ResolveResolved(stack: seq<string>, segs: seq<string>, absolute: bool)
    requires IsResolved(stack) && IsResolved(stack + segs) && "" !in segs && "." !in segs
    requires absolute ==> forall i :: 0 <= i < |stack + segs| ==> IsPlain((stack + segs)[i])
    requires absolute ==> forall i :: 0 <= i < |stack| ==> IsPlain(stack[i])
    ensures Resolve(stack, segs, absolute) == stack + segs
    decreases |segs|
  {
    var all := stack + segs;
    assert forall i :: 0 <= i < |stack| ==> stack[i] == all[i];
    if |segs| > 0 {
      var seg := segs[0];
      assert seg == all[|stack|];
      if seg == ".." {
        assert forall i :: 0 <= i < |stack| ==> stack[i] == "..";
        assert !absolute;
      }
      assert (stack + [seg]) + segs[1..] == all;
      var next := stack + [seg];
      assert forall i :: 0 <= i < |next| ==> next[i] == all[i];
      ResolveResolved(stack + [seg], segs[1..], absolute);
    }
  }

  /** `normpath` is idempotent. */
  lemma NormPathIdempotent(p: Path)
    ensures NormPath(NormPath(p)) == NormPath(p)
  {
    var r := NormPath(p);
    if IsAbsolute(p) {
      var tail := r[1..];
      assert [] + tail == tail;
      ResolveResolved([], tail, true);
    } else if r == ["."] {
      assert Resolve([], ["."], false) == Resolve([], [], false);
    } else {
      assert [] + r == r;
      ResolveResolved([], r, false);
    }
  }

  /** A relative path of plain names below a normalized working directory
      is the working directory followed by those names. */
  lemma AbsPathBelow(cwd: Path, p: Path)
    requires IsAbsolute(cwd) && forall i :: 1 <= i < |cwd| ==> IsPlain(cwd[i])
    requires forall i :: 0 <= i < |p| ==> IsPlain(p[i])
    ensures AbsPath(cwd, p) == cwd + p
  {
    if |p| > 0 {
      assert p[0] != "";
    }
    var full := cwd + p;
    assert full[0] == "";
    var tail := full[1..];
    assert forall i :: 0 <= i < |tail| ==> tail[i] == full[i + 1];
    assert [] + tail == tail;
    ResolveResolved([], tail, true);
  }

  /** The entries of the tree strictly deeper than `p`: a walk that only
      descends into directories of the tree shrinks this set at every step. */
  function Deeper(fs: Tree, p: Path): set<Path>
  {
    set q | q in fs && |q| > |p|
  }

  lemma DeeperShrinks(fs: Tree, p: Path, name: string)
    requires Join(p, name) in fs
    ensures Deeper(fs, Join(p, name)) < Deeper(fs, p)
  {
    var c := Join(p, name);
    assert c in Deeper(fs, p);
    assert c !in Deeper(fs, c);
  }
}
