# distcovery in Dafny

A Dafny model of the test-discovery core of `distcovery`. `distcovery` is a
distutils `test` command that finds the test modules of a project and runs
them. The model covers five parts.

- **The test discovery tree** of `distcovery/path.py` (module `PathTree`).
  Directory entries are classified by two anchored name patterns:
  - a *test package* is `test_<token>`: a directory holding `__init__.py`;
  - a *test module* is `test_<token>.py`: a regular file.

  `Importable` records a segment sequence for its alias (prefix stripped)
  and one for its name (prefix kept). `Package` is a class whose `Walk`
  method fills `modules`, `packages` and a flattened `content` map keyed
  by dotted alias. `Walk` also returns the `(alias, child)` pairs that
  Python's generator yields. `Enumerate` gives the ordered report listing.
  `SplitPath` finds the base prefix between the working directory and
  the test root, or fails with `InvalidTestRoot`.
- **The earlier flat discoverers.**
  - `distcovery/test.py` (module `FlatTest`): `_walk_path` as the
    recursive function `WalkNames`, the list-based `_split_path` loop,
    `_walk`, `validate_modules`, and the comma selector of `run`.
  - `distcovery.py` (module `Distcovery`): `collect_modules`, whose walk
    requires `__init__.py` at every level, the root included.
- **`RandomUniqueNames`** of `distcovery/importer.py` (module `Importer`),
  as a class. Its set of issued names is a field, `New` is a bounded
  retry loop, and it has an exhaustion error. The random source is a
  sequence of draws supplied by the caller, each in `[0, 10^length)`.
- **Error messages** of `distcovery/exceptions.py` (module `Exceptions`):
  `stringify_list` and the message templates.
- **An abstract filesystem** (module `FileSystem`), taken from the mock in
  `test/utils.py`:
  - a map from a path to a file, or to a directory with its list of names;
  - `listdir` fails with `ENOENT` on a missing path and with `ENOTDIR` on
    a file;
  - paths are sequences of segments, and an absolute path starts with
    the empty segment;
  - `os.path.abspath` is modelled by a POSIX `normpath` of the working
    directory joined with the path.

`Naming` holds the two name patterns, which all three discoverers share.
`Strings` holds `'.'.join`, `str.split` and `str.strip`. `Dict` holds
`dict(pairs)`, where the last pair with a key wins. `Wrappers` holds
`Option`, `Result` and `Outcome`.

Raised exceptions become `Failure` results. The error datatype
`Exceptions.Error` has one constructor per exception class, plus `Os`
for an `OSError` from `listdir`.

## Model

| member | source | states |
|---|---|---|
| Naming.IsModule | distcovery/path.py:20-21 | definition of `_is_module`: a regular file; `Classify` and `WalkStep` use it |
| Naming.IsPackage | distcovery/path.py:16-18 | definition of `_is_package`: a directory holding `__init__.py` as a file; `Classify` and `WalkStep` use it |
| Naming.IsToken | distcovery/path.py:7 | definition of `[a-zA-Z0-9_]+`; `MatchPackageOf` and `MatchModuleOf` state which names the patterns accept in its terms |
| Naming.MatchPackage | distcovery/path.py:6-13 | a package-pattern match captures the whole name and a token alias, with the name equal to `test_` followed by the alias |
| Naming.MatchModule | distcovery/path.py:6-14 | a module-pattern match captures a `test_<token>` name that excludes the trailing `.py`, and the alias is the token |
| Naming.MatchPackageOf | distcovery/path.py:13 | `test_`+t matches the package pattern exactly when t is a non-empty run of `[A-Za-z0-9_]`; the captures are then (`test_`+t, t) |
| Naming.MatchModuleOf | distcovery/path.py:14 | `test_`+t+`.py` matches the module pattern exactly when t is a token; the captures are then (`test_`+t, t) |
| Naming.PatternsExclusive | distcovery/path.py:61-71 | no name matches both patterns, so a module is only tried when the package pattern fails |
| Naming.SubItem | distcovery/test.py:26-28 | extends the alias with the token and the name with `test_`+token, by one segment each; it keeps the two sequences segment-wise paired |
| Naming.WellNamedDotFree | distcovery/test.py:23-28 | no segment of a paired alias or name holds a dot, so the dotted forms can be split back |
| Strings.Dotted | distcovery/path.py:36-37 | definition of `'.'.join` (also `_make_name` and `import_string`); `DottedInjective` states that it is injective on dot-free segments |
| Strings.Join | distcovery/path.py:36-37 | definition of `sep.join`; `JoinAppend`, `SplitJoin` and `JoinSplit` characterise it |
| Strings.JoinAppend | distcovery/path.py:36-37 | joining a+b puts exactly one separator between the joins of a and of b |
| Strings.DottedInjective | distcovery/path.py:36-43 | two non-empty dot-free segment sequences with the same dotted form are equal |
| Strings.SplitOn | distcovery/test.py:118 | `split(',')` gives at least one piece, and no piece holds the separator |
| Strings.SplitJoin | distcovery/test.py:118 | splitting the join of separator-free pieces gives the pieces back |
| Strings.JoinSplit | distcovery/test.py:118 | joining the pieces of a split with the separator gives the string back |
| Strings.LStrip | distcovery/test.py:118 | drops exactly the leading run of whitespace |
| Strings.RStrip | distcovery/test.py:118 | drops exactly the trailing run of whitespace |
| Strings.StripBounds | distcovery/test.py:118 | `strip()` keeps a slice with only whitespace before and after it, and that slice neither starts nor ends with whitespace |
| Strings.Strip | distcovery/test.py:118 | the result has no whitespace at either end |
| Strings.StripKeeps | distcovery/test.py:118 | stripping an already stripped string changes nothing |
| FileSystem.AbsPath | distcovery/path.py:105 | definition of `abspath` as `normpath` of an absolute path or of the working directory joined with a relative one; `AbsPathBelow` and `WalkBaseBelow` state its value below the working directory |
| FileSystem.IsDir | test/utils.py:27-33 | definition: the path maps to a directory; `ListDir` succeeds exactly on these |
| FileSystem.IsFile | test/utils.py:19-25 | definition: the path maps to a file; `ListDir` states `ENOTDIR` exactly for these |
| FileSystem.ListDir | test/utils.py:8-17 | succeeds exactly on directories and returns their names; otherwise it names the path with `ENOTDIR` exactly for a file and `ENOENT` for a missing path |
| FileSystem.Join | distcovery/path.py:55 | definition of `os.path.join`: the path extended by one name; `Split` takes the result apart again |
| FileSystem.Split | distcovery/path.py:96 | joining head and name gives back a non-empty path; once nothing is left, the name is empty |
| FileSystem.Resolve | distcovery/path.py:105 | the result is plain names, preceded only by the `..` it could not resolve; an absolute path resolves to plain names only |
| FileSystem.NormPath | distcovery/path.py:105 | normalisation keeps a path absolute or relative; an absolute result has only plain names after the root |
| FileSystem.ResolveResolved | distcovery/path.py:105 | components that are already resolved pass through unchanged |
| FileSystem.NormPathIdempotent | distcovery/path.py:105 | normalising twice is the same as normalising once |
| FileSystem.AbsPathBelow | distcovery/path.py:105 | the absolute form of a path of plain names is the working directory followed by those names |
| Dict.FromPairs | distcovery/path.py:106 | definition of `dict(pairs)`; `FromPairsSnoc`, `FromPairsHas`, `FromPairsLast` and `FromPairsAppend` characterise it |
| Dict.FromPairsSnoc | distcovery/path.py:106 | `dict` of one more pair is the previous dict updated at that key |
| Dict.FromPairsHas | distcovery/path.py:106 | every key of the pair list is in the dict |
| Dict.FromPairsLast | distcovery/test.py:73-74 | each key of the dict comes from a pair, and its value is that of the last pair with that key |
| Dict.FromPairsAppend | distcovery/path.py:65-67 | `dict` of a concatenation is the first dict overridden by the second |
| PathTree.Scan | distcovery/path.py:57-80 | the walk loop as a fold over the listing, giving modules, packages and content as values. `ScanStep`, `ScanModules`, `ScanPackages`, `ScanKeys` and `ScanEntries` characterise it, and `Package.Walk` is proved against it |
| PathTree.Importable.StrName | distcovery/path.py:42-43 | definition: the dotted base followed by the name; `StrNameSplits` states its form |
| PathTree.Importable.StrAlias | distcovery/path.py:39-40 | definition: the dotted alias; `AliasDetermines` states that it determines alias and name among paired nodes |
| PathTree.NewImportable | distcovery/path.py:24-33 | base and path are kept; without a match or parent, alias and name are empty; otherwise each extends the parent's by the matched token or name, which keeps them paired |
| PathTree.AliasDetermines | distcovery/path.py:39-40 | two paired nodes with the same `str_alias` have the same alias and the same name |
| PathTree.StrNameSplits | distcovery/path.py:42-43 | `str_name` is the dotted base, a dot, and the dotted name |
| PathTree.Classify | distcovery/path.py:58-75 | an entry is a package child iff it matches the package pattern and is a directory holding `__init__.py`; it is a module child iff it fails the package pattern, matches the module pattern and is a file; each child is built from the parent node and the match |
| PathTree.ScanStep | distcovery/path.py:58-80 | one entry appends a module, or appends a package and merges its content, or changes nothing; the child's own alias is written last |
| PathTree.ScanModules | distcovery/path.py:70-75 | a node is among the modules iff some listed entry classifies as that module |
| PathTree.ScanPackages | distcovery/path.py:61-69 | a node is among the packages iff some listed entry classifies as that package |
| PathTree.ScanKeys | distcovery/path.py:57-80 | the content keys are the module aliases, plus each package's alias and its own content keys |
| PathTree.ScanEntries | distcovery/path.py:57-80 | every content entry comes from a direct child or, transitively, from the content of a child package |
| PathTree.Package.constructor | distcovery/path.py:45-51 | a new package has the node fields and empty modules, packages and content |
| PathTree.Package.Walk | distcovery/path.py:57-80 | `listdir` fails iff the path is not a directory, and then nothing changes; otherwise the package, its children and their content reflect the listing, and the yielded pairs turned into a dict equal `content` |
| PathTree.Package.Visit | distcovery/path.py:58-80 | one listed entry advances the state to the scan of one more entry, and keeps `dict(pairs) == content` |
| PathTree.Package.AddModule | distcovery/path.py:70-80 | a module child is appended to `modules` and written to `content` under its alias, and its pair is yielded |
| PathTree.Package.AddPackage | distcovery/path.py:62-80 | a walked package child is appended to `packages`, its content copied in, its own alias written last, and the pairs yielded in that order |
| PathTree.Package.CopyPairs | distcovery/path.py:65-67 | copying the child's pairs overrides `content` with the child's dict and yields those pairs; modules and packages stay as they were |
| PathTree.Package.Enumerate | distcovery/path.py:82-90 | the listing starts with one line per direct module at `level`; every line is at `level` or deeper; the lines at `level` are the modules followed by the package heads, in order; `EnumerateStarts` and `EnumerateNests` place each head |
| PathTree.Package.PackageHeads | distcovery/path.py:86-87 | one package line per remaining package, in `packages` order, with its alias |
| PathTree.Package.PackageLines | distcovery/path.py:86-90 | every package line is at `level` or deeper, and the lines at `level` are exactly the package heads, in order; `PackageLinesStarts` and `EnumerateNests` state where each head is and what follows it |
| PathTree.EnumerateNests | distcovery/path.py:82-90 | the k-th package head comes after the module lines and the heads of packages 0 to k-1. It is followed at once by that package's own `enumerate(level+1)`, whose lines are all deeper, and then by the end of the listing or the next line at `level`. So the block under each head is exactly its own package's listing |
| PathTree.ModuleLines | distcovery/path.py:83-84 | one module line per module, in order, at the given level |
| PathTree.ContentFlattened | distcovery/path.py:57-80 | after a walk, `content` holds the module aliases plus each package's alias and all of its content, over the whole subtree |
| PathTree.EnumerateStarts | distcovery/path.py:82-90 | with no package children the listing is exactly the module lines; otherwise the line right after the module lines is the head of the first package |
| PathTree.PackageLinesStarts | distcovery/path.py:86-90 | the package lines from the k-th package on are empty once no package is left, and otherwise start with the head of the k-th package |
| PathTree.PackageLinesBlock | distcovery/path.py:86-90 | within the package lines from the j-th package on, the k-th head is followed at once by that package's listing and then by the end or the next head; for k = j it is the first line |
| PathTree.EnumerateCoversContent | distcovery/path.py:82-90 | the aliases listed by `enumerate` are exactly the keys of `content` |
| PathTree.PackageLinesCover | distcovery/path.py:86-90 | the aliases listed for the packages are their aliases and their content keys |
| PathTree.BaseOf | distcovery/path.py:92-102 | on success, root followed by the base is the path, with no empty name; on failure, it is `InvalidTestRoot(path, root)` |
| PathTree.BaseOfBelow | distcovery/path.py:92-102 | a path below the root always gives the names after the root, and the empty base when they are equal |
| PathTree.NotBelow | distcovery/path.py:95-98 | meeting an empty name before reaching the root means the path is not below the root |
| PathTree.SplitPath | distcovery/path.py:92-102 | the `while` loop computes `BaseOf` |
| PathTree.Walk | distcovery/path.py:104-107 | fails with the `BaseOf` error when the path is outside the working directory, and with the `listdir` error when it is not a directory; otherwise it returns a walked root with empty alias and name and with base `BaseOf(abspath(path), cwd)` |
| PathTree.WalkBaseBelow | distcovery/path.py:104-105 | a relative path of plain names gets those names as its base |
| PathTree.WalkBaseAbove | distcovery/path.py:104-105 | `..` from `/w` is outside it, and the error names `/` and `/w` |
| FlatTest.ModuleMap | distcovery/test.py:70-74 | definition of `_walk`'s dict; `ModuleMapFound` and `ModuleMapKnown` characterise its keys and values |
| FlatTest.Qualify | distcovery/test.py:73 | definition: each alias paired with the base-qualified name; `QualifiedName` states the qualified form |
| FlatTest.Leaf | distcovery/test.py:43-56 | the independent description of a leaf module: a chain of test packages ending in a test module file; `WalkSound` and `WalkComplete` tie the walk to it |
| FlatTest.WalkNames | distcovery/test.py:43-56 | definition of `_walk_path`'s yields over one listing; `WalkStep` unfolds one entry, and `WalkSound` and `WalkComplete` characterise it against `Leaf` |
| FlatTest.WalkPath | distcovery/test.py:37-56 | succeeds iff the path is a directory, and otherwise carries the `listdir` error |
| FlatTest.WalkStep | distcovery/test.py:44-56 | per entry: recursion into a package-pattern name that passes `_is_package`; one pair for a module-pattern name that is a file; nothing otherwise |
| FlatTest.LeafTokens | distcovery/test.py:43-56 | every segment on the way to a leaf module is a token |
| FlatTest.WalkSound | distcovery/test.py:43-56 | every yielded pair is the (dotted alias, dotted name) of a leaf module reached through test packages |
| FlatTest.WalkComplete | distcovery/test.py:43-56 | every leaf module reached through test packages is yielded |
| FlatTest.SplitPath | distcovery/test.py:58-68 | the list-based loop has the same result as the tuple-based one in path.py |
| FlatTest.TestModules | distcovery/test.py:70-74 | on success, the map is the module map under base `BaseOf(abspath(root), cwd)`; a root outside the working directory or one that is not a directory gives its error |
| FlatTest.Walk | distcovery/test.py:70-74 | the method computes `TestModules` |
| FlatTest.QualifiedName | distcovery/test.py:73 | the value is exactly the dotted name when the base is empty, and otherwise the dotted base, a dot and the name |
| FlatTest.ModuleMapFound | distcovery/test.py:70-74 | each leaf module's dotted alias is a key, mapped to base + its dotted `test_` name |
| FlatTest.ModuleMapKnown | distcovery/test.py:70-74 | every key is the dotted alias of some leaf module |
| FlatTest.SameLeaf | distcovery/test.py:43-56 | two leaf modules with the same dotted alias are the same module |
| FlatTest.ValidateModules | distcovery/test.py:104-110 | an empty map fails with `NoTestModules(test_root)` whatever is requested; otherwise it passes iff every requested name is a key, and fails with exactly the non-empty set of unknown names |
| FlatTest.Selection | distcovery/test.py:118 | the selector gives at least one item, and each item is comma-free and stripped |
| FlatTest.SelectionOfJoin | distcovery/test.py:118 | a comma-join of comma-free stripped names is selected back as those names, in order |
| FlatTest.Test.constructor | distcovery/test.py:89-93 | the command starts with the given test root and selector and no modules |
| FlatTest.Test.CollectModules | distcovery/test.py:86-87 | stores the `_walk` map; a failing walk leaves the stored map unchanged |
| FlatTest.Test.Run | distcovery/test.py:112-123 | a failing walk is returned as the error and leaves the module map as it was; otherwise the map is the walk's result and, with no selector, it lists the discovered aliases; otherwise it splits and strips the selector, validates it, and runs each selected module's name in the order given |
| FlatTest.Test.RunSelected | distcovery/test.py:121-123 | the loop maps each selected alias to its module name, in order |
| Distcovery.DottedItems | distcovery.py:36-38 | definition of the list of dotted pairs; `DottedPairs` is proved against it |
| Distcovery.GatedNames | distcovery.py:17-34 | definition of the nested `walk`'s yields; `GatedIsFlat` equates it with test.py's walk |
| Distcovery.GatedWalk | distcovery.py:17-21 | a directory without `__init__.py` yields nothing and succeeds; with it, the walk succeeds exactly when the path is a directory, and otherwise carries the `listdir` error |
| Distcovery.GatedIsFlat | distcovery.py:17-34 | the gated walk, dotted, yields the same pairs as the flat walk of test.py over the same names |
| Distcovery.DottedItemsConcat | distcovery.py:36-38 | dotting the items of a concatenation is the concatenation of the dotted items |
| Distcovery.DottedPairs | distcovery.py:36-38 | the loop appends each item's dotted alias and dotted name, in order |
| Distcovery.Test.CollectModules | distcovery.py:10-40 | a root without `__init__.py` gives the empty map; a gated root gives the leaf-module map with no base prefix; a `listdir` error leaves the map unchanged |
| Distcovery.NoBase | distcovery.py:36-40 | the result is the flat module map with an empty base |
| Distcovery.CollectedLeaf | distcovery.py:36-40 | each leaf module maps its dotted alias to its dotted `test_` name, with no base prefix |
| Importer.Issue | distcovery/importer.py:16-27 | the result of `new` as a function of the issued set and the draws; `IssueFresh` and `IssueExhausted` state its properties, and `RandomUniqueNames.New` is proved against it |
| Importer.FormatName | distcovery/importer.py:10-14 | definition of `'X_%0<length>d' % draw`; `FormatNameReads` and `FormatNameOnto` characterise it |
| Importer.Digits | distcovery/importer.py:10 | `%0<length>d` gives exactly `length` decimal digits |
| Importer.ValueOfDigits | distcovery/importer.py:10 | zero-padded digits of a value below 10^width read back as that value |
| Importer.DigitsOfValue | distcovery/importer.py:10 | every string of digits is the zero-padded form of its value |
| Importer.ValueBound | distcovery/importer.py:9-10 | a string of n digits reads as a value below 10^n |
| Importer.FormatNameReads | distcovery/importer.py:13-14 | a name is `X_` followed by `length` digits that read back as the draw |
| Importer.FormatNameOnto | distcovery/importer.py:9-14 | every string of that shape is the name of exactly one draw below 10^length |
| Importer.NameSpaceHas | distcovery/importer.py:9-14 | the names of the first k draws are all in the space of k names |
| Importer.NameSpaceShape | distcovery/importer.py:9-14 | the space of k names holds only well-shaped names with values below k |
| Importer.NameSpaceFresh | distcovery/importer.py:9-14 | the name of draw k is not among those of the draws below k |
| Importer.NameSpaceSize | distcovery/importer.py:9-14 | there are exactly 10^length distinct names |
| Importer.IssuedBound | distcovery/importer.py:9-14 | any set of well-shaped names is part of the name space, so it has at most 10^length members |
| Importer.Exhausted | distcovery/importer.py:16-27 | once 10^length names are issued, every draw collides |
| Importer.FirstFresh | distcovery/importer.py:17-24 | the first draw whose name is not issued; all draws before it collide |
| Importer.FirstFreshUnique | distcovery/importer.py:17-24 | the index of the first fresh draw is unique |
| Importer.IssueFresh | distcovery/importer.py:16-27 | a name returned by `new` was not issued before and has the `X_<digits>` shape |
| Importer.IssueExhausted | distcovery/importer.py:16-27 | once every name is issued, `new` fails |
| Importer.RandomUniqueNames.constructor | distcovery/importer.py:6-11 | limit and length are kept when above 1 and clamped to 1 otherwise; factor is 10^length; no names are issued |
| Importer.RandomUniqueNames.RandomName | distcovery/importer.py:13-14 | the name of a draw is `X_` and `length` digits that read back as the draw |
| Importer.RandomUniqueNames.Attempt | distcovery/importer.py:17-24 | the retry loop stops at the first of at most `limit` draws whose name is not issued |
| Importer.RandomUniqueNames.New | distcovery/importer.py:16-27 | on success, adds exactly the returned fresh name to the issued set; `NoMoreAttempts(limit, length)` iff all `limit` draws collide, and then the issued set is unchanged |
| Exceptions.NoTestModulesMessage | distcovery/exceptions.py:15-17 | definition of the template; `NoTestModulesMessageInjective` states that it determines the path |
| Exceptions.InvalidTestRootMessage | distcovery/exceptions.py:7-8 | definition of the template; `InvalidTestRootMessageInjective` states that it determines both paths |
| Exceptions.StringifyList | distcovery/exceptions.py:31-38 | a single item is quoted, with no suffix; several items are quoted and comma-joined, with the last one after ` and `, and the suffix is `s` |
| Exceptions.QuotedJoin | distcovery/exceptions.py:36 | quote-comma-quote joining inside outer quotes is the comma-join of the quoted items |
| Exceptions.StringifyNamesEveryItem | distcovery/exceptions.py:31-38 | every item appears, quoted, in the rendered list |
| Exceptions.StringifyOne | distcovery/exceptions.py:33-38 | `["x"]` renders as `"x"` with no suffix |
| Exceptions.StringifyThree | distcovery/exceptions.py:35-36 | `[xxx, yyy, zzz]` renders as `"xxx", "yyy" and "zzz"` with suffix `s` |
| Exceptions.UnknownModulesMessage | distcovery/exceptions.py:23-29 | the message starts `Unknown module`, the next character is `s` iff there are several names, and it ends with `.` |
| Exceptions.InvalidTestRootMessageInjective | distcovery/exceptions.py:6-12 | the message determines the tests path and the current directory, in that order (for a tests path without quotes) |
| Exceptions.NoTestModulesMessageInjective | distcovery/exceptions.py:14-21 | the message determines the path it embeds |

## Left out

- `distcovery/coverage_wrapper.py`: it wraps the external `coverage` library and changes the global `sys.path`.
- distutils `Command` plumbing is not modelled: option handling, `set_undefined_options`, `log` output, and `unittest.main` with its verbosity. `run` is modelled as a `Report` of module names, either listed or run.
- Real OS calls are replaced by the filesystem map. The working directory is a parameter. A path is a sequence of segments, and `PathString` joins them with `/` for messages.
- `FileSystem.NormPath`: POSIX keeps a leading `//` as its own root; this model treats it like `/`.
- `random.random()*factor` and its floating point are replaced by draws the caller supplies in `[0, 10^length)`.
- In Python's regexes, `$` also matches before a trailing newline. The patterns are modelled as exact full matches over `[A-Za-z0-9_]`.
- `listdir` order, set order and dict order are unspecified in Python. `content` and `test_modules` are maps, and the unknown-module report carries a set. `test/test_test.py:122-129` assumes an order that the set difference at `distcovery/test.py:108` does not guarantee.
- `NoMoreAttempts` is imported at `distcovery/importer.py:3` but `distcovery/exceptions.py` does not define it. Here it is an error constructor carrying `(limit, length)`, with no message template.
- The synthetic module importer (module creation with `exec`, `sys.modules`) is not part of this model; of `distcovery/importer.py`, only `RandomUniqueNames` is modelled.
- `distcovery.py` never sets `test_root` in the code shown, so `Distcovery.Test` takes it as a constructor argument. `distcovery/test.py` sets it to `'test'` in `initialize_options`, and `FlatTest.Test` takes it as a constructor argument too.
- A raised `OSError` or `InvalidTestRoot` is modelled as a returned error. Where Python would stop in the middle of a generator, the model makes no assignment to the command's map, as in the source.
- `Package.listdir` (distcovery/path.py:53-55) is folded into `Walk`, which joins each name onto the path itself.
- PathTree.StrNameSplits: the concrete example `('test','base')` with `test_package.test_module` is not restated; the general form is proved instead.
- Exceptions.UnknownModulesMessage: the contract states the head, the plural suffix and the final period, not the whole template text. `StringifyList` states the rendered list exactly.
- Exceptions.InvalidTestRootMessageInjective: proved only for a tests path without a double quote, since a quote in that path makes the message ambiguous.
- Strings.Strip: the contract states that the result is stripped; `StripBounds` states which slice is kept.
- Python 2 `str.strip()` is modelled with ASCII whitespace only: space, tab, newline, vertical tab, form feed and carriage return.
