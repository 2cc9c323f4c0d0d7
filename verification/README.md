# import-analyzer, modelled in Dafny

`import-analyzer.py` walks a Python project, records what every file imports and which
attributes it reads off imported modules, and then tells each project module which names
its `__all__` is missing. This project models that pipeline as pure functions over
immutable data, and proves what each stage promises:

- **Visitor** (`visitor.dfy`): the statement/expression dispatch `handleStatement` /
  `handleAttribute` over a closed `Node` datatype (one constructor per syntax kind the
  dispatch names, plus `Missing` for `None` and `Unknown` for everything else). It yields
  the file's events in order: import statements and `name.attr` candidate accesses.
- **Resolver** (`resolver.dfy`, `paths.dfy`, `strings.dfy`): `moduleFilePath`. It turns a
  dotted reference plus the referencing directory into a root-relative `.py` path or
  nothing. `os.path.join`, `os.path.split` and `str.split` are modelled exactly.
- **Alias table** (`imports.dfy`): `handleImport` / `handleImportFrom`. Local names are
  bound last-write-wins, and the project-wide imported names and imported-from sets grow.
- **Attribution** (`attribution.dfy`): candidate accesses go through the file's alias
  table to the qualified name and path they really refer to.
- **Exports** (`exports.dfy`): `find__all__`.
- **Reconciliation** (`ordering.dfy`, `reconcile.dfy`): builds the modules to check, groups
  attributes by path, visits the modules in sorted `(module, path)` order and decides
  whether each one is reported.
- **Driver** (`analyzer.dfy`, `rootdir.dfy`): the walk over files, the abort conditions,
  and root discovery.
- **Scenarios** (`scenarios.dfy`): small concrete projects.

The file system is a value: a set of directories plus a map from absolute file path to
the parsed module body, where `None` means the text does not parse. Other inputs are
parameters of `Resolver.Env`:

- the standard-library module names;
- the configured excluded top-level names;
- the configured exclusion patterns, as a predicate on paths;
- the results of the `__import__` probe, as a map from top-level name to `__file__`.

The directory walk is a sequence of `Analyzer.WalkDir` values.

Notable behaviours of the code:

- `import a.b` binds the local name `a.b` (the whole dotted name), not `a`
  (import-analyzer.py:163-168).
- Imported-from names are grouped per (module spelling, resolved path) pair. The
  reconciler visits such pairs, so one file reached under two module names is checked
  twice, each time with its own imported-from names and the attributes of the whole path
  (lines 183-190, 372-419).
- The names to add are an unordered set, not a sorted list (line 424).
- The first top-level assignment whose first target is `__all__` decides. A later one is
  ignored rather than flagged (lines 116-130). Its value must be a list literal and it
  must have a single target; otherwise the run ends (an uncaught `AssertionError`).
- The declared set holds `elem.value` for every element of the list. A constant gives its
  value. Another element with a `value` field, such as `*base.__all__` or a dict
  comprehension, gives that sub-node, which never equals a used name. An element without one, such as a bare name, ends the
  run (line 129).
- A declaration counts as existing when its set of names is non-empty. `__all__ = []`
  therefore gets the "create" message `__all__ = [...]` (line 426).
- Root discovery keeps the outermost directory holding a `pyproject.toml`, not the
  nearest one: each hit overwrites the previous one while the loop moves upward
  (lines 40-43).
- A listed file that cannot be opened ends the run, in both passes, as does a missing
  root `pyproject.toml`. The reconciler opens a module before its exclusion checks
  (lines 398-405).

## Model

| member | source | states |
|---|---|---|
| Strings.SplitOn | import-analyzer.py:84 | `str.split` on one character: at least one piece, no piece contains the separator, and joining the pieces with it gives back the string |
| Strings.SplitJoinIsReplace | import-analyzer.py:84-105 | splitting on '.' and joining with '/' is replacing every '.' by '/' |
| Paths.Join | import-analyzer.py:105-106 | `os.path.join` on two strings; what it produces is stated by `Paths.JoinShape` |
| Paths.JoinShape | import-analyzer.py:105-106 | the join ends in its second argument; an absolute second argument replaces the first; otherwise the first is kept in front, with one '/' put between exactly when it is non-empty and lacks a trailing '/' |
| Paths.JoinAll | import-analyzer.py:105 | `os.path.join(*parts)`: the pieces joined left to right; stated by `Paths.JoinAllShape` and `Paths.JoinFoldPlain` |
| Paths.JoinAllShape | import-analyzer.py:105 | joining one part gives that part; joining several ends in the last |
| Paths.Split | import-analyzer.py:93 | `os.path.split`; what it produces is stated by `Paths.SplitShape`, and `Paths.JoinSplit` is its inverse |
| Paths.SplitShape | import-analyzer.py:93 | the tail is everything after the last '/' (the whole path when it has none); the head is the part before the tail, either kept whole when it is all slashes or with its trailing slashes stripped, so it never ends in '/' otherwise |
| Paths.SplitDetermined | import-analyzer.py:93 | those properties pin the split: any head and tail that have them are `os.path.split`'s |
| Paths.JoinSplit | import-analyzer.py:93 | `os.path.join(*os.path.split(d))` gives back any directory without `//` |
| Paths.JoinFoldPlain | import-analyzer.py:105 | joining plain segments onto a clean directory glues them with single slashes |
| Paths.JoinAllPair | import-analyzer.py:93 | joining a list that starts with two pieces folds the rest onto their join |
| Paths.JoinAppend | import-analyzer.py:106-110 | appending `.py` commutes with joining under the root, so `isfile(join(root, p) + ".py")` tests `join(root, p + ".py")` |
| Visitor.Visit | import-analyzer.py:212-332 | the dispatch itself; what it records is stated by `Visitor.VisitDecomposes` and `Visitor.EventOrigin` |
| Visitor.TopLevelEvents | import-analyzer.py:341-350 | the top-level loop; `Visitor.TopLevelMatchesDispatch` states that it records what the dispatch records |
| Visitor.VisitDecomposes | import-analyzer.py:212-332 | on every node kind the dispatch records the node's own event, then the events of exactly the children it enters, in source order |
| Visitor.EventOrigin | import-analyzer.py:212-332 | every recorded event comes from the node itself or from a child the dispatch enters |
| Visitor.TopLevelMatchesDispatch | import-analyzer.py:341-350 | the top-level loop's direct import handling records the same events as sending every statement through the dispatch |
| Visitor.AttributeOfNameRecorded | import-analyzer.py:212-215 | `name.attr` records exactly `(name, attr)` and nothing from inside |
| Visitor.AttributeOfOtherVisitsBase | import-analyzer.py:216 | an attribute of any other base records nothing itself; its base is visited instead |
| Visitor.AttributeChainRecordsHead | import-analyzer.py:212-216 | `a.b.c` records only `(a, b)` |
| Visitor.CallChainRecordsHead | import-analyzer.py:212-216 | `a.b().c` records only `(a, b)` |
| Visitor.UnvisitedElseBranch | import-analyzer.py:296-297 | the `else` branch of an `if` statement contributes nothing |
| Visitor.UnvisitedCallArguments | import-analyzer.py:294-295 | call arguments contribute nothing; a call records what its function expression records |
| Visitor.UnvisitedAssignTargets | import-analyzer.py:248-249 | assignment targets contribute nothing; an assignment records what its value records |
| Visitor.PassThroughSilent | import-analyzer.py:227-247 | `None`, bare names and the pass-through kinds record nothing |
| Visitor.UnvisitedDict | import-analyzer.py:306-308 | dict literals contribute nothing, whatever they contain |
| Visitor.UnvisitedUnknown | import-analyzer.py:331-332 | node kinds the dispatch does not name contribute nothing, whatever they contain |
| Visitor.ListCompVisitsGenerators | import-analyzer.py:309-313 | a list comprehension contributes only its generator clauses |
| Visitor.SetCompVisitsGenerators | import-analyzer.py:309-313 | a set comprehension contributes only its generator clauses |
| Visitor.GeneratorExpVisitsGenerators | import-analyzer.py:309-313 | a generator expression contributes only its generator clauses |
| Visitor.DictCompVisitsGenerators | import-analyzer.py:309-313 | a dict comprehension contributes only its generator clauses, neither key nor value |
| Resolver.Locate | import-analyzer.py:105-113 | a path is found exactly when the joined stem is not a directory and `stem.py` exists; it is then `stem.py`, which exists under the root |
| Resolver.Lookup | import-analyzer.py:92-110 | a non-sibling reference to a package installed under site-packages resolves to nothing; anything resolved ends in `.py`, exists under the root, and its stem is not a directory |
| Resolver.Resolve | import-analyzer.py:74-113 | empty, standard-library, excluded and installed-elsewhere references resolve to nothing; a resolved path ends in `.py`, exists under the root, and its stem is not a directory |
| Resolver.SiblingLookup | import-analyzer.py:92-93 | a sibling reference is looked up by joining the split halves of the file's directory with the dotted components |
| Resolver.SiblingStem | import-analyzer.py:93 | that joined path is the file's directory followed by the slashed reference |
| Resolver.ResolveSibling | import-analyzer.py:92-93 | a reference whose first component sits next to the file resolves to `dir/a/b.py` inside the file's directory, when that is a module file |
| Resolver.ResolveFromRoot | import-analyzer.py:94-110 | a reference that is neither a sibling nor installed elsewhere resolves to `a/b.py` under the root, when that is a module file |
| Imports.HandleImport | import-analyzer.py:155-169 | `import` never touches the imported-from table; its other effects are stated by `Imports.ImportBoundAliases` and `Imports.ImportLastClauseWins` |
| Imports.OverwriteLastWins | import-analyzer.py:163-168 | after a sequence of dict writes, a key holds the value of its last write |
| Imports.OverwriteOrigin | import-analyzer.py:163-168 | after a sequence of dict writes, every value is an untouched old value or one of the written ones |
| Imports.ImportBoundAliases | import-analyzer.py:155-169 | `import` binds exactly its clauses' local names, leaves other bindings alone, and adds every full dotted name to the imported set |
| Imports.ImportLastClauseWins | import-analyzer.py:155-169 | a local name is bound to the full name and resolution of the last clause binding it |
| Imports.AliasTransparent | import-analyzer.py:163-168 | `import X as Y` binds `Y` to exactly what `import X` binds `X` to |
| Imports.HandleImportFrom | import-analyzer.py:171-190 | a module-less import changes nothing; otherwise the (module, resolution) entry exists afterwards and the imported set is unchanged |
| Imports.FromImportEntry | import-analyzer.py:183-210 | the module's entry gains exactly the non-empty clause names, other entries are unchanged |
| Imports.FromImportBoundAliases | import-analyzer.py:191-209 | `from m import ...` binds exactly the local names of its non-empty clauses and leaves other bindings alone |
| Imports.FromImportLastClauseWins | import-analyzer.py:191-209 | a local name is bound to `m.name` and that qualified name's resolution, from the last clause binding it |
| Imports.ApplyEvents | import-analyzer.py:341-350 | replaying a file's events through the two handlers in order; attribute accesses alone leave the tables unchanged |
| Imports.ApplyEventsGrows | import-analyzer.py:155-210 | replaying events never removes an imported name, an imported-from entry or a name recorded in one |
| Imports.ApplyEventsFrom | import-analyzer.py:155-210 | everything a file's events leave in the project-wide tables was there before or is recorded when the same events are replayed from empty tables |
| Imports.ApplyEventsWithin | import-analyzer.py:150-210 | the alias table a file ends with does not depend on the project-wide tables it starts from, and starting from more facts ends with more |
| Attribution.AttributeAccesses | import-analyzer.py:352-362 | an access is attributed exactly when some recorded `base.attr` has a base other than `self`/`msg` that the alias table binds, and it carries that binding's qualified name and path |
| Exports.ElementValues | import-analyzer.py:129 | `elem.value` over the list succeeds exactly when every element has a `value` field; a constant gives its value, a string entry comes only from a string constant, and sub-node entries are pairwise distinct |
| Exports.Declaration | import-analyzer.py:126-129 | a found declaration is read exactly when it has one target and a list whose every element has a `value` field; constants give their values in place, and only they give strings |
| Exports.DictCompElementKept | import-analyzer.py:129 | a dict comprehension in `__all__` contributes its `value` sub-node, and the string after it is still declared |
| Exports.FindExports | import-analyzer.py:116-130 | nothing is found exactly when no top-level assignment's first target is `__all__` |
| Exports.FirstStopDecides | import-analyzer.py:120-128 | the first top-level assignment whose first target is `__all__` decides the outcome; later ones are never read |
| Ordering.LeastExists | import-analyzer.py:396 | every non-empty finite set of (module, path) keys has a least element in tuple order |
| Ordering.SortedKeys | import-analyzer.py:396 | `sorted` yields every key exactly once, in strictly increasing tuple order |
| Reconcile.ModulesToCheck | import-analyzer.py:372-382 | a pair is checked exactly when its path is resolved and it was imported from, or an attribute was accessed on it |
| Reconcile.AttrsByPath | import-analyzer.py:385-393 | the attributes accessed on a path, whatever module name it was reached by; its membership is stated by `Reconcile.Observed` |
| Reconcile.Observed | import-analyzer.py:412-419 | the used names are the names imported from this (module, path) pair plus every attribute accessed on the path |
| Reconcile.Decide | import-analyzer.py:412-433 | a module is reported exactly when a used name other than `*` is not declared; the report lists exactly those names and says "extend" exactly when the declaration is non-empty |
| Reconcile.DecideAsWritten | import-analyzer.py:412-424 | the size comparison as written: a report lists exactly the undeclared used names other than `*`, with "extend" exactly when the declaration is non-empty; without `*` declared it stays silent exactly when no name is missing, with `*` declared exactly when one name is missing |
| Reconcile.AsWrittenCount | import-analyzer.py:420-422 | the size of the union with `*` removed is the declaration's size, less one if `*` is declared, plus the number of missing names |
| Reconcile.DecideAgreesWithoutWildcard | import-analyzer.py:420-424 | when `*` is not declared, the size comparison as written decides exactly as intended |
| Reconcile.WildcardHidesName | import-analyzer.py:420-423 | with `*` declared, a used undeclared name goes unreported by the code as written |
| Reconcile.WildcardReportsNothing | import-analyzer.py:420-433 | with `*` declared and nothing used, the code as written reports an empty addition |
| Reconcile.DecideMonotone | import-analyzer.py:412-424 | using more names never removes a name from a module's report |
| Reconcile.SameSizeSubset | import-analyzer.py:422 | a subset with the same size as its superset is that superset |
| Reconcile.CheckBody | import-analyzer.py:411-433 | an unreadable `__all__` aborts; otherwise the report exists exactly when a name is missing, and carries the key, the extend flag and exactly the missing names |
| Reconcile.CheckBodyAsWritten | import-analyzer.py:411-433 | the module check as written: the same abort on an unreadable `__all__`; a report lists exactly the missing names; a module declaring `*` goes unreported exactly when one name is missing, any other exactly when none is |
| Reconcile.CheckBodyAgreesWithoutWildcard | import-analyzer.py:411-433 | unless the module declares `*`, the check as written and the intended check give the same result |
| Reconcile.WildcardModuleUnreported | import-analyzer.py:420-423 | a module declaring `__all__ = ["*"]` from which `x` is imported goes unreported as written, and is reported with `x` by the intended check |
| Reconcile.CheckModule | import-analyzer.py:396-410 | a missing file aborts; any result other than a skip means the path is not excluded, its top directory is not excluded and the text parsed; the converse is `Reconcile.CheckReadsBody` |
| Reconcile.CheckReadsBody | import-analyzer.py:398-410 | a module that exists, parsed, and whose path and top directory are not excluded is checked on its body |
| Reconcile.CollectSorted | import-analyzer.py:396 | collecting the checks of sorted keys yields reports in strictly increasing key order |
| Reconcile.ReconcileProject | import-analyzer.py:396-433 | the reports come out in strictly increasing (module, path) order |
| Reconcile.ReconcileReports | import-analyzer.py:396-433 | a completed pass reports exactly the modules to check whose own check reports |
| Reconcile.ReconcileCompletes | import-analyzer.py:396-410 | the pass completes exactly when no module's check aborts |
| Reconcile.ReconcileFirstAbort | import-analyzer.py:396-410 | a failed pass stops at a module whose check aborts, all of whose predecessors in sorted order succeed |
| Reconcile.NoMissingModule | import-analyzer.py:396-410 | when every recorded path exists, the pass never fails on opening a module; its only abort is an unreadable `__all__` |
| Analyzer.DirContext | import-analyzer.py:134 | the file context is the walked directory with the root prefix removed, plus its listing |
| Analyzer.Analysed | import-analyzer.py:137-147 | which walked files the first pass reads: `.py` names whose absolute and root-relative paths both escape the exclusion patterns; used by `Analyzer.ScanFilesAbort` and `Analyzer.ScanWalkAbort` |
| Analyzer.ScanFile | import-analyzer.py:150-362 | analysing a file never removes imported names or accesses |
| Analyzer.ScanFiles | import-analyzer.py:136-149 | the files of one directory: imported names and accesses only grow, and a directory with no analysed file changes nothing; what each file adds is stated by `Analyzer.ScanFilesIncludesFile`, and that nothing else is added by `Analyzer.ScanFilesSound` |
| Analyzer.ScanWalk | import-analyzer.py:133-149 | the whole first pass: imported names and accesses only grow; what each file adds is stated by `Analyzer.ScanWalkIncludesFile`, and that nothing else is added by `Analyzer.ScanWalkSound` |
| Analyzer.ScanFileWithin | import-analyzer.py:150-362 | analysing a file keeps every earlier fact and adds at least what the file records when analysed on its own |
| Analyzer.ScanFilesGrows | import-analyzer.py:136-149 | a completed pass over a directory keeps every earlier fact, imported-from entries included |
| Analyzer.ScanFilesIncludesFile | import-analyzer.py:136-149 | a completed pass over a directory holds the imported names, imported-from entries and accesses of each analysed file it lists that parses |
| Analyzer.ScanWalkGrows | import-analyzer.py:133-149 | a completed first pass keeps every earlier fact |
| Analyzer.ScanWalkIncludesFile | import-analyzer.py:133-149 | a completed first pass holds the facts of every walked, analysed file that parses, each analysed in its own directory's context |
| Analyzer.ScanFileSound | import-analyzer.py:150-362 | analysing a file adds nothing beyond what the same file records when analysed on its own |
| Analyzer.ScanFilesSound | import-analyzer.py:136-149 | every imported name, imported-from entry and name, and access of a completed pass over a directory was there before or is recorded by one of the listed files on its own (an analysed, parsed file; the others record nothing) |
| Analyzer.ScanWalkSound | import-analyzer.py:133-149 | every fact of a completed first pass was there before or is recorded by one walked file on its own |
| Analyzer.WalkFactsOrigin | import-analyzer.py:133-136 | each part the first pass draws its facts from is one walked file's own facts |
| Analyzer.Analyze | import-analyzer.py:48-433 | a missing root manifest ends the run with that abort; a completed run reports in strictly increasing (module, path) order |
| Analyzer.ScanFileLocated | import-analyzer.py:155-210 | every path a file's analysis records exists under the root |
| Analyzer.ScanWalkLocated | import-analyzer.py:133-149 | every path the first pass records exists under the root |
| Analyzer.ScanFilesAbort | import-analyzer.py:136-149 | the first pass over a directory aborts only on a listed, analysed `.py` file that does not exist |
| Analyzer.ScanWalkAbort | import-analyzer.py:133-149 | the first pass aborts only on a walked, analysed file that does not exist |
| Analyzer.AnalyzeAborts | import-analyzer.py:48-49 | among the causes the model has, a run ends early only for a missing root manifest, a walked file that does not exist, or an unreadable `__all__`; never on opening a checked module (configuration errors are not modelled) |
| Scenarios.AliasedFromImportAttributed | import-analyzer.py:171-210 | after `from a import b as c`, `c.d` in the same file is attributed to `a.b` and its resolution |
| Scenarios.CreateDeclaration | import-analyzer.py:171-433 | analysing `app/b.py` holding `from pkg.a import helper` resolves `pkg.a` to `pkg/a.py` and records `helper` under that key; the check of `pkg/a.py`, which has no `__all__`, proposes creating `__all__` with `helper` |
| Scenarios.ExtendDeclaration | import-analyzer.py:155-429 | analysing `app/b.py` holding `import m` and `m.y` attributes `y` to `m` and `m.py`; the check of `m.py`, which declares `__all__ = ["x"]`, proposes adding `y` |
| RootDir.WithSlash | import-analyzer.py:44-45 | the root always ends in '/', and only a missing slash is added |
| RootDir.DiscoverRoot | import-analyzer.py:38-45 | the root is the candidate with the fewest components that holds `pyproject.toml`, or the scan directory when none does |
| RootDir.CandidateSpelling | import-analyzer.py:41 | the candidate for `count` components spells the first `count` components joined by '/' |
| RootDir.CandidateIsAncestor | import-analyzer.py:39-41 | every candidate is the scan directory or one of its ancestors |

## Left out

- Command-line parsing, loading `pyproject.toml` with `tomllib`, compiling the exclusion
  regular expressions, and writing output. The configuration values become parameters.
  The exclusion test is a predicate on paths. Reports are values: module, path, extend
  flag and names. The printed text is not modelled. Loading the configuration can
  also end the run, and the model has none of these aborts: a malformed
  `pyproject.toml` (line 49), a `tool` or `import-analyzer` entry that is not a table
  (lines 50-51), an `exclude` or `exclude_toplevel_module` value that cannot be iterated
  (lines 53-54), and an `exclude` pattern that is not a string or does not compile
  (line 53).
- Diagnostic messages: unresolved references, parse failures and failed `__import__`
  calls go to standard error, and unknown node kinds to standard output, mixed with the
  reports (line 332). None of them affects a result.
- Text that is not valid in the platform encoding. `open(...).read()` sits outside the
  `try` (lines 334-335, 398-399), so a `UnicodeDecodeError` ends the run. The model's
  file system holds parsed modules or parse failures only, so it has no such abort.
- Deeply nested code. `handleStatement` is recursive, and a `RecursionError` would end
  the run. The model's dispatch has no depth limit.
- The `__import__` probe. It becomes a map from top-level name to `__file__`.
  A namespace package, whose `__file__` is `None`, makes the source raise a `TypeError`;
  the model has no such case.
- `lru_cache` on `moduleFilePath` and `is_excluded`. Both are deterministic functions here,
  so caching changes nothing.
- `realpath` on the scan directory. `RootDir.DiscoverRoot` takes the scan directory as
  given.
- The `full_data`, `imports` and `import_froms` records (lines 150-152, 366-370). They
  are filled but never written out.
- The commented-out block that would rewrite `__all__` (lines 435-462).
- The second `Return` branch (line 304). It is unreachable behind the first one.
- Exports.ElementValues: node kinds the model does not name (`Await` and the other
  `Unknown` kinds) count as having no `value` field, so such an element of `__all__` ends
  the run here. In Python an `Await` element would put its sub-node into the declared set.
  The kinds inside `Unknown` cannot be told apart.
- Reconcile.CheckBody: it decides with the intended comparison `Reconcile.Decide`, not the
  size comparison the code makes (lines 420-423). The two differ only for a module
  whose `__all__` declares `"*"`. For `__all__ = ["*"]` with `x` imported from the module,
  the code reports nothing while `CheckBody` reports `x`. `Reconcile.CheckBodyAsWritten` is
  the check as written, and `Reconcile.CheckBodyAgreesWithoutWildcard` proves that the two
  agree otherwise. `CheckModule`, `ReconcileProject` and `Analyzer.Analyze` inherit this.
- Analyzer.ScanFile: its own contract only states that facts grow. `Analyzer.ScanFileWithin`
  and `Analyzer.ScanFileSound` state that it adds exactly what the file records on its
  own. What that is, is stated by the visitor, import and attribution lemmas it is
  assembled from.
- The three JSON reports (lines 465-493): attributes per path, the imported names and the
  imported-from names. `Reconcile.Facts` holds the sets they are printed from.

## Findings

| source | as written | input that shows it | evidently intended | confidence | as-written member | corrected member |
|---|---|---|---|---|---|---|
| import-analyzer.py:420-433 | the union of declared and used names has `"*"` removed, and is then compared with the declared set by size alone | `__all__ = ["*"]` with `x` used elsewhere reports nothing; `__all__ = ["*"]` with nothing used prints `ADD to __all__: []` | report exactly the used names, other than `"*"`, that are not declared | low; not executed | Reconcile.WildcardHidesName | Reconcile.Decide |

`Reconcile.DecideAsWritten` is the comparison as written, and `Reconcile.CheckBodyAsWritten`
the module check built on it. `Reconcile.WildcardHidesName` and
`Reconcile.WildcardReportsNothing` exhibit the two inputs, and
`Reconcile.WildcardModuleUnreported` shows the first one on a whole module check. `Reconcile.Decide` is the
intended comparison, and the reconciler uses it. `Reconcile.DecideAgreesWithoutWildcard`
proves the two agree whenever `"*"` is not declared, which is every ordinary module.
