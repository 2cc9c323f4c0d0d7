/** The analyzer's first pass (import-analyzer.py:133-370) and the whole run: every
    Python file of the walked tree is parsed, its top-level statements replayed through
    the import handlers and the visitor, and its attribute accesses attributed; then the
    collected facts are reconciled (lines 372-433). */
module Analyzer {
  import opened Results
  import opened Strings
  import opened Paths
  import opened Syntax
  import opened Visitor
  import opened Resolver
  import opened Imports
  import opened Attribution
  import opened Reconcile

  /** One step of the directory walk: a directory's absolute path and the names of its
      subdirectories and files, as `os.walk` yields them. */
  datatype WalkDir = WalkDir(dirPath: string, subDirs: seq<string>, fileNames: seq<string>)

  /** Nothing recorded yet. */
  const NoFacts := Facts({}, map[], {})

  /** The resolution context of the files of one walked directory (line 134): the
      directory with the root's length cut off the front. */
  function DirContext(env: Env, w: WalkDir): (ctx: Context)
    ensures StartsWith(w.dirPath, env.root) ==> w.dirPath == env.root + ctx.dirPathRel
    ensures ctx.subDirs == w.subDirs && ctx.files == w.fileNames
  {
    Context(Drop(w.dirPath, |env.root|), w.subDirs, w.fileNames)
  }

  /** A file the first pass analyses (lines 137-147): a `.py` name whose absolute path
      and root-relative path both escape the exclusion patterns. */
  predicate Analysed(env: Env, dirPath: string, fname: string)
  {
    var fpath := Join(dirPath, fname);
    EndsWith(fname, ".py") && !env.isExcluded(fpath) && !env.isExcluded(Drop(fpath, |env.root|))
  }

  /** Analysing one parsed file (lines 150-362). The alias table starts empty for every
      file; import events update it and the project-wide tables in order, and the
      file's candidate accesses are attributed through the table as it stands at the
      end of the file. */
  function ScanFile(env: Env, ctx: Context, body: seq<Node>, f: Facts): (g: Facts)
    ensures f.imported <= g.imported && f.accesses <= g.accesses
  {
    var events := TopLevelEvents(body);
    var t := ApplyEvents(env, ctx, events, ImportTables(map[], f.imported, f.importedFrom));
    ApplyEventsGrows(env, ctx, events, ImportTables(map[], f.imported, f.importedFrom));
    Facts(t.imported, t.importedFrom, f.accesses + AttributeAccesses(events, t.aliases))
  }

  /** The files of one walked directory, in order (lines 136-149, 334-340): names that
      are not analysed are passed over, a listed file that cannot be opened ends the
      run, and a file that does not parse is skipped. */
  function ScanFiles(env: Env, w: WalkDir, names: seq<string>, f: Facts): (r: Result<Facts, Abort>)
    ensures r.Success? ==> f.imported <= r.value.imported && f.accesses <= r.value.accesses
    ensures (forall i :: 0 <= i < |names| ==> !Analysed(env, w.dirPath, names[i])) ==> r == Success(f)
    decreases |names|
  {
    if names == [] then Success(f)
    else
      var fpath := Join(w.dirPath, names[0]);
      if !Analysed(env, w.dirPath, names[0]) then ScanFiles(env, w, names[1..], f)
      else if fpath !in env.fs.files then Failure(MissingFile(fpath))
      else
        match env.fs.files[fpath]
        case None => ScanFiles(env, w, names[1..], f)
        case Some(body) => ScanFiles(env, w, names[1..], ScanFile(env, DirContext(env, w), body, f))
  }

  /** The whole first pass: every walked directory in order (line 133). */
  function ScanWalk(env: Env, walk: seq<WalkDir>, f: Facts): (r: Result<Facts, Abort>)
    ensures r.Success? ==> f.imported <= r.value.imported && f.accesses <= r.value.accesses
    decreases |walk|
  {
    if walk == [] then Success(f)
    else
      match ScanFiles(env, walk[0], walk[0].fileNames, f)
      case Failure(e) => Failure(e)
      case Success(g) => ScanWalk(env, walk[1..], g)
  }

  /** The run below the root (lines 48-433): the root's `pyproject.toml` must exist,
      then the first pass collects facts and the second reconciles them. */
  function Analyze(env: Env, walk: seq<WalkDir>): (r: Result<seq<Report>, Abort>)
    ensures Join(env.root, "pyproject.toml") !in env.fs.files ==>
      r == Failure(MissingManifest(Join(env.root, "pyproject.toml")))
    ensures r.Success? ==> SortedReports(r.value)
  {
    var manifest := Join(env.root, "pyproject.toml");
    if manifest !in env.fs.files then Failure(MissingManifest(manifest))
    else
      match ScanWalk(env, walk, NoFacts)
      case Failure(e) => Failure(e)
      case Success(f) => ReconcileProject(env, f)
  }

  // ---------------------------------------------------------------------------
  // Every resolved path the analyzer records names an existing project file, so the
  // second pass never fails to open a module it checks.

  /** A resolution that, when present, names a file under the root. */
  predicate Located(env: Env, p: Option<string>)
  {
    p.Some? ==> Join(env.root, p.value) in env.fs.files
  }

  /** Every path in the alias table and in the imported-from keys is located. */
  predicate TablesLocated(env: Env, t: ImportTables)
  {
    (forall a :: a in t.aliases ==> Located(env, t.aliases[a].path))
    && (forall mk :: mk in t.importedFrom ==> Located(env, mk.1))
  }

  lemma OverwriteLocated(env: Env, m: map<string, Binding>, ws: seq<Option<(string, Binding)>>)
    requires forall a :: a in m ==> Located(env, m[a].path)
    requires forall i :: 0 <= i < |ws| && ws[i].Some? ==> Located(env, ws[i].value.1.path)
    ensures forall a :: a in Overwrite(m, ws) ==> Located(env, Overwrite(m, ws)[a].path)
  {
    forall a | a in Overwrite(m, ws)
      ensures Located(env, Overwrite(m, ws)[a].path)
    {
      OverwriteOrigin(m, ws, a);
    }
  }

  lemma HandleImportLocated(env: Env, ctx: Context, names: seq<ImportName>, t: ImportTables)
    requires TablesLocated(env, t)
    ensures TablesLocated(env, HandleImport(env, ctx, names, t))
  {
    OverwriteLocated(env, t.aliases, ImportWrites(env, ctx, names));
  }

  lemma HandleImportFromLocated(env: Env, ctx: Context, source: Option<string>, names: seq<ImportName>, t: ImportTables)
    requires TablesLocated(env, t)
    ensures TablesLocated(env, HandleImportFrom(env, ctx, source, names, t))
  {
    if source.Some? {
      OverwriteLocated(env, t.aliases, FromWrites(env, ctx, source.value, names));
    }
  }

  lemma {:induction false} ApplyEventsLocated(env: Env, ctx: Context, evs: seq<Event>, t: ImportTables)
    requires TablesLocated(env, t)
    ensures TablesLocated(env, ApplyEvents(env, ctx, evs, t))
    decreases |evs|
  {
    if evs != [] {
      var t' := ApplyEvent(env, ctx, evs[0], t);
      match evs[0] {
        case ImportEvent(names) => HandleImportLocated(env, ctx, names, t);
        case ImportFromEvent(source, names) => HandleImportFromLocated(env, ctx, source, names, t);
        case AccessEvent(_, _) =>
      }
      ApplyEventsLocated(env, ctx, evs[1..], t');
    }
  }

  /** Analysing a file records only located paths. */
  lemma ScanFileLocated(env: Env, ctx: Context, body: seq<Node>, f: Facts)
    requires PathsExist(env, f)
    ensures PathsExist(env, ScanFile(env, ctx, body, f))
  {
    var events := TopLevelEvents(body);
    var t0 := ImportTables(map[], f.imported, f.importedFrom);
    var t := ApplyEvents(env, ctx, events, t0);
    assert TablesLocated(env, t0);
    ApplyEventsLocated(env, ctx, events, t0);
    var g := ScanFile(env, ctx, body, f);
    forall a | a in g.accesses && a.path.Some?
      ensures Join(env.root, a.path.value) in env.fs.files
    {
      if a !in f.accesses {
        var i :| 0 <= i < |events| && events[i].AccessEvent? && Tracked(events[i].base, t.aliases)
          && a == Attributed(events[i], t.aliases);
        assert Located(env, t.aliases[events[i].base].path);
      }
    }
  }

  lemma {:induction false} ScanFilesLocated(env: Env, w: WalkDir, names: seq<string>, f: Facts)
    requires PathsExist(env, f)
    ensures var r := ScanFiles(env, w, names, f); r.Success? ==> PathsExist(env, r.value)
    decreases |names|
  {
    if names != [] {
      var fpath := Join(w.dirPath, names[0]);
      if Analysed(env, w.dirPath, names[0]) && fpath in env.fs.files && env.fs.files[fpath].Some? {
        var g := ScanFile(env, DirContext(env, w), env.fs.files[fpath].value, f);
        ScanFileLocated(env, DirContext(env, w), env.fs.files[fpath].value, f);
        ScanFilesLocated(env, w, names[1..], g);
      } else {
        ScanFilesLocated(env, w, names[1..], f);
      }
    }
  }

  lemma {:induction false} ScanWalkLocated(env: Env, walk: seq<WalkDir>, f: Facts)
    requires PathsExist(env, f)
    ensures var r := ScanWalk(env, walk, f); r.Success? ==> PathsExist(env, r.value)
    decreases |walk|
  {
    if walk != [] {
      ScanFilesLocated(env, walk[0], walk[0].fileNames, f);
      var r := ScanFiles(env, walk[0], walk[0].fileNames, f);
      if r.Success? {
        ScanWalkLocated(env, walk[1..], r.value);
      }
    }
  }

  // ---------------------------------------------------------------------------
  // Every analysed file that parses contributes its facts to the first pass.

  /** The project-wide tables `ScanFile` starts a file from. */
  function TablesOf(f: Facts): ImportTables
  {
    ImportTables(map[], f.imported, f.importedFrom)
  }

  /** Everything `f` records is also recorded in `g`. */
  predicate FactsWithin(f: Facts, g: Facts)
  {
    ProjectWithin(TablesOf(f), TablesOf(g)) && f.accesses <= g.accesses
  }

  lemma FactsWithinTransitive(f: Facts, g: Facts, h: Facts)
    requires FactsWithin(f, g) && FactsWithin(g, h)
    ensures FactsWithin(f, h)
  {
  }

  /** Analysing a file keeps what was recorded before it and adds what the file records
      on its own: the same file analysed from no facts at all. */
  lemma ScanFileWithin(env: Env, ctx: Context, body: seq<Node>, f: Facts)
    ensures FactsWithin(f, ScanFile(env, ctx, body, f))
    ensures FactsWithin(ScanFile(env, ctx, body, NoFacts), ScanFile(env, ctx, body, f))
  {
    var events := TopLevelEvents(body);
    ApplyEventsGrows(env, ctx, events, TablesOf(f));
    ApplyEventsWithin(env, ctx, events, TablesOf(NoFacts), TablesOf(f));
  }

  /** The files of a directory only add to the facts. */
  lemma {:induction false} ScanFilesGrows(env: Env, w: WalkDir, names: seq<string>, f: Facts)
    ensures var r := ScanFiles(env, w, names, f); r.Success? ==> FactsWithin(f, r.value)
    decreases |names|
  {
    if names != [] {
      var fpath := Join(w.dirPath, names[0]);
      if Analysed(env, w.dirPath, names[0]) && fpath in env.fs.files && env.fs.files[fpath].Some? {
        var g := ScanFile(env, DirContext(env, w), env.fs.files[fpath].value, f);
        ScanFileWithin(env, DirContext(env, w), env.fs.files[fpath].value, f);
        ScanFilesGrows(env, w, names[1..], g);
        var r := ScanFiles(env, w, names[1..], g);
        if r.Success? {
          FactsWithinTransitive(f, g, r.value);
        }
      } else {
        ScanFilesGrows(env, w, names[1..], f);
      }
    }
  }

  /** A completed pass over a directory holds the facts of each analysed file it lists
      that parses (lines 136-149). */
  lemma {:induction false} ScanFilesIncludesFile(env: Env, w: WalkDir, names: seq<string>, f: Facts, i: int, body: seq<Node>)
    requires ScanFiles(env, w, names, f).Success?
    requires 0 <= i < |names| && Analysed(env, w.dirPath, names[i])
    requires Join(w.dirPath, names[i]) in env.fs.files && env.fs.files[Join(w.dirPath, names[i])] == Some(body)
    ensures FactsWithin(ScanFile(env, DirContext(env, w), body, NoFacts), ScanFiles(env, w, names, f).value)
    decreases |names|
  {
    var ctx := DirContext(env, w);
    var fpath := Join(w.dirPath, names[0]);
    if i == 0 {
      var g := ScanFile(env, ctx, body, f);
      assert ScanFiles(env, w, names, f) == ScanFiles(env, w, names[1..], g);
      ScanFileWithin(env, ctx, body, f);
      ScanFilesGrows(env, w, names[1..], g);
      FactsWithinTransitive(ScanFile(env, ctx, body, NoFacts), g, ScanFiles(env, w, names[1..], g).value);
    } else {
      var g := if Analysed(env, w.dirPath, names[0]) && env.fs.files[fpath].Some?
        then ScanFile(env, ctx, env.fs.files[fpath].value, f) else f;
      assert ScanFiles(env, w, names, f) == ScanFiles(env, w, names[1..], g);
      assert names[1..][i - 1] == names[i];
      ScanFilesIncludesFile(env, w, names[1..], g, i - 1, body);
    }
  }

  /** The whole first pass only adds to the facts. */
  lemma {:induction false} ScanWalkGrows(env: Env, walk: seq<WalkDir>, f: Facts)
    ensures var r := ScanWalk(env, walk, f); r.Success? ==> FactsWithin(f, r.value)
    decreases |walk|
  {
    if walk != [] {
      ScanFilesGrows(env, walk[0], walk[0].fileNames, f);
      var g := ScanFiles(env, walk[0], walk[0].fileNames, f);
      if g.Success? {
        ScanWalkGrows(env, walk[1..], g.value);
        var r := ScanWalk(env, walk[1..], g.value);
        if r.Success? {
          FactsWithinTransitive(f, g.value, r.value);
        }
      }
    }
  }

  /** A completed first pass holds the facts of every walked, analysed file that parses,
      each analysed in the context of its own directory (lines 133-149). */
  lemma {:induction false} ScanWalkIncludesFile(env: Env, walk: seq<WalkDir>, f: Facts, d: int, i: int, body: seq<Node>)
    requires ScanWalk(env, walk, f).Success?
    requires 0 <= d < |walk| && 0 <= i < |walk[d].fileNames|
    requires Analysed(env, walk[d].dirPath, walk[d].fileNames[i])
    requires var fpath := Join(walk[d].dirPath, walk[d].fileNames[i]);
      fpath in env.fs.files && env.fs.files[fpath] == Some(body)
    ensures FactsWithin(ScanFile(env, DirContext(env, walk[d]), body, NoFacts), ScanWalk(env, walk, f).value)
    decreases |walk|
  {
    var g := ScanFiles(env, walk[0], walk[0].fileNames, f);
    assert g.Success? && ScanWalk(env, walk, f) == ScanWalk(env, walk[1..], g.value);
    if d == 0 {
      var c := ScanFile(env, DirContext(env, walk[0]), body, NoFacts);
      ScanFilesIncludesFile(env, walk[0], walk[0].fileNames, f, i, body);
      ScanWalkGrows(env, walk[1..], g.value);
      FactsWithinTransitive(c, g.value, ScanWalk(env, walk[1..], g.value).value);
    } else {
      var w := walk[d];
      assert walk[1..][d - 1] == w;
      ScanWalkIncludesFile(env, walk[1..], g.value, d - 1, i, body);
    }
  }

  // ---------------------------------------------------------------------------
  // Conversely, nothing enters the first pass's facts except what the analysed files
  // record.

  /** Everything `g` records is recorded in `f` or in one of `parts`. */
  ghost predicate FactsFrom(g: Facts, f: Facts, parts: seq<Facts>)
  {
    && (forall n :: n in g.imported ==>
          n in f.imported || exists i :: 0 <= i < |parts| && n in parts[i].imported)
    && (forall a :: a in g.accesses ==>
          a in f.accesses || exists i :: 0 <= i < |parts| && a in parts[i].accesses)
    && (forall k :: k in g.importedFrom ==>
          k in f.importedFrom || exists i :: 0 <= i < |parts| && k in parts[i].importedFrom)
    && (forall k, n :: k in g.importedFrom && n in g.importedFrom[k] ==>
          (k in f.importedFrom && n in f.importedFrom[k]) ||
          exists i :: 0 <= i < |parts| && k in parts[i].importedFrom && n in parts[i].importedFrom[k])
  }

  lemma FactsFromSelf(f: Facts, parts: seq<Facts>)
    ensures FactsFrom(f, f, parts)
  {
  }

  /** Chaining two steps: what came from `g` or `later` came from `f`, `earlier` or
      `later`. */
  lemma FactsFromChain(r: Facts, g: Facts, f: Facts, earlier: seq<Facts>, later: seq<Facts>)
    requires FactsFrom(g, f, earlier) && FactsFrom(r, g, later)
    ensures FactsFrom(r, f, earlier + later)
  {
    var all := earlier + later;
    forall i | 0 <= i < |earlier| ensures all[i] == earlier[i] { }
    forall i | 0 <= i < |later| ensures all[|earlier| + i] == later[i] { }
  }

  /** Analysing a file adds only what the file records on its own. */
  lemma ScanFileSound(env: Env, ctx: Context, body: seq<Node>, f: Facts)
    ensures FactsFrom(ScanFile(env, ctx, body, f), f, [ScanFile(env, ctx, body, NoFacts)])
  {
    var events := TopLevelEvents(body);
    var t := ApplyEvents(env, ctx, events, TablesOf(f));
    var u := ApplyEvents(env, ctx, events, TablesOf(NoFacts));
    ApplyEventsFrom(env, ctx, events, TablesOf(f), TablesOf(f), TablesOf(NoFacts));
    ApplyEventsWithin(env, ctx, events, TablesOf(NoFacts), TablesOf(f));
    var g := ScanFile(env, ctx, body, f);
    var c := ScanFile(env, ctx, body, NoFacts);
    assert g == Facts(t.imported, t.importedFrom, f.accesses + AttributeAccesses(events, t.aliases));
    assert c == Facts(u.imported, u.importedFrom, {} + AttributeAccesses(events, u.aliases));
    var parts := [c];
    assert parts[0] == c;
  }

  /** What one listed file records on its own: the facts of its parsed body when it is
      analysed, exists and parses, and nothing otherwise. */
  function FileFacts(env: Env, w: WalkDir, name: string): Facts
  {
    var fpath := Join(w.dirPath, name);
    if Analysed(env, w.dirPath, name) && fpath in env.fs.files && env.fs.files[fpath].Some?
    then ScanFile(env, DirContext(env, w), env.fs.files[fpath].value, NoFacts)
    else NoFacts
  }

  /** The facts each listed file records on its own, in order. */
  function FilesFacts(env: Env, w: WalkDir, names: seq<string>): (r: seq<Facts>)
    ensures |r| == |names|
    ensures forall i :: 0 <= i < |names| ==> r[i] == FileFacts(env, w, names[i])
  {
    seq(|names|, i requires 0 <= i < |names| => FileFacts(env, w, names[i]))
  }

  /** The step `ScanFiles` takes for one listed file that exists adds only what that file
      records on its own. */
  lemma FileSound(env: Env, w: WalkDir, name: string, f: Facts, g: Facts)
    requires var fpath := Join(w.dirPath, name);
      g == if Analysed(env, w.dirPath, name) && fpath in env.fs.files && env.fs.files[fpath].Some?
        then ScanFile(env, DirContext(env, w), env.fs.files[fpath].value, f) else f
    ensures FactsFrom(g, f, [FileFacts(env, w, name)])
  {
    var fpath := Join(w.dirPath, name);
    if Analysed(env, w.dirPath, name) && fpath in env.fs.files && env.fs.files[fpath].Some? {
      ScanFileSound(env, DirContext(env, w), env.fs.files[fpath].value, f);
    } else {
      FactsFromSelf(f, [FileFacts(env, w, name)]);
    }
  }

  /** `FilesFacts` of a non-empty listing: the first file's facts, then the rest's. */
  lemma FilesFactsCons(env: Env, w: WalkDir, names: seq<string>)
    requires names != []
    ensures FilesFacts(env, w, names) == [FileFacts(env, w, names[0])] + FilesFacts(env, w, names[1..])
  {
    var rest := FilesFacts(env, w, names[1..]);
    forall i | 0 <= i < |rest| ensures rest[i] == FileFacts(env, w, names[i + 1]) {
      assert names[1..][i] == names[i + 1];
    }
  }

  /** Chaining one file's step in front of the rest of a listing. */
  lemma FactsFromCons(r: Facts, g: Facts, f: Facts, first: Facts, rest: seq<Facts>, all: seq<Facts>)
    requires all == [first] + rest
    requires FactsFrom(g, f, [first]) && FactsFrom(r, g, rest)
    ensures FactsFrom(r, f, all)
  {
    FactsFromChain(r, g, f, [first], rest);
  }

  /** A completed pass over a directory records nothing beyond the facts it started
      from and those of the files it lists. */
  lemma {:induction false} ScanFilesSound(env: Env, w: WalkDir, names: seq<string>, f: Facts)
    ensures var r := ScanFiles(env, w, names, f);
      r.Success? ==> FactsFrom(r.value, f, FilesFacts(env, w, names))
    decreases |names|
  {
    if names == [] {
      FactsFromSelf(f, []);
    } else if ScanFiles(env, w, names, f).Success? {
      var fpath := Join(w.dirPath, names[0]);
      var g := if Analysed(env, w.dirPath, names[0]) && env.fs.files[fpath].Some?
        then ScanFile(env, DirContext(env, w), env.fs.files[fpath].value, f) else f;
      assert ScanFiles(env, w, names, f) == ScanFiles(env, w, names[1..], g);
      FileSound(env, w, names[0], f, g);
      ScanFilesSound(env, w, names[1..], g);
      FilesFactsCons(env, w, names);
      FactsFromCons(ScanFiles(env, w, names[1..], g).value, g, f, FileFacts(env, w, names[0]),
        FilesFacts(env, w, names[1..]), FilesFacts(env, w, names));
    }
  }

  /** The facts each walked file records on its own, directory by directory. */
  function WalkFacts(env: Env, walk: seq<WalkDir>): seq<Facts>
    decreases |walk|
  {
    if walk == [] then [] else FilesFacts(env, walk[0], walk[0].fileNames) + WalkFacts(env, walk[1..])
  }

  /** Each part of `WalkFacts` is what one walked file records on its own. */
  lemma {:induction false} WalkFactsOrigin(env: Env, walk: seq<WalkDir>, j: int)
    requires 0 <= j < |WalkFacts(env, walk)|
    ensures exists d, i :: (0 <= d < |walk| && 0 <= i < |walk[d].fileNames| &&
      WalkFacts(env, walk)[j] == FileFacts(env, walk[d], walk[d].fileNames[i]))
    decreases |walk|
  {
    var here := FilesFacts(env, walk[0], walk[0].fileNames);
    if j < |here| {
      assert WalkFacts(env, walk)[j] == FileFacts(env, walk[0], walk[0].fileNames[j]);
    } else {
      WalkFactsOrigin(env, walk[1..], j - |here|);
      var d, i :| 0 <= d < |walk[1..]| && 0 <= i < |walk[1..][d].fileNames| &&
        WalkFacts(env, walk[1..])[j - |here|] == FileFacts(env, walk[1..][d], walk[1..][d].fileNames[i]);
      assert walk[1..][d] == walk[d + 1];
    }
  }

  /** A completed first pass records nothing beyond the facts it started from and those
      of the walked files (lines 133-149). */
  lemma {:induction false} ScanWalkSound(env: Env, walk: seq<WalkDir>, f: Facts)
    ensures var r := ScanWalk(env, walk, f);
      r.Success? ==> FactsFrom(r.value, f, WalkFacts(env, walk))
    decreases |walk|
  {
    if walk == [] {
      FactsFromSelf(f, []);
    } else if ScanWalk(env, walk, f).Success? {
      var g := ScanFiles(env, walk[0], walk[0].fileNames, f);
      assert g.Success? && ScanWalk(env, walk, f) == ScanWalk(env, walk[1..], g.value);
      ScanFilesSound(env, walk[0], walk[0].fileNames, f);
      ScanWalkSound(env, walk[1..], g.value);
      FactsFromChain(ScanWalk(env, walk[1..], g.value).value, g.value, f,
        FilesFacts(env, walk[0], walk[0].fileNames), WalkFacts(env, walk[1..]));
    }
  }

  /** The first pass over one directory aborts only on an analysed file it lists that
      does not exist. */
  lemma {:induction false} ScanFilesAbort(env: Env, w: WalkDir, names: seq<string>, f: Facts)
    ensures var r := ScanFiles(env, w, names, f);
      r.Failure? ==> exists i :: (0 <= i < |names| && Analysed(env, w.dirPath, names[i]) &&
        Join(w.dirPath, names[i]) !in env.fs.files && r.error == MissingFile(Join(w.dirPath, names[i])))
    decreases |names|
  {
    if names != [] {
      var fpath := Join(w.dirPath, names[0]);
      var g := if Analysed(env, w.dirPath, names[0]) && fpath in env.fs.files && env.fs.files[fpath].Some?
        then ScanFile(env, DirContext(env, w), env.fs.files[fpath].value, f) else f;
      ScanFilesAbort(env, w, names[1..], g);
      var r := ScanFiles(env, w, names, f);
      if r.Failure? && !(Analysed(env, w.dirPath, names[0]) && fpath !in env.fs.files) {
        var i :| 0 <= i < |names[1..]| && Analysed(env, w.dirPath, names[1..][i]) &&
          Join(w.dirPath, names[1..][i]) !in env.fs.files && r.error == MissingFile(Join(w.dirPath, names[1..][i]));
        assert names[i + 1] == names[1..][i];
      }
    }
  }

  /** A file of the walk: an analysed `.py` file some walked directory lists. */
  predicate WalkedFile(env: Env, walk: seq<WalkDir>, path: string)
  {
    exists d, i :: 0 <= d < |walk| && 0 <= i < |walk[d].fileNames| &&
      Analysed(env, walk[d].dirPath, walk[d].fileNames[i]) && path == Join(walk[d].dirPath, walk[d].fileNames[i])
  }

  lemma {:induction false} ScanWalkAbort(env: Env, walk: seq<WalkDir>, f: Facts)
    ensures var r := ScanWalk(env, walk, f);
      r.Failure? ==> r.error.MissingFile? && r.error.path !in env.fs.files && WalkedFile(env, walk, r.error.path)
    decreases |walk|
  {
    if walk != [] {
      ScanFilesAbort(env, walk[0], walk[0].fileNames, f);
      var r0 := ScanFiles(env, walk[0], walk[0].fileNames, f);
      var r := ScanWalk(env, walk, f);
      if r0.Failure? {
        var i :| 0 <= i < |walk[0].fileNames| && Analysed(env, walk[0].dirPath, walk[0].fileNames[i]) &&
          Join(walk[0].dirPath, walk[0].fileNames[i]) !in env.fs.files && r0.error == MissingFile(Join(walk[0].dirPath, walk[0].fileNames[i]));
        assert WalkedFile(env, walk, r.error.path);
      } else {
        ScanWalkAbort(env, walk[1..], r0.value);
        if r.Failure? {
          var d, i :| 0 <= d < |walk[1..]| && 0 <= i < |walk[1..][d].fileNames| &&
            Analysed(env, walk[1..][d].dirPath, walk[1..][d].fileNames[i]) && r.error.path == Join(walk[1..][d].dirPath, walk[1..][d].fileNames[i]);
          assert walk[d + 1] == walk[1..][d];
        }
      }
    }
  }

  /** How a run can end early: without a root manifest; on a walked source file that
      cannot be opened; or on a module whose `__all__` cannot be read. Opening a module
      for reconciliation never fails, because every recorded path was found to exist
      when it was resolved. */
  lemma AnalyzeAborts(env: Env, walk: seq<WalkDir>)
    ensures var r := Analyze(env, walk);
      r.Failure? ==>
        r.error == MissingManifest(Join(env.root, "pyproject.toml")) ||
        (r.error.MissingFile? && r.error.path !in env.fs.files && WalkedFile(env, walk, r.error.path)) ||
        r.error.BadExports?
  {
    var r := Analyze(env, walk);
    var manifest := Join(env.root, "pyproject.toml");
    if manifest !in env.fs.files {
      assert r == Failure(MissingManifest(manifest));
    } else {
      var s := ScanWalk(env, walk, NoFacts);
      ScanWalkAbort(env, walk, NoFacts);
      if s.Failure? {
        assert r == Failure(s.error);
      } else {
        ScanWalkLocated(env, walk, NoFacts);
        NoMissingModule(env, s.value);
        assert r == ReconcileProject(env, s.value);
      }
    }
  }
}
