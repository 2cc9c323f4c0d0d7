/** The module resolver `moduleFilePath` (import-analyzer.py:74-113): a dotted module
    reference plus the referencing file's directory context becomes a project-relative
    `.py` path, or nothing for standard-library, excluded, third-party and unresolvable
    references. */
module Resolver {
  import opened Results
  import opened Strings
  import opened Paths
  import opened Syntax

  /** The file system as the analyzer sees it: existing directories, and existing files
      with the parse of their contents (`None` when the text does not parse). Paths are
      absolute. */
  datatype FileSystem = FileSystem(dirs: set<string>, files: map<string, Option<seq<Node>>>)

  /** The run's fixed environment. `installed` maps a top-level name that `__import__`
      loads to the module's `__file__`; names it cannot load are absent. */
  datatype Env = Env(
    root: string,                  // the project root, ending in '/'
    stdlib: set<string>,           // sys.stdlib_module_names
    excludedTop: set<string>,      // configured exclude_toplevel_module
    installed: map<string, string>,
    isExcluded: string -> bool,    // the configured path-prefix exclusion patterns
    fs: FileSystem)

  /** Where the referencing file lives: its directory relative to the root, and the
      names of that directory's subdirectories and files. */
  datatype Context = Context(dirPathRel: string, subDirs: seq<string>, files: seq<string>)

  /** The first dotted component of a module reference. */
  function TopName(name: string): string
  {
    SplitOn(name, '.')[0]
  }

  /** The first component names something next to the referencing file: a file (with
      or without `.py`) or a subdirectory. */
  predicate IsSibling(main: string, ctx: Context)
  {
    main in ctx.files || main + ".py" in ctx.files || main in ctx.subDirs
  }

  /** `__import__` finds the top-level package and it lives under site-packages. */
  predicate InstalledOutside(env: Env, main: string)
  {
    main in env.installed && Contains(env.installed[main], "/site-packages/")
  }

  /** A root-relative stem names a single module file: it is not a directory and
      `stem.py` exists. */
  predicate IsModuleFile(env: Env, stem: string)
  {
    Join(env.root, stem) !in env.fs.dirs && Join(env.root, stem) + ".py" in env.fs.files
  }

  /** A found module path: a `.py` file under the root whose stem is not a directory. */
  predicate Found(env: Env, path: string)
  {
    EndsWith(path, ".py")
    && Join(env.root, path) in env.fs.files
    && Join(env.root, path[..|path| - 3]) !in env.fs.dirs
  }

  /** Joining the path segments under the root and looking for `<path>.py`. */
  function Locate(env: Env, parts: seq<string>): (r: Option<string>)
    requires |parts| >= 1
    ensures r.Some? <==> IsModuleFile(env, JoinAll(parts))
    ensures r.Some? ==> r.value == JoinAll(parts) + ".py" && Found(env, r.value)
  {
    var pathRel := JoinAll(parts);
    var dpath := Join(env.root, pathRel);
    if dpath in env.fs.dirs then None
    else if dpath + ".py" in env.fs.files then
      var path := pathRel + ".py";
      assert path[..|path| - 3] == pathRel;
      JoinAppend(env.root, pathRel, ".py");
      Some(path)
    else None
  }

  /** Where a reference is looked up once the standard-library and excluded-name tests
      have passed: next to the referencing file, nowhere for a package installed under
      site-packages, or under the project root. */
  function Lookup(env: Env, parts: seq<string>, ctx: Context): (r: Option<string>)
    requires |parts| >= 1
    ensures !IsSibling(parts[0], ctx) && InstalledOutside(env, parts[0]) ==> r == None
    ensures r.Some? ==> Found(env, r.value)
  {
    if IsSibling(parts[0], ctx) then
      var (head, tail) := Split(ctx.dirPathRel);
      Locate(env, [head, tail] + parts)
    else if InstalledOutside(env, parts[0]) then None
    else Locate(env, parts)
  }

  /** `moduleFilePath(module, dirPathRel, subDirs, files)`. The diagnostic it prints on
      failure and its `silent` switch do not affect the result. */
  function Resolve(env: Env, name: string, ctx: Context): (r: Option<string>)
    ensures name == "" ==> r == None
    ensures TopName(name) in env.stdlib || TopName(name) in env.excludedTop ==> r == None
    ensures !IsSibling(TopName(name), ctx) && InstalledOutside(env, TopName(name)) ==> r == None
    ensures r.Some? ==> Found(env, r.value)
  {
    if name == "" then None
    else
      var parts := SplitOn(name, '.');
      var main := parts[0];
      if main in env.stdlib then None
      else if main in env.excludedTop then None
      else Lookup(env, parts, ctx)
  }

  /** A dotted name whose components are non-empty and contain no slash. */
  predicate DottedName(name: string)
  {
    PlainSegments(SplitOn(name, '.'))
  }

  /** The root-relative path a dotted name stands for: dots become slashes. */
  function Slashed(name: string): string
  {
    Replace(name, '.', '/')
  }

  /** What `os.path.join(*parts)` produces for a dotted name's components. */
  lemma JoinDotted(name: string)
    requires DottedName(name)
    ensures JoinAll(SplitOn(name, '.')) == Slashed(name)
  {
    var parts := SplitOn(name, '.');
    SplitJoinIsReplace(name, '.', '/');
    if |parts| > 1 {
      assert PlainSegments(parts[1..]) by {
        forall i | 0 <= i < |parts[1..]| ensures parts[1..][i] != "" && '/' !in parts[1..][i] {
          assert parts[1..][i] == parts[i + 1];
        }
      }
      JoinFoldPlain(parts[0], parts[1..]);
      assert CleanDir(parts[0]) by {
        assert parts[0] != "" && '/' !in parts[0];
        assert parts[0][|parts[0]| - 1] in parts[0];
      }
    }
  }

  /** A sibling reference is looked up under the referencing file's directory, split
      into head and tail as `os.path.split` does. */
  lemma SiblingLookup(env: Env, name: string, ctx: Context)
    requires name != ""
    requires TopName(name) !in env.stdlib && TopName(name) !in env.excludedTop
    requires IsSibling(TopName(name), ctx)
    ensures Resolve(env, name, ctx) == Locate(env, [Split(ctx.dirPathRel).0, Split(ctx.dirPathRel).1] + SplitOn(name, '.'))
  {
    assert Resolve(env, name, ctx) == Lookup(env, SplitOn(name, '.'), ctx);
  }

  /** The sibling lookup path: the directory, then the dotted components as segments. */
  lemma SiblingStem(d: string, name: string)
    requires DottedName(name) && CleanDir(d)
    ensures JoinAll([Split(d).0, Split(d).1] + SplitOn(name, '.'))
      == (if d == "" then Slashed(name) else d + "/" + Slashed(name))
  {
    var parts := SplitOn(name, '.');
    JoinAllPair(Split(d).0, Split(d).1, parts);
    JoinSplit(d);
    JoinFoldPlain(d, parts);
    SplitJoinIsReplace(name, '.', '/');
  }

  /** A reference whose first component sits next to the referencing file resolves
      inside that file's directory: `a.b` from directory `pkg/sub` is `pkg/sub/a/b.py`. */
  lemma ResolveSibling(env: Env, name: string, ctx: Context)
    requires DottedName(name) && CleanDir(ctx.dirPathRel)
    requires TopName(name) !in env.stdlib && TopName(name) !in env.excludedTop
    requires IsSibling(TopName(name), ctx)
    ensures var stem := if ctx.dirPathRel == "" then Slashed(name) else ctx.dirPathRel + "/" + Slashed(name);
      Resolve(env, name, ctx) == (if IsModuleFile(env, stem) then Some(stem + ".py") else None)
  {
    var d := ctx.dirPathRel;
    var joined := [Split(d).0, Split(d).1] + SplitOn(name, '.');
    assert name != "" by {
      assert SplitOn(name, '.')[0] != "";
    }
    SiblingLookup(env, name, ctx);
    SiblingStem(d, name);
    assert Resolve(env, name, ctx) == Locate(env, joined);
  }

  /** A reference that is neither a sibling nor an installed third-party package
      resolves under the project root: `a.b` is `a/b.py`. */
  lemma ResolveFromRoot(env: Env, name: string, ctx: Context)
    requires DottedName(name)
    requires TopName(name) !in env.stdlib && TopName(name) !in env.excludedTop
    requires !IsSibling(TopName(name), ctx) && !InstalledOutside(env, TopName(name))
    ensures Resolve(env, name, ctx) == (if IsModuleFile(env, Slashed(name)) then Some(Slashed(name) + ".py") else None)
  {
    JoinDotted(name);
    assert name != "" by {
      assert SplitOn(name, '.')[0] != "";
    }
  }
}
