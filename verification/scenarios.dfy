/** Concrete runs of the model on small projects. */
module Scenarios {
  import opened Results
  import opened Strings
  import opened Paths
  import opened Syntax
  import opened Visitor
  import opened Resolver
  import opened Imports
  import opened Attribution
  import opened Exports
  import opened Reconcile
  import opened Analyzer
  import opened Ordering

  /** The events of `c.d` as a statement. */
  lemma AccessStatementEvents(c: string, d: string)
    ensures TopLevelEvents([Expr(Attribute(Name(c), d))]) == [AccessEvent(c, d)]
  {
    assert Visit(Attribute(Name(c), d)) == [AccessEvent(c, d)];
    assert Visit(Expr(Attribute(Name(c), d))) == [AccessEvent(c, d)];
    assert TopLevelEvents([Expr(Attribute(Name(c), d))][1..]) == [];
  }

  /** The events of `from a import ...` followed by `c.d`. */
  lemma ScenarioEvents(a: string, names: seq<ImportName>, c: string, d: string)
    ensures TopLevelEvents([ImportFrom(Some(a), names), Expr(Attribute(Name(c), d))])
      == [ImportFromEvent(Some(a), names), AccessEvent(c, d)]
  {
    var body := [ImportFrom(Some(a), names), Expr(Attribute(Name(c), d))];
    assert body[1..] == [Expr(Attribute(Name(c), d))];
    AccessStatementEvents(c, d);
  }

  /** `from a import b as c` followed by `c.d` in the same file: the access is
      attributed to `a.b` and its resolution, not to `c` or `a`. */
  lemma AliasedFromImportAttributed(env: Env, ctx: Context, a: string, b: string, c: string, d: string, f: Facts)
    requires b != "" && c != "" && c != "self" && c != "msg"
    ensures var body := [ImportFrom(Some(a), [ImportName(b, c)]), Expr(Attribute(Name(c), d))];
      Access(Qualified(a, b), d, Resolve(env, Qualified(a, b), ctx)) in ScanFile(env, ctx, body, f).accesses
  {
    var body := [ImportFrom(Some(a), [ImportName(b, c)]), Expr(Attribute(Name(c), d))];
    var names := [ImportName(b, c)];
    var events := TopLevelEvents(body);
    ScenarioEvents(a, names, c, d);
    var t0 := ImportTables(map[], f.imported, f.importedFrom);
    var t1 := HandleImportFrom(env, ctx, Some(a), names, t0);
    FromImportLastClauseWins(env, ctx, a, names, t0, 0);
    assert ApplyEvents(env, ctx, events, t0) == t1 by {
      assert events[1..] == [AccessEvent(c, d)];
      assert ApplyEvents(env, ctx, events[1..], t1) == ApplyEvents(env, ctx, [], t1);
    }
    assert events[1] == AccessEvent(c, d);
  }

  // ---------------------------------------------------------------------------
  // A small project rooted at `/p/`: the package `pkg` with module `a.py`, a top-level
  // module `m.py`, and a file `app/b.py` that uses them. Nothing is excluded, nothing
  // is in the standard library and nothing is installed.

  function Project(a: seq<Node>, m: seq<Node>, b: seq<Node>): Env
  {
    Env("/p/", {}, {}, map[], (path: string) => false,
      FileSystem({"/p/pkg", "/p/app"},
        map["/p/pyproject.toml" := None, "/p/pkg/a.py" := Some(a), "/p/m.py" := Some(m), "/p/app/b.py" := Some(b)]))
  }

  /** The walk's entry for `app/`, and the context its files are analysed in. */
  const AppDir := WalkDir("/p/app", [], ["b.py"])

  lemma AppContext(env: Env)
    requires env.root == "/p/"
    ensures DirContext(env, AppDir) == Context("app", [], ["b.py"])
  {
    assert Drop("/p/app", 3) == "app";
  }

  lemma PkgAParts()
    ensures SplitOn("pkg.a", '.') == ["pkg", "a"]
  {
    SplitOnNoSep("pkg", '.');
    SplitOnNoSep("a", '.');
    SplitOnFirst("pkg", '.', "a");
    assert "pkg.a" == "pkg" + ['.'] + "a";
  }

  lemma PkgAName()
    ensures DottedName("pkg.a") && TopName("pkg.a") == "pkg" && Slashed("pkg.a") == "pkg/a"
  {
    PkgAParts();
    SplitJoinIsReplace("pkg.a", '.', '/');
    assert JoinWith(["pkg", "a"], '/') == "pkg/a";
  }

  /** The project's two modules outside `app/` are module files under the root. */
  lemma ModuleFile(a: seq<Node>, m: seq<Node>, b: seq<Node>, stem: string)
    requires stem == "pkg/a" || stem == "m"
    ensures IsModuleFile(Project(a, m, b), stem)
    ensures stem == "pkg/a" ==> stem + ".py" == "pkg/a.py"
    ensures stem == "m" ==> stem + ".py" == "m.py"
  {
    if stem == "pkg/a" {
      assert Join("/p/", "pkg/a") == "/p/pkg/a";
      assert "/p/pkg/a" + ".py" == "/p/pkg/a.py";
    } else {
      assert Join("/p/", "m") == "/p/m";
      assert "/p/m" + ".py" == "/p/m.py";
    }
  }

  /** From `app/b.py`, `pkg.a` resolves under the root to `pkg/a.py`. */
  lemma ResolvePkgA(a: seq<Node>, m: seq<Node>, b: seq<Node>)
    ensures Resolve(Project(a, m, b), "pkg.a", Context("app", [], ["b.py"])) == Some("pkg/a.py")
  {
    PkgAName();
    ModuleFile(a, m, b, "pkg/a");
    assert !IsSibling("pkg", Context("app", [], ["b.py"])) by {
      assert "pkg" != "b.py" && "pkg" + ".py" != "b.py";
    }
    ResolveFromRoot(Project(a, m, b), "pkg.a", Context("app", [], ["b.py"]));
  }

  lemma MName()
    ensures DottedName("m") && TopName("m") == "m" && Slashed("m") == "m"
  {
    SplitOnNoSep("m", '.');
    SplitJoinIsReplace("m", '.', '/');
  }

  lemma PkgAPath()
    ensures Join("/p/", "pkg/a.py") == "/p/pkg/a.py"
  {
  }

  lemma MPath()
    ensures Join("/p/", "m.py") == "/p/m.py"
  {
  }

  /** From `app/b.py`, `m` resolves under the root to `m.py`. */
  lemma ResolveM(a: seq<Node>, m: seq<Node>, b: seq<Node>)
    ensures Resolve(Project(a, m, b), "m", Context("app", [], ["b.py"])) == Some("m.py")
  {
    MName();
    ModuleFile(a, m, b, "m");
    assert !IsSibling("m", Context("app", [], ["b.py"])) by {
      assert "m" != "b.py" && "m" + ".py" == "m.py" && "m.py" != "b.py";
    }
    ResolveFromRoot(Project(a, m, b), "m", Context("app", [], ["b.py"]));
  }

  /** The events of a file holding one `from` import. */
  lemma FromImportEvents(source: Option<string>, names: seq<ImportName>)
    ensures TopLevelEvents([ImportFrom(source, names)]) == [ImportFromEvent(source, names)]
  {
    assert [ImportFrom(source, names)][1..] == [];
  }

  /** The tables after replaying `from pkg.a import helper` in `app/b.py`. */
  lemma CreateTables(a: seq<Node>, b: seq<Node>)
    requires b == [ImportFrom(Some("pkg.a"), [ImportName("helper", "")])]
    ensures var t := ApplyEvents(Project(a, [], b), Context("app", [], ["b.py"]), TopLevelEvents(b), ImportTables(map[], {}, map[]));
      t.imported == {} && t.importedFrom == map[("pkg.a", Some("pkg/a.py")) := {"helper"}]
  {
    var env := Project(a, [], b);
    var ctx := Context("app", [], ["b.py"]);
    ResolvePkgA(a, [], b);
    var events := TopLevelEvents(b);
    FromImportEvents(Some("pkg.a"), [ImportName("helper", "")]);
    var names := [ImportName("helper", "")];
    var t0 := ImportTables(map[], {}, map[]);
    var t := HandleImportFrom(env, ctx, Some("pkg.a"), names, t0);
    assert ApplyEvents(env, ctx, events, t0) == t by {
      assert events[1..] == [];
    }
    var key := ("pkg.a", Some("pkg/a.py"));
    FromImportEntry(env, ctx, "pkg.a", names, t0);
    assert t.importedFrom[key] == {"helper"} by {
      assert names[0].name == "helper";
    }
  }

  /** What analysing `from pkg.a import helper` in `app/b.py` records. */
  lemma CreateFacts(a: seq<Node>, b: seq<Node>)
    requires b == [ImportFrom(Some("pkg.a"), [ImportName("helper", "")])]
    ensures var env := Project(a, [], b);
      ScanFile(env, DirContext(env, AppDir), b, NoFacts) == Facts({}, map[("pkg.a", Some("pkg/a.py")) := {"helper"}], {})
  {
    var env := Project(a, [], b);
    AppContext(env);
    CreateTables(a, b);
    var events := TopLevelEvents(b);
    FromImportEvents(Some("pkg.a"), [ImportName("helper", "")]);
    var t := ApplyEvents(env, Context("app", [], ["b.py"]), events, ImportTables(map[], {}, map[]));
    assert AttributeAccesses(events, t.aliases) == {};
  }

  /** The check of a module without `__all__` from which only `helper` is imported. */
  lemma CreateBody(a: seq<Node>)
    requires a == [FunctionDef([], [Pass], [], [])]
    ensures var f := Facts({}, map[("pkg.a", Some("pkg/a.py")) := {"helper"}], {});
      CheckBody(f, ("pkg.a", "pkg/a.py"), a) == Success(Some(Report("pkg.a", "pkg/a.py", false, {Value(Str("helper"))})))
  {
    var f := Facts({}, map[("pkg.a", Some("pkg/a.py")) := {"helper"}], {});
    var observed := Observed(f, ("pkg.a", "pkg/a.py"));
    assert observed == {Value(Str("helper"))} by {
      assert Value(Str("helper")) in observed;
    }
    assert FindExports(a) == Success(None) by {
      assert !Stops(a[0]);
    }
    assert ({} + observed) - {Wildcard} - {} == {Value(Str("helper"))};
  }

  /** `app/b.py` (`b`) holds `from pkg.a import helper`, and `pkg/a.py` (`a`) defines a
      function but declares no `__all__`: analysing `app/b.py` records `helper` as
      imported from (`pkg.a`, `pkg/a.py`), that module is checked, and its check
      proposes creating `__all__` with `helper`. */
  lemma CreateDeclaration(a: seq<Node>, b: seq<Node>)
    requires a == [FunctionDef([], [Pass], [], [])]
    requires b == [ImportFrom(Some("pkg.a"), [ImportName("helper", "")])]
    ensures var env := Project(a, [], b);
      var f := ScanFile(env, DirContext(env, AppDir), b, NoFacts);
      && ("pkg.a", "pkg/a.py") in ModulesToCheck(f)
      && CheckModule(env, f, ("pkg.a", "pkg/a.py"))
           == Success(Some(Report("pkg.a", "pkg/a.py", false, {Value(Str("helper"))})))
  {
    var env := Project(a, [], b);
    var f := Facts({}, map[("pkg.a", Some("pkg/a.py")) := {"helper"}], {});
    CreateFacts(a, b);
    CreateBody(a);
    PkgAPath();
    CheckReadsBody(env, f, ("pkg.a", "pkg/a.py"), a);
  }

  /** The events of `import m` followed by `m.y`. */
  lemma ExtendEvents(b: seq<Node>)
    requires b == [Import([ImportName("m", "")]), Expr(Attribute(Name("m"), "y"))]
    ensures TopLevelEvents(b) == [ImportEvent([ImportName("m", "")]), AccessEvent("m", "y")]
  {
    assert b[1..] == [Expr(Attribute(Name("m"), "y"))];
    AccessStatementEvents("m", "y");
  }

  /** The tables after replaying `import m` and `m.y` in `app/b.py`. */
  lemma ExtendTables(m: seq<Node>, b: seq<Node>)
    requires b == [Import([ImportName("m", "")]), Expr(Attribute(Name("m"), "y"))]
    ensures var t := ApplyEvents(Project([], m, b), Context("app", [], ["b.py"]), TopLevelEvents(b), ImportTables(map[], {}, map[]));
      t.imported == {"m"} && t.importedFrom == map[] && "m" in t.aliases && t.aliases["m"] == Binding("m", Some("m.py"))
  {
    var env := Project([], m, b);
    var ctx := Context("app", [], ["b.py"]);
    ResolveM([], m, b);
    ExtendEvents(b);
    var events := TopLevelEvents(b);
    var t0 := ImportTables(map[], {}, map[]);
    var t := HandleImport(env, ctx, [ImportName("m", "")], t0);
    ImportLastClauseWins(env, ctx, [ImportName("m", "")], t0, 0);
    assert t.imported == {"m"};
    assert ApplyEvents(env, ctx, events, t0) == t by {
      assert events[1..] == [AccessEvent("m", "y")];
    }
  }

  /** What analysing `import m` and then `m.y` in `app/b.py` records. */
  lemma ExtendFacts(m: seq<Node>, b: seq<Node>)
    requires b == [Import([ImportName("m", "")]), Expr(Attribute(Name("m"), "y"))]
    ensures var env := Project([], m, b);
      ScanFile(env, DirContext(env, AppDir), b, NoFacts) == Facts({"m"}, map[], {Access("m", "y", Some("m.py"))})
  {
    var env := Project([], m, b);
    AppContext(env);
    ExtendEvents(b);
    ExtendTables(m, b);
    var events := TopLevelEvents(b);
    var t := ApplyEvents(env, Context("app", [], ["b.py"]), events, ImportTables(map[], {}, map[]));
    assert AttributeAccesses(events, t.aliases) == {Access("m", "y", Some("m.py"))} by {
      assert events[1] == AccessEvent("m", "y");
      assert Access("m", "y", Some("m.py")) in AttributeAccesses(events, t.aliases);
    }
  }

  /** `__all__ = ["x"]` reads as the single entry `"x"`. */
  lemma DeclaresX(m: seq<Node>)
    requires m == [Assign([Name("__all__")], List([Constant(Str("x"))]))]
    ensures FindExports(m) == Success(Some([Value(Str("x"))]))
  {
    assert Stops(m[0]);
    assert ElementValues([Constant(Str("x"))]).value == [Value(Str("x"))];
  }

  /** The check of a module declaring `__all__ = ["x"]` on which `y` is accessed. */
  lemma ExtendBody(m: seq<Node>)
    requires m == [Assign([Name("__all__")], List([Constant(Str("x"))]))]
    ensures var f := Facts({"m"}, map[], {Access("m", "y", Some("m.py"))});
      CheckBody(f, ("m", "m.py"), m) == Success(Some(Report("m", "m.py", true, {Value(Str("y"))})))
  {
    var f := Facts({"m"}, map[], {Access("m", "y", Some("m.py"))});
    DeclaresX(m);
    var declared := Declared(Some([Value(Str("x"))]));
    assert declared == {Value(Str("x"))};
    var observed := Observed(f, ("m", "m.py"));
    assert observed == {Value(Str("y"))} by {
      assert Value(Str("y")) in observed;
    }
    assert (declared + observed) - {Wildcard} - declared == {Value(Str("y"))};
  }

  /** `m.py` (`m`) declares `__all__ = ["x"]`, and `app/b.py` (`b`) holds `import m` and
      then uses `m.y`: analysing `app/b.py` attributes the access to `m` and `m.py`, and the check
      of `m.py` proposes adding `y` to the existing declaration. */
  lemma ExtendDeclaration(m: seq<Node>, b: seq<Node>)
    requires m == [Assign([Name("__all__")], List([Constant(Str("x"))]))]
    requires b == [Import([ImportName("m", "")]), Expr(Attribute(Name("m"), "y"))]
    ensures var env := Project([], m, b);
      var f := ScanFile(env, DirContext(env, AppDir), b, NoFacts);
      && ("m", "m.py") in ModulesToCheck(f)
      && CheckModule(env, f, ("m", "m.py")) == Success(Some(Report("m", "m.py", true, {Value(Str("y"))})))
  {
    var env := Project([], m, b);
    var f := Facts({"m"}, map[], {Access("m", "y", Some("m.py"))});
    ExtendFacts(m, b);
    ExtendBody(m);
    assert Access("m", "y", Some("m.py")) in f.accesses;
    MPath();
    CheckReadsBody(env, f, ("m", "m.py"), m);
  }
}
