/** Aggregation and reconciliation (import-analyzer.py:372-433): the project-wide facts
    gathered by the scan are turned into the set of modules to check, and each such
    module's declared `__all__` is compared with the names other files use from it. */
module Reconcile {
  import opened Results
  import opened Strings
  import opened Paths
  import opened Syntax
  import opened Resolver
  import opened Imports
  import opened Attribution
  import opened Exports
  import opened Ordering

  /** What the scan leaves behind for the reconciler: every imported dotted name, the
      names imported per (module, resolved path), and every attributed access. */
  datatype Facts = Facts(imported: set<string>, importedFrom: map<ModuleKey, set<string>>, accesses: set<Access>)

  /** Why a run ends early. In the analyzer each is an uncaught exception. */
  datatype Abort =
    | MissingFile(path: string)                   // `open` on a file that does not exist
    | BadExports(path: string, why: ExportError)  // an `__all__` the analyzer cannot read
    | MissingManifest(path: string)               // no `pyproject.toml` at the root

  /** The modules to check (lines 372-382): every (module, path) pair with a resolved
      path that was imported from, or on which an attribute was accessed. Unresolved
      references are never checked. */
  function ModulesToCheck(f: Facts): (r: set<Key>)
    ensures forall k :: k in r <==>
      (k.0, Some(k.1)) in f.importedFrom || exists a :: a in f.accesses && a.qualified == k.0 && a.path == Some(k.1)
  {
    (set mk | mk in f.importedFrom && mk.1.Some? :: (mk.0, mk.1.value))
    + (set a | a in f.accesses && a.path.Some? :: (a.qualified, a.path.value))
  }

  /** The attributes accessed on any module resolving to `path` (lines 385-393). The
      grouping is by path alone, whatever name the module was reached by. */
  function AttrsByPath(accesses: set<Access>, path: string): set<string>
  {
    set a | a in accesses && a.path == Some(path) :: a.attr
  }

  /** Python strings as set entries. */
  function Strs(names: set<string>): (r: set<Entry>)
    ensures forall x :: x in r <==> x.Value? && x.lit.Str? && x.lit.s in names
  {
    set n | n in names :: Value(Str(n))
  }

  /** The names other files use from module `k` (lines 414-419): the names imported
      from this very (module, path) pair plus every attribute accessed on the path. */
  function Observed(f: Facts, k: Key): (r: set<Entry>)
    ensures forall x :: x in r <==> (x.Value? && x.lit.Str? &&
      (((k.0, Some(k.1)) in f.importedFrom && x.lit.s in f.importedFrom[(k.0, Some(k.1))])
       || exists a :: a in f.accesses && a.path == Some(k.1) && a.attr == x.lit.s))
  {
    var names1 := if (k.0, Some(k.1)) in f.importedFrom then f.importedFrom[(k.0, Some(k.1))] else {};
    Strs(names1) + Strs(AttrsByPath(f.accesses, k.1))
  }

  /** The entry `"*"`: the wildcard of `from m import *`, removed before the comparison. */
  const Wildcard: Entry := Value(Str("*"))

  /** What to print for a module: whether `__all__` exists and is extended
      (`ADD to __all__:`) or is created (`__all__ =`), and the names to add. */
  datatype Verdict = Verdict(extend: bool, add: set<Entry>)

  /** A name the module's declaration is missing: used elsewhere, not declared, and
      not the wildcard of `from m import *`. */
  predicate Undeclared(x: Entry, declared: set<Entry>, observed: set<Entry>)
  {
    x in observed && x !in declared && x != Wildcard
  }

  /** Exactly one name is missing from the declaration. */
  ghost predicate OneUndeclared(declared: set<Entry>, observed: set<Entry>)
  {
    exists x :: Undeclared(x, declared, observed) && forall y :: Undeclared(y, declared, observed) ==> y == x
  }

  /** Lines 412-433 as written: the union with the wildcard removed is compared with
      the declaration by size alone. A report lists exactly the missing names, but with
      `"*"` declared the wildcard's slot absorbs one of them: the module goes unreported
      when exactly one name is missing (see `WildcardHidesName`), and is reported with no
      names when none is (see `WildcardReportsNothing`). */
  function DecideAsWritten(declared: set<Entry>, observed: set<Entry>): (r: Option<Verdict>)
    ensures r.Some? ==> r.value.extend == (declared != {})
    ensures r.Some? ==> forall x :: x in r.value.add <==> Undeclared(x, declared, observed)
    ensures Wildcard !in declared ==> (r.None? <==> forall x :: !Undeclared(x, declared, observed))
    ensures Wildcard in declared ==> (r.None? <==> OneUndeclared(declared, observed))
  {
    var all := (declared + observed) - {Wildcard};
    AsWrittenCount(declared, observed);
    if |all| == |declared| then None
    else Some(Verdict(declared != {}, all - declared))
  }

  /** The sizes behind the comparison: the union with the wildcard removed is the
      declaration, less the wildcard if declared, plus the missing names. */
  lemma AsWrittenCount(declared: set<Entry>, observed: set<Entry>)
    ensures var all := (declared + observed) - {Wildcard};
      |all| == |declared| - (if Wildcard in declared then 1 else 0) + |all - declared|
    ensures var all := (declared + observed) - {Wildcard};
      forall x :: x in all - declared <==> Undeclared(x, declared, observed)
    ensures var all := (declared + observed) - {Wildcard};
      |all - declared| == 0 <==> forall x :: !Undeclared(x, declared, observed)
    ensures var all := (declared + observed) - {Wildcard};
      |all - declared| == 1 <==> OneUndeclared(declared, observed)
  {
    var all := (declared + observed) - {Wildcard};
    var u := all - declared;
    var kept := declared - {Wildcard};
    assert all == kept + u;
    assert kept * u == {};
    assert |all| == |kept| + |u|;
    MissingCount(declared, observed, u);
  }

  /** A set holding exactly the missing names is empty when none is missing and has one
      element when exactly one is. */
  lemma MissingCount(declared: set<Entry>, observed: set<Entry>, u: set<Entry>)
    requires forall x :: x in u <==> Undeclared(x, declared, observed)
    ensures |u| == 0 <==> forall x :: !Undeclared(x, declared, observed)
    ensures |u| == 1 <==> OneUndeclared(declared, observed)
  {
    if |u| == 1 {
      var x :| x in u;
      assert u - {x} == {} by { assert |u - {x}| == 0; }
      forall y | Undeclared(y, declared, observed)
        ensures y == x
      {
        assert y in u;
      }
      assert Undeclared(x, declared, observed);
    }
    if OneUndeclared(declared, observed) {
      var x :| Undeclared(x, declared, observed) && forall y :: Undeclared(y, declared, observed) ==> y == x;
      forall y | y in u
        ensures y == x
      {
        assert Undeclared(y, declared, observed);
      }
      assert u == {x};
    }
    if |u| != 0 {
      var x :| x in u;
    }
  }

  /** The comparison the code intends: a module is reported exactly when some used
      name is missing from its declaration, and the report lists exactly those names. */
  function Decide(declared: set<Entry>, observed: set<Entry>): (r: Option<Verdict>)
    ensures r.Some? <==> exists x :: Undeclared(x, declared, observed)
    ensures r.Some? ==> r.value.extend == (declared != {})
    ensures r.Some? ==> forall x :: x in r.value.add <==> Undeclared(x, declared, observed)
  {
    var add := (declared + observed) - {Wildcard} - declared;
    assert forall x :: Undeclared(x, declared, observed) ==> x in add;
    if add == {} then None
    else
      var w :| w in add;
      assert Undeclared(w, declared, observed);
      Some(Verdict(declared != {}, add))
  }

  /** Using more names never shrinks a report: every name missing before is still
      missing and still reported. */
  lemma DecideMonotone(declared: set<Entry>, observed: set<Entry>, more: set<Entry>)
    requires observed <= more
    ensures Decide(declared, observed).Some? ==> (Decide(declared, more).Some? &&
      Decide(declared, observed).value.add <= Decide(declared, more).value.add)
  {
    if Decide(declared, observed).Some? {
      var x :| Undeclared(x, declared, observed);
      assert Undeclared(x, declared, more);
    }
  }

  /** A subset of the same size is the whole set. */
  lemma {:induction false} SameSizeSubset<T>(a: set<T>, b: set<T>)
    requires a <= b && |a| == |b|
    ensures a == b
  {
    if a != b {
      var x :| x in b && x !in a;
      assert a <= b - {x};
      SubsetSize(a, b - {x});
    }
  }

  lemma {:induction false} SubsetSize<T>(a: set<T>, b: set<T>)
    requires a <= b
    ensures |a| <= |b|
    decreases |b|
  {
    if a != {} {
      var x :| x in a;
      SubsetSize(a - {x}, b - {x});
    }
  }

  /** Without a wildcard in the declaration the size comparison is exact: the code as
      written decides as intended. */
  lemma {:induction false} DecideAgreesWithoutWildcard(declared: set<Entry>, observed: set<Entry>)
    requires Wildcard !in declared
    ensures DecideAsWritten(declared, observed) == Decide(declared, observed)
  {
    var all := (declared + observed) - {Wildcard};
    assert declared <= all;
    if |all| == |declared| {
      SameSizeSubset(declared, all);
      assert all - declared == {};
    } else {
      assert all != declared;
      var x :| x in all && x !in declared;
      assert x in all - declared;
    }
  }

  /** With `"*"` declared, one used name goes unreported: `__all__ = ["*"]` and a use
      of `x` compare as equal in size. */
  lemma WildcardHidesName()
    ensures DecideAsWritten({Wildcard}, {Value(Str("x"))}).None?
    ensures Decide({Wildcard}, {Value(Str("x"))}) == Some(Verdict(true, {Value(Str("x"))}))
  {
    assert ({Wildcard} + {Value(Str("x"))}) - {Wildcard} == {Value(Str("x"))};
    assert ({Wildcard} + {Value(Str("x"))}) - {Wildcard} - {Wildcard} == {Value(Str("x"))};
  }

  /** With `"*"` declared and nothing used, an empty addition is reported. */
  lemma WildcardReportsNothing()
    ensures DecideAsWritten({Wildcard}, {}) == Some(Verdict(true, {}))
    ensures Decide({Wildcard}, {}).None?
  {
    assert ({Wildcard} + {}) - {Wildcard} == {};
  }

  /** The declared names of a found export list (`None` declares nothing). */
  function Declared(found: Option<seq<Entry>>): (r: set<Entry>)
    ensures found.None? ==> r == {}
    ensures found.Some? ==> forall x :: x in r <==> x in found.value
  {
    match found
    case None => {}
    case Some(vs) => set x | x in vs
  }

  /** A line of output: the module file and what to do to its `__all__`. */
  datatype Report = Report(source: string, path: string, extend: bool, names: set<Entry>)

  /** Checking a module whose text parsed (lines 411-433): read its declaration and
      report the names it is missing, if any. */
  function CheckBody(f: Facts, k: Key, body: seq<Node>): (r: Result<Option<Report>, Abort>)
    ensures r.Failure? <==> FindExports(body).Failure?
    ensures r.Failure? ==> r.error == BadExports(k.1, FindExports(body).error)
    ensures r.Success? ==> (r.value.Some? <==>
      exists x :: Undeclared(x, Declared(FindExports(body).value), Observed(f, k)))
    ensures r.Success? && r.value.Some? ==>
      var rep := r.value.value;
      var declared := Declared(FindExports(body).value);
      KeyOf(rep) == k && rep.extend == (declared != {}) &&
      forall x :: x in rep.names <==> Undeclared(x, declared, Observed(f, k))
  {
    match FindExports(body)
    case Failure(e) => Failure(BadExports(k.1, e))
    case Success(found) =>
      match Decide(Declared(found), Observed(f, k))
      case None => Success(None)
      case Some(v) => Success(Some(Report(k.0, k.1, v.extend, v.add)))
  }

  /** Lines 411-433 exactly as written: the same reading of the declaration, decided by
      the size comparison. A report names exactly the missing names; a module declaring
      `"*"` goes unreported exactly when one name is missing. */
  function CheckBodyAsWritten(f: Facts, k: Key, body: seq<Node>): (r: Result<Option<Report>, Abort>)
    ensures r.Failure? <==> FindExports(body).Failure?
    ensures r.Failure? ==> r.error == BadExports(k.1, FindExports(body).error)
    ensures r.Success? && r.value.Some? ==>
      var rep := r.value.value;
      var declared := Declared(FindExports(body).value);
      KeyOf(rep) == k && rep.extend == (declared != {}) &&
      forall x :: x in rep.names <==> Undeclared(x, declared, Observed(f, k))
    ensures r.Success? && Wildcard !in Declared(FindExports(body).value) ==>
      (r.value.None? <==> forall x :: !Undeclared(x, Declared(FindExports(body).value), Observed(f, k)))
    ensures r.Success? && Wildcard in Declared(FindExports(body).value) ==>
      (r.value.None? <==> OneUndeclared(Declared(FindExports(body).value), Observed(f, k)))
  {
    match FindExports(body)
    case Failure(e) => Failure(BadExports(k.1, e))
    case Success(found) =>
      match DecideAsWritten(Declared(found), Observed(f, k))
      case None => Success(None)
      case Some(v) => Success(Some(Report(k.0, k.1, v.extend, v.add)))
  }

  /** Unless the module declares `"*"`, checking it as written and as intended agree. */
  lemma CheckBodyAgreesWithoutWildcard(f: Facts, k: Key, body: seq<Node>)
    requires FindExports(body).Success? ==> Wildcard !in Declared(FindExports(body).value)
    ensures CheckBodyAsWritten(f, k, body) == CheckBody(f, k, body)
  {
    if FindExports(body).Success? {
      DecideAgreesWithoutWildcard(Declared(FindExports(body).value), Observed(f, k));
    }
  }

  /** `__all__ = ["*"]` declares the wildcard alone. */
  lemma DeclaresWildcard(body: seq<Node>)
    requires body == [Assign([Name("__all__")], List([Constant(Str("*"))]))]
    ensures FindExports(body) == Success(Some([Wildcard]))
    ensures Declared(Some([Wildcard])) == {Wildcard}
  {
    assert Stops(body[0]);
    assert ElementValues([Constant(Str("*"))]).value == [Wildcard];
  }

  lemma ObservedX(f: Facts)
    requires f == Facts({}, map[("m", Some("m.py")) := {"x"}], {})
    ensures Observed(f, ("m", "m.py")) == {Value(Str("x"))}
  {
    assert Value(Str("x")) in Observed(f, ("m", "m.py"));
  }

  /** A module `m.py` (`body`) declaring `__all__ = ["*"]` from which another file imports
      `x`: the code as written reports nothing, the intended check reports `x` as
      missing. */
  lemma WildcardModuleUnreported(f: Facts, body: seq<Node>)
    requires f == Facts({}, map[("m", Some("m.py")) := {"x"}], {})
    requires body == [Assign([Name("__all__")], List([Constant(Str("*"))]))]
    ensures CheckBodyAsWritten(f, ("m", "m.py"), body) == Success(None)
    ensures CheckBody(f, ("m", "m.py"), body) == Success(Some(Report("m", "m.py", true, {Value(Str("x"))})))
  {
    DeclaresWildcard(body);
    ObservedX(f);
    WildcardHidesName();
  }

  /** Checking one module (lines 396-410). Opening comes before the exclusion checks,
      so a missing file aborts even when the module would have been skipped; an
      excluded path, an excluded top-level directory or a parse failure skip it. */
  function CheckModule(env: Env, f: Facts, k: Key): (r: Result<Option<Report>, Abort>)
    ensures Join(env.root, k.1) !in env.fs.files <==> r == Failure(MissingFile(Join(env.root, k.1)))
    ensures r.Success? && r.value.Some? ==> KeyOf(r.value.value) == k
    ensures r != Success(None) && Join(env.root, k.1) in env.fs.files ==>
      !env.isExcluded(k.1) && SplitOn(k.1, '/')[0] !in env.excludedTop &&
      env.fs.files[Join(env.root, k.1)].Some? && r == CheckBody(f, k, env.fs.files[Join(env.root, k.1)].value)
  {
    var full := Join(env.root, k.1);
    if full !in env.fs.files then Failure(MissingFile(full))
    else if env.isExcluded(k.1) then Success(None)
    else if SplitOn(k.1, '/')[0] in env.excludedTop then Success(None)
    else
      match env.fs.files[full]
      case None => Success(None)
      case Some(body) => CheckBody(f, k, body)
  }

  /** Conversely, a module that exists, parsed and is not excluded is checked on its
      body. */
  lemma CheckReadsBody(env: Env, f: Facts, k: Key, body: seq<Node>)
    requires Join(env.root, k.1) in env.fs.files && env.fs.files[Join(env.root, k.1)] == Some(body)
    requires !env.isExcluded(k.1) && SplitOn(k.1, '/')[0] !in env.excludedTop
    ensures CheckModule(env, f, k) == CheckBody(f, k, body)
  {
  }

  /** Running the checks in order: the reports of the checks that produced one, in
      order, or the first abort. */
  function Collect(outcomes: seq<Result<Option<Report>, Abort>>): (r: Result<seq<Report>, Abort>)
    ensures r.Success? <==> forall i :: 0 <= i < |outcomes| ==> outcomes[i].Success?
    ensures r.Failure? ==> exists i :: (0 <= i < |outcomes| && outcomes[i] == Failure(r.error) &&
      forall j :: 0 <= j < i ==> outcomes[j].Success?)
    ensures r.Success? ==> forall rep :: rep in r.value <==>
      exists i :: 0 <= i < |outcomes| && outcomes[i] == Success(Some(rep))
    decreases |outcomes|
  {
    if outcomes == [] then Success([])
    else
      assert forall i :: 1 <= i < |outcomes| ==> outcomes[i] == outcomes[1..][i - 1];
      match outcomes[0]
      case Failure(e) => Failure(e)
      case Success(o) =>
        match Collect(outcomes[1..])
        case Failure(e) => Failure(e)
        case Success(reps) => Success(if o.Some? then [o.value] + reps else reps)
  }

  /** The key a report is about. */
  function KeyOf(rep: Report): Key
  {
    (rep.source, rep.path)
  }

  /** Reports in strictly increasing key order. */
  predicate SortedReports(reps: seq<Report>)
  {
    forall i, j :: 0 <= i < j < |reps| ==> KeyLess(KeyOf(reps[i]), KeyOf(reps[j]))
  }

  /** Collecting the checks of strictly sorted keys, where each check reports on its
      own key, yields strictly sorted reports. */
  lemma {:induction false} CollectSorted(keys: seq<Key>, outcomes: seq<Result<Option<Report>, Abort>>)
    requires |keys| == |outcomes|
    requires forall i, j :: 0 <= i < j < |keys| ==> KeyLess(keys[i], keys[j])
    requires forall i :: 0 <= i < |outcomes| && outcomes[i].Success? && outcomes[i].value.Some? ==>
      KeyOf(outcomes[i].value.value) == keys[i]
    ensures Collect(outcomes).Success? ==> SortedReports(Collect(outcomes).value)
    decreases |outcomes|
  {
    if outcomes != [] && outcomes[0].Success? {
      var rest := Collect(outcomes[1..]);
      if rest.Success? {
        CollectSorted(keys[1..], outcomes[1..]);
        if outcomes[0].value.Some? {
          var reps := [outcomes[0].value.value] + rest.value;
          forall j | 0 < j < |reps|
            ensures KeyLess(KeyOf(reps[0]), KeyOf(reps[j]))
          {
            assert reps[j] in rest.value;
            var i :| 0 <= i < |outcomes[1..]| && outcomes[1..][i] == Success(Some(reps[j]));
            assert KeyOf(reps[j]) == keys[i + 1];
          }
          assert Collect(outcomes).value == reps;
        }
      }
    }
  }

  /** The checks of the given keys, in order. */
  function Checks(env: Env, f: Facts, keys: seq<Key>): (r: seq<Result<Option<Report>, Abort>>)
    ensures |r| == |keys|
    ensures forall i :: 0 <= i < |keys| ==> r[i] == CheckModule(env, f, keys[i])
  {
    seq(|keys|, i requires 0 <= i < |keys| => CheckModule(env, f, keys[i]))
  }

  /** The reconciliation pass (lines 396-433): every module to check, in sorted order.
      Reports come out sorted by (module, path). */
  function ReconcileProject(env: Env, f: Facts): (r: Result<seq<Report>, Abort>)
    ensures r.Success? ==> SortedReports(r.value)
  {
    var keys := SortedKeys(ModulesToCheck(f));
    CollectSorted(keys, Checks(env, f, keys));
    Collect(Checks(env, f, keys))
  }

  /** Every report of a completed reconciliation is the report of a module to check. */
  lemma ReportsSound(env: Env, f: Facts, rep: Report)
    requires ReconcileProject(env, f).Success? && rep in ReconcileProject(env, f).value
    ensures KeyOf(rep) in ModulesToCheck(f) && CheckModule(env, f, KeyOf(rep)) == Success(Some(rep))
  {
    var keys := SortedKeys(ModulesToCheck(f));
    var outcomes := Checks(env, f, keys);
    assert ReconcileProject(env, f) == Collect(outcomes);
    var i :| 0 <= i < |outcomes| && outcomes[i] == Success(Some(rep));
    var k := keys[i];
    assert k in keys;
    assert CheckModule(env, f, k) == Success(Some(rep));
    assert KeyOf(rep) == k;
  }

  /** Every report of a module to check appears in a completed reconciliation. */
  lemma ReportsComplete(env: Env, f: Facts, rep: Report)
    requires ReconcileProject(env, f).Success?
    requires KeyOf(rep) in ModulesToCheck(f) && CheckModule(env, f, KeyOf(rep)) == Success(Some(rep))
    ensures rep in ReconcileProject(env, f).value
  {
    var keys := SortedKeys(ModulesToCheck(f));
    var outcomes := Checks(env, f, keys);
    var i :| 0 <= i < |keys| && keys[i] == KeyOf(rep);
    assert outcomes[i] == Success(Some(rep));
  }

  /** A completed reconciliation reports on exactly the modules to check whose own
      check reports, with that check's report. */
  lemma ReconcileReports(env: Env, f: Facts)
    ensures var r := ReconcileProject(env, f);
      r.Success? ==> forall rep :: rep in r.value <==>
        KeyOf(rep) in ModulesToCheck(f) && CheckModule(env, f, KeyOf(rep)) == Success(Some(rep))
  {
    var r := ReconcileProject(env, f);
    if r.Success? {
      forall rep
        ensures rep in r.value <==>
          KeyOf(rep) in ModulesToCheck(f) && CheckModule(env, f, KeyOf(rep)) == Success(Some(rep))
      {
        if rep in r.value {
          ReportsSound(env, f, rep);
        }
        if KeyOf(rep) in ModulesToCheck(f) && CheckModule(env, f, KeyOf(rep)) == Success(Some(rep)) {
          ReportsComplete(env, f, rep);
        }
      }
    }
  }

  /** On sorted keys, a failed collection fails at a check all of whose predecessors
      in key order succeeded. */
  lemma CollectFirstAbort(keys: seq<Key>, outcomes: seq<Result<Option<Report>, Abort>>)
    requires |keys| == |outcomes|
    requires forall i, j :: 0 <= i < j < |keys| ==> KeyLess(keys[i], keys[j])
    ensures var r := Collect(outcomes);
      r.Failure? ==> exists i :: (0 <= i < |keys| && outcomes[i] == Failure(r.error) &&
        forall j :: 0 <= j < |keys| && KeyLess(keys[j], keys[i]) ==> outcomes[j].Success?)
  {
    var r := Collect(outcomes);
    if r.Failure? {
      var i :| 0 <= i < |outcomes| && outcomes[i] == Failure(r.error) &&
        forall j :: 0 <= j < i ==> outcomes[j].Success?;
      forall j | 0 <= j < |keys| && KeyLess(keys[j], keys[i])
        ensures outcomes[j].Success?
      {
        if j > i {
          KeyLessAsymmetric(keys[j], keys[i]);
        } else if j == i {
          KeyLessIrreflexive(keys[i]);
        }
      }
    }
  }

  /** Reconciliation completes exactly when no module's check aborts. */
  lemma ReconcileCompletes(env: Env, f: Facts)
    ensures ReconcileProject(env, f).Success? <==>
      forall k :: k in ModulesToCheck(f) ==> CheckModule(env, f, k).Success?
  {
    var keys := SortedKeys(ModulesToCheck(f));
    var outcomes := Checks(env, f, keys);
    assert ReconcileProject(env, f) == Collect(outcomes);
    if ReconcileProject(env, f).Success? {
      forall k | k in ModulesToCheck(f)
        ensures CheckModule(env, f, k).Success?
      {
        var i :| 0 <= i < |keys| && keys[i] == k;
        assert outcomes[i].Success?;
      }
    }
  }

  /** The position, in sorted order, of the check a failed reconciliation stops at. */
  lemma FirstAbortIndex(env: Env, f: Facts) returns (i: int)
    requires ReconcileProject(env, f).Failure?
    ensures var keys := SortedKeys(ModulesToCheck(f));
      0 <= i < |keys| && CheckModule(env, f, keys[i]) == Failure(ReconcileProject(env, f).error) &&
      forall j :: 0 <= j < |keys| && KeyLess(keys[j], keys[i]) ==> CheckModule(env, f, keys[j]).Success?
  {
    var keys := SortedKeys(ModulesToCheck(f));
    var outcomes := Checks(env, f, keys);
    var r := Collect(outcomes);
    CollectFirstAbort(keys, outcomes);
    i :| 0 <= i < |keys| && outcomes[i] == Failure(r.error) &&
      forall j :: 0 <= j < |keys| && KeyLess(keys[j], keys[i]) ==> outcomes[j].Success?;
    assert r == ReconcileProject(env, f);
    assert CheckModule(env, f, keys[i]) == Failure(r.error);
    forall j | 0 <= j < |keys| && KeyLess(keys[j], keys[i]) ensures CheckModule(env, f, keys[j]).Success? {
      assert outcomes[j].Success?;
    }
  }

  /** A failed reconciliation stops with the abort of the first failing module in
      sorted order. */
  lemma ReconcileFirstAbort(env: Env, f: Facts)
    ensures var r := ReconcileProject(env, f);
      r.Failure? ==> exists k :: (k in ModulesToCheck(f) && CheckModule(env, f, k) == Failure(r.error) &&
        forall o :: o in ModulesToCheck(f) && KeyLess(o, k) ==> CheckModule(env, f, o).Success?)
  {
    if ReconcileProject(env, f).Failure? {
      var keys := SortedKeys(ModulesToCheck(f));
      var i := FirstAbortIndex(env, f);
      forall o | o in ModulesToCheck(f) && KeyLess(o, keys[i])
        ensures CheckModule(env, f, o).Success?
      {
        var j :| 0 <= j < |keys| && keys[j] == o;
      }
      assert keys[i] in ModulesToCheck(f);
    }
  }

  /** Every path the facts mention is a file of the project. */
  predicate PathsExist(env: Env, f: Facts)
  {
    (forall mk :: mk in f.importedFrom && mk.1.Some? ==> Join(env.root, mk.1.value) in env.fs.files)
    && (forall a :: a in f.accesses && a.path.Some? ==> Join(env.root, a.path.value) in env.fs.files)
  }

  /** When every recorded path exists, reconciliation never fails on opening a module:
      the only abort left is an unreadable `__all__`. */
  lemma NoMissingModule(env: Env, f: Facts)
    requires PathsExist(env, f)
    ensures var r := ReconcileProject(env, f); r.Failure? ==> r.error.BadExports?
  {
    var r := ReconcileProject(env, f);
    ReconcileFirstAbort(env, f);
    if r.Failure? {
      var k :| k in ModulesToCheck(f) && CheckModule(env, f, k) == Failure(r.error) &&
        forall o :: o in ModulesToCheck(f) && KeyLess(o, k) ==> CheckModule(env, f, o).Success?;
      var full := Join(env.root, k.1);
      assert full in env.fs.files;
      assert CheckModule(env, f, k) == CheckBody(f, k, env.fs.files[full].value);
    }
  }
}
