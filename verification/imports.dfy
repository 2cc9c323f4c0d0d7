/** The import handlers `handleImport` and `handleImportFrom`
    (import-analyzer.py:155-210): they fill the file's alias table and the project-wide
    tables of imported names. */
module Imports {
  import opened Results
  import opened Syntax
  import opened Resolver

  /** What a local alias stands for: the qualified name it was imported as, and the
      file that name resolved to, if any. */
  datatype Binding = Binding(qualified: string, path: Option<string>)

  /** A from-import source: the module as written and the path it resolved to. */
  type ModuleKey = (string, Option<string>)

  /** The state the import handlers update: the current file's alias table, and the
      project-wide set of directly imported names and names imported from each module. */
  datatype ImportTables = ImportTables(
    aliases: map<string, Binding>,
    imported: set<string>,
    importedFrom: map<ModuleKey, set<string>>)

  /** The local name an import clause binds: the alias if one is given, otherwise the
      name as written — for `import a.b` that is the whole `a.b`. */
  function LocalName(n: ImportName): string
  {
    if n.asname != "" then n.asname else n.name
  }

  // ---------------------------------------------------------------------------
  // Last write wins: the alias table after a sequence of (possibly skipped) writes.

  /** Writing each present `(alias, binding)` pair in order, later writes overwriting. */
  function Overwrite(m: map<string, Binding>, ws: seq<Option<(string, Binding)>>): map<string, Binding>
    decreases |ws|
  {
    if ws == [] then m
    else
      var m' := match ws[0] case None => m case Some(w) => m[w.0 := w.1];
      Overwrite(m', ws[1..])
  }

  /** Write `i` is present and no later write targets the same alias. */
  predicate LastWrite(ws: seq<Option<(string, Binding)>>, i: int)
    requires 0 <= i < |ws|
  {
    ws[i].Some? && forall j :: i < j < |ws| && ws[j].Some? ==> ws[j].value.0 != ws[i].value.0
  }

  /** After the writes, an alias is bound iff it was bound before or some write targets it. */
  lemma {:induction false} OverwriteKeys(m: map<string, Binding>, ws: seq<Option<(string, Binding)>>, k: string)
    ensures k in Overwrite(m, ws) <==> k in m || exists i :: 0 <= i < |ws| && ws[i].Some? && ws[i].value.0 == k
    decreases |ws|
  {
    if ws != [] {
      var m' := match ws[0] case None => m case Some(w) => m[w.0 := w.1];
      OverwriteKeys(m', ws[1..], k);
      if exists i :: 0 <= i < |ws[1..]| && ws[1..][i].Some? && ws[1..][i].value.0 == k {
        var i :| 0 <= i < |ws[1..]| && ws[1..][i].Some? && ws[1..][i].value.0 == k;
        assert ws[i + 1] == ws[1..][i];
      }
      if exists i :: 0 <= i < |ws| && ws[i].Some? && ws[i].value.0 == k {
        var i :| 0 <= i < |ws| && ws[i].Some? && ws[i].value.0 == k;
        if i > 0 {
          assert ws[1..][i - 1] == ws[i];
        }
      }
    }
  }

  /** The last write to an alias decides its binding. */
  lemma {:induction false} OverwriteLastWins(m: map<string, Binding>, ws: seq<Option<(string, Binding)>>, i: int)
    requires 0 <= i < |ws| && LastWrite(ws, i)
    ensures ws[i].value.0 in Overwrite(m, ws)
    ensures Overwrite(m, ws)[ws[i].value.0] == ws[i].value.1
    decreases |ws|
  {
    var m' := match ws[0] case None => m case Some(w) => m[w.0 := w.1];
    if i == 0 {
      OverwriteUntouched(m', ws[1..], ws[0].value.0);
    } else {
      assert LastWrite(ws[1..], i - 1) by {
        assert ws[1..][i - 1] == ws[i];
        forall j | i - 1 < j < |ws[1..]| && ws[1..][j].Some? ensures ws[1..][j].value.0 != ws[i].value.0 {
          assert ws[1..][j] == ws[j + 1];
        }
      }
      OverwriteLastWins(m', ws[1..], i - 1);
      assert ws[1..][i - 1] == ws[i];
    }
  }

  /** An alias no write targets keeps its binding. */
  lemma {:induction false} OverwriteUntouched(m: map<string, Binding>, ws: seq<Option<(string, Binding)>>, k: string)
    requires k in m
    requires forall i :: 0 <= i < |ws| && ws[i].Some? ==> ws[i].value.0 != k
    ensures k in Overwrite(m, ws) && Overwrite(m, ws)[k] == m[k]
    decreases |ws|
  {
    if ws != [] {
      var m' := match ws[0] case None => m case Some(w) => m[w.0 := w.1];
      forall i | 0 <= i < |ws[1..]| && ws[1..][i].Some? ensures ws[1..][i].value.0 != k {
        assert ws[1..][i] == ws[i + 1];
      }
      OverwriteUntouched(m', ws[1..], k);
    }
  }

  /** Every binding after the writes is either an untouched old binding or one of the
      written ones. */
  lemma {:induction false} OverwriteOrigin(m: map<string, Binding>, ws: seq<Option<(string, Binding)>>, k: string)
    requires k in Overwrite(m, ws)
    ensures (k in m && Overwrite(m, ws)[k] == m[k])
      || exists i :: 0 <= i < |ws| && ws[i] == Some((k, Overwrite(m, ws)[k]))
    decreases |ws|
  {
    if ws != [] {
      var m' := match ws[0] case None => m case Some(w) => m[w.0 := w.1];
      OverwriteOrigin(m', ws[1..], k);
      var v := Overwrite(m, ws)[k];
      if exists i :: 0 <= i < |ws[1..]| && ws[1..][i] == Some((k, v)) {
        var i :| 0 <= i < |ws[1..]| && ws[1..][i] == Some((k, v));
        assert ws[i + 1] == Some((k, v));
      } else if ws[0].Some? && ws[0].value.0 == k {
        assert ws[0] == Some((k, v));
      }
    }
  }

  // ---------------------------------------------------------------------------
  // `import a.b [as c]`

  /** The alias writes of an `import` statement, one per clause. */
  function ImportWrites(env: Env, ctx: Context, names: seq<ImportName>): (ws: seq<Option<(string, Binding)>>)
    ensures |ws| == |names|
    ensures forall i :: 0 <= i < |names| ==>
      ws[i] == Some((LocalName(names[i]), Binding(names[i].name, Resolve(env, names[i].name, ctx))))
  {
    seq(|names|, i requires 0 <= i < |names| =>
      Some((LocalName(names[i]), Binding(names[i].name, Resolve(env, names[i].name, ctx)))))
  }

  /** `handleImport`: each clause binds its local name to the full dotted name and that
      name's resolution, later clauses overwriting earlier ones, and adds the name to the
      project-wide imported set. The imported-from table is not touched. */
  function HandleImport(env: Env, ctx: Context, names: seq<ImportName>, t: ImportTables): (r: ImportTables)
    ensures r.importedFrom == t.importedFrom
  {
    ImportTables(
      Overwrite(t.aliases, ImportWrites(env, ctx, names)),
      t.imported + set i | 0 <= i < |names| :: names[i].name,
      t.importedFrom)
  }

  /** Clause `i` is the last one in `names` that binds its local name. */
  predicate LastBinder(names: seq<ImportName>, i: int)
    requires 0 <= i < |names|
  {
    forall j :: i < j < |names| ==> LocalName(names[j]) != LocalName(names[i])
  }

  /** Which aliases an `import` statement leaves bound: the old ones plus every clause's
      local name, the ones no clause binds keeping their binding; every clause's name
      joins the project-wide imported set. */
  lemma ImportBoundAliases(env: Env, ctx: Context, names: seq<ImportName>, t: ImportTables)
    ensures var r := HandleImport(env, ctx, names, t);
      forall k :: k in r.aliases <==> k in t.aliases || exists i :: 0 <= i < |names| && LocalName(names[i]) == k
    ensures var r := HandleImport(env, ctx, names, t);
      forall k :: k in t.aliases && (forall i :: 0 <= i < |names| ==> LocalName(names[i]) != k) ==>
        k in r.aliases && r.aliases[k] == t.aliases[k]
    ensures var r := HandleImport(env, ctx, names, t);
      forall x :: x in r.imported <==> x in t.imported || exists i :: 0 <= i < |names| && names[i].name == x
  {
    var ws := ImportWrites(env, ctx, names);
    forall k {
      OverwriteKeys(t.aliases, ws, k);
    }
    forall k | k in t.aliases && (forall i :: 0 <= i < |names| ==> LocalName(names[i]) != k) {
      OverwriteUntouched(t.aliases, ws, k);
    }
  }

  /** In an `import` statement the last clause binding a local name decides it: the full
      dotted name as written and that name's resolution. */
  lemma ImportLastClauseWins(env: Env, ctx: Context, names: seq<ImportName>, t: ImportTables, i: int)
    requires 0 <= i < |names| && LastBinder(names, i)
    ensures var r := HandleImport(env, ctx, names, t);
      LocalName(names[i]) in r.aliases &&
      r.aliases[LocalName(names[i])] == Binding(names[i].name, Resolve(env, names[i].name, ctx))
  {
    OverwriteLastWins(t.aliases, ImportWrites(env, ctx, names), i);
  }

  // ---------------------------------------------------------------------------
  // `from m import n [as c]`

  /** The qualified name `from m import n` refers to. */
  function Qualified(m: string, n: string): string
  {
    m + "." + n
  }

  /** The alias writes of `from m import ...`: a clause with an empty name is skipped. */
  function FromWrites(env: Env, ctx: Context, m: string, names: seq<ImportName>): (ws: seq<Option<(string, Binding)>>)
    ensures |ws| == |names|
    ensures forall i :: 0 <= i < |names| ==>
      ws[i] == if names[i].name == "" then None
               else Some((LocalName(names[i]), Binding(Qualified(m, names[i].name), Resolve(env, Qualified(m, names[i].name), ctx))))
  {
    seq(|names|, i requires 0 <= i < |names| =>
      if names[i].name == "" then None
      else Some((LocalName(names[i]), Binding(Qualified(m, names[i].name), Resolve(env, Qualified(m, names[i].name), ctx)))))
  }

  /** `handleImportFrom`: nothing for a module-less (relative) import; otherwise the
      module's entry, keyed by the module and its own resolution, is created if needed and
      receives every non-empty clause name (`*` included), and each such clause binds its
      local name to `module.name` with that name's resolution. */
  function HandleImportFrom(env: Env, ctx: Context, source: Option<string>, names: seq<ImportName>, t: ImportTables): (r: ImportTables)
    ensures source.None? ==> r == t
    ensures r.imported == t.imported
    ensures source.Some? ==> (source.value, Resolve(env, source.value, ctx)) in r.importedFrom
  {
    match source
    case None => t
    case Some(m) =>
      var key := (m, Resolve(env, m, ctx));
      var entry := if key in t.importedFrom then t.importedFrom[key] else {};
      ImportTables(
        Overwrite(t.aliases, FromWrites(env, ctx, m, names)),
        t.imported,
        t.importedFrom[key := entry + set i | 0 <= i < |names| && names[i].name != "" :: names[i].name])
  }

  /** Clause `i` has a name and is the last such clause binding its local name. */
  predicate LastFromBinder(names: seq<ImportName>, i: int)
    requires 0 <= i < |names|
  {
    names[i].name != "" &&
    forall j :: i < j < |names| && names[j].name != "" ==> LocalName(names[j]) != LocalName(names[i])
  }

  /** What `from m import ...` does to the imported-from table: the module's entry
      gains exactly the non-empty clause names and no other entry changes. */
  lemma FromImportEntry(env: Env, ctx: Context, m: string, names: seq<ImportName>, t: ImportTables)
    ensures var r := HandleImportFrom(env, ctx, Some(m), names, t);
      var key := (m, Resolve(env, m, ctx));
      && r.importedFrom.Keys == t.importedFrom.Keys + {key}
      && (forall k :: k in t.importedFrom && k != key ==> r.importedFrom[k] == t.importedFrom[k])
      && (forall x :: x in r.importedFrom[key] <==>
            (key in t.importedFrom && x in t.importedFrom[key]) ||
            exists i :: 0 <= i < |names| && names[i].name == x && x != "")
  {
  }

  /** Which aliases `from m import ...` leaves bound: the old ones plus the local name of
      every clause with a name; the ones no such clause binds keep their binding. */
  lemma FromImportBoundAliases(env: Env, ctx: Context, m: string, names: seq<ImportName>, t: ImportTables)
    ensures var r := HandleImportFrom(env, ctx, Some(m), names, t);
      forall k :: k in r.aliases <==>
        k in t.aliases || exists i :: 0 <= i < |names| && names[i].name != "" && LocalName(names[i]) == k
    ensures var r := HandleImportFrom(env, ctx, Some(m), names, t);
      forall k :: k in t.aliases && (forall i :: 0 <= i < |names| && names[i].name != "" ==> LocalName(names[i]) != k) ==>
        k in r.aliases && r.aliases[k] == t.aliases[k]
  {
    var ws := FromWrites(env, ctx, m, names);
    forall k {
      OverwriteKeys(t.aliases, ws, k);
    }
    forall k | k in t.aliases && (forall i :: 0 <= i < |names| && names[i].name != "" ==> LocalName(names[i]) != k) {
      OverwriteUntouched(t.aliases, ws, k);
    }
  }

  /** In `from m import ...` the last named clause binding a local name decides it:
      `m.name` and the resolution of `m.name` (not of `m`). */
  lemma FromImportLastClauseWins(env: Env, ctx: Context, m: string, names: seq<ImportName>, t: ImportTables, i: int)
    requires 0 <= i < |names| && LastFromBinder(names, i)
    ensures var r := HandleImportFrom(env, ctx, Some(m), names, t);
      LocalName(names[i]) in r.aliases &&
      r.aliases[LocalName(names[i])] == Binding(Qualified(m, names[i].name), Resolve(env, Qualified(m, names[i].name), ctx))
  {
    OverwriteLastWins(t.aliases, FromWrites(env, ctx, m, names), i);
  }

  /** One recorded event: an import goes to its handler, an attribute access leaves the
      tables alone. */
  function ApplyEvent(env: Env, ctx: Context, ev: Event, t: ImportTables): ImportTables
  {
    match ev
    case ImportEvent(names) => HandleImport(env, ctx, names, t)
    case ImportFromEvent(source, names) => HandleImportFrom(env, ctx, source, names, t)
    case AccessEvent(_, _) => t
  }

  /** Replaying a file's recorded events in order through the two handlers; attribute
      accesses leave the tables alone. */
  function ApplyEvents(env: Env, ctx: Context, evs: seq<Event>, t: ImportTables): (r: ImportTables)
    ensures (forall i :: 0 <= i < |evs| ==> evs[i].AccessEvent?) ==> r == t
    decreases |evs|
  {
    if evs == [] then t
    else ApplyEvents(env, ctx, evs[1..], ApplyEvent(env, ctx, evs[0], t))
  }

  /** Every project-wide fact of `t` is also in `u`: its imported names, and each of its
      imported-from entries with all the names recorded there. */
  predicate ProjectWithin(t: ImportTables, u: ImportTables)
  {
    t.imported <= u.imported &&
    forall k :: k in t.importedFrom ==> k in u.importedFrom && t.importedFrom[k] <= u.importedFrom[k]
  }

  /** A handler only adds to the project-wide tables. */
  lemma ApplyEventGrows(env: Env, ctx: Context, ev: Event, t: ImportTables)
    ensures ProjectWithin(t, ApplyEvent(env, ctx, ev, t))
  {
    if ev.ImportFromEvent? && ev.source.Some? {
      FromImportEntry(env, ctx, ev.source.value, ev.names, t);
    }
  }

  /** Replaying a file's events only adds to the project-wide tables. */
  lemma {:induction false} ApplyEventsGrows(env: Env, ctx: Context, evs: seq<Event>, t: ImportTables)
    ensures ProjectWithin(t, ApplyEvents(env, ctx, evs, t))
    decreases |evs|
  {
    if evs != [] {
      var t' := ApplyEvent(env, ctx, evs[0], t);
      ApplyEventGrows(env, ctx, evs[0], t);
      ApplyEventsGrows(env, ctx, evs[1..], t');
    }
  }

  /** The alias table a handler leaves depends only on the alias table before it, and
      more project-wide facts before it give more after it. */
  lemma ApplyEventWithin(env: Env, ctx: Context, ev: Event, t: ImportTables, u: ImportTables)
    requires t.aliases == u.aliases && ProjectWithin(t, u)
    ensures ApplyEvent(env, ctx, ev, t).aliases == ApplyEvent(env, ctx, ev, u).aliases
    ensures ProjectWithin(ApplyEvent(env, ctx, ev, t), ApplyEvent(env, ctx, ev, u))
  {
    if ev.ImportFromEvent? && ev.source.Some? {
      FromImportEntry(env, ctx, ev.source.value, ev.names, t);
      FromImportEntry(env, ctx, ev.source.value, ev.names, u);
    }
  }

  /** So a file's events, replayed from any project-wide tables, leave the same alias
      table and contribute at least what they contribute from empty ones. */
  lemma {:induction false} ApplyEventsWithin(env: Env, ctx: Context, evs: seq<Event>, t: ImportTables, u: ImportTables)
    requires t.aliases == u.aliases && ProjectWithin(t, u)
    ensures ApplyEvents(env, ctx, evs, t).aliases == ApplyEvents(env, ctx, evs, u).aliases
    ensures ProjectWithin(ApplyEvents(env, ctx, evs, t), ApplyEvents(env, ctx, evs, u))
    decreases |evs|
  {
    if evs != [] {
      ApplyEventWithin(env, ctx, evs[0], t, u);
      ApplyEventsWithin(env, ctx, evs[1..], ApplyEvent(env, ctx, evs[0], t), ApplyEvent(env, ctx, evs[0], u));
    }
  }

  /** Every project-wide fact of `t` comes from `x` or from `s`: each imported name, each
      imported-from entry and each name recorded in one is found in one of the two. */
  ghost predicate ProjectFrom(t: ImportTables, x: ImportTables, s: ImportTables)
  {
    && (forall n :: n in t.imported ==> n in x.imported || n in s.imported)
    && (forall k :: k in t.importedFrom ==> k in x.importedFrom || k in s.importedFrom)
    && (forall k, n :: k in t.importedFrom && n in t.importedFrom[k] ==>
          (k in x.importedFrom && n in x.importedFrom[k]) || (k in s.importedFrom && n in s.importedFrom[k]))
  }

  /** A handler adds to the tables only what it adds to any tables with the same alias
      table. */
  lemma ApplyEventFrom(env: Env, ctx: Context, ev: Event, t: ImportTables, x: ImportTables, s: ImportTables)
    requires t.aliases == s.aliases && ProjectFrom(t, x, s)
    ensures ProjectFrom(ApplyEvent(env, ctx, ev, t), x, ApplyEvent(env, ctx, ev, s))
  {
    if ev.ImportFromEvent? && ev.source.Some? {
      FromImportEntry(env, ctx, ev.source.value, ev.names, t);
      FromImportEntry(env, ctx, ev.source.value, ev.names, s);
    }
  }

  /** So everything a file's events leave in the project-wide tables was there before or
      is recorded when the same events are replayed from empty tables. */
  lemma {:induction false} ApplyEventsFrom(env: Env, ctx: Context, evs: seq<Event>, t: ImportTables, x: ImportTables, s: ImportTables)
    requires t.aliases == s.aliases && ProjectFrom(t, x, s)
    ensures ProjectFrom(ApplyEvents(env, ctx, evs, t), x, ApplyEvents(env, ctx, evs, s))
    decreases |evs|
  {
    if evs != [] {
      var t' := ApplyEvent(env, ctx, evs[0], t);
      var s' := ApplyEvent(env, ctx, evs[0], s);
      ApplyEventFrom(env, ctx, evs[0], t, x, s);
      ApplyEventAliases(env, ctx, evs[0], t, s);
      ApplyEventsFrom(env, ctx, evs[1..], t', x, s');
    }
  }

  /** The alias table a handler leaves depends only on the alias table before it. */
  lemma ApplyEventAliases(env: Env, ctx: Context, ev: Event, t: ImportTables, s: ImportTables)
    requires t.aliases == s.aliases
    ensures ApplyEvent(env, ctx, ev, t).aliases == ApplyEvent(env, ctx, ev, s).aliases
  {
  }

  /** Alias transparency: `import X as Y` binds `Y` to exactly what `import X` binds `X` to. */
  lemma AliasTransparent(env: Env, ctx: Context, x: string, y: string, t: ImportTables)
    requires y != ""
    ensures var aliased := HandleImport(env, ctx, [ImportName(x, y)], t).aliases;
      var plain := HandleImport(env, ctx, [ImportName(x, "")], t).aliases;
      y in aliased && x in plain && aliased[y] == plain[x]
  {
    ImportLastClauseWins(env, ctx, [ImportName(x, y)], t, 0);
    ImportLastClauseWins(env, ctx, [ImportName(x, "")], t, 0);
  }
}
