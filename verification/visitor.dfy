/** The fact extractor: the recursive dispatch over node kinds that collects import
    statements and candidate `name.attr` accesses (import-analyzer.py:212-332), and the
    top-level loop over a module body (import-analyzer.py:341-350). */
module Visitor {
  import opened Results
  import opened Syntax

  /** The events recorded while visiting `n`, in visiting order. Only the children the
      dispatch names are entered; `Missing`, the pass-through kinds and unknown kinds
      record nothing. */
  function Visit(n: Node): seq<Event>
    decreases n
  {
    match n
    case Missing => []
    case Import(names) => [ImportEvent(names)]
    case ImportFrom(m, names) => [ImportFromEvent(m, names)]
    case Name(_) => []
    case Pass => []
    case Break => []
    case Continue => []
    case Delete(_) => []
    case Constant(_) => []
    case JoinedStr(_) => []
    case Slice(_, _, _) => []
    case Global(_) => []
    case Assign(_, v) => Visit(v)
    case AugAssign(t, v) => Visit(t) + Visit(v)
    case Expr(v) => Visit(v)
    case Return(v) => Visit(v)
    case Yield(v) => Visit(v)
    case YieldFrom(v) => Visit(v)
    case Assert(t, m) => Visit(t) + Visit(m)
    case IfExp(t, a, b) => Visit(t) + Visit(a) + Visit(b)
    case FunctionDef(ds, body, decs, _) => VisitList(ds) + VisitList(body) + VisitList(decs)
    case ClassDef(_, _, body, _) => VisitList(body)
    case BoolOp(vs) => VisitList(vs)
    case Subscript(v, s) => Visit(v) + Visit(s)
    case With(items, body) => VisitList(items) + VisitList(body)
    case List(es) => VisitList(es)
    case Tuple(es) => VisitList(es)
    case SetDisplay(es) => VisitList(es)
    case Lambda(_, b) => Visit(b)
    case For(t, it, body, orelse) => Visit(t) + Visit(it) + VisitList(body) + VisitList(orelse)
    case While(t, body, orelse) => Visit(t) + VisitList(body) + VisitList(orelse)
    case BinOp(l, r) => Visit(l) + Visit(r)
    case UnaryOp(o) => Visit(o)
    case Try(body, hs, orelse, fin) => VisitList(body) + VisitList(hs) + VisitList(orelse) + VisitList(fin)
    case ExceptHandler(t, body) => Visit(t) + VisitList(body)
    case Call(f, _, _) => Visit(f)
    case If(t, body, _) => Visit(t) + VisitList(body)
    case Compare(l, cs) => Visit(l) + VisitList(cs)
    case WithItem(c, o) => Visit(c) + Visit(o)
    case Raise(e, _) => Visit(e)
    case Dict(_, _) => []
    case ListComp(_, gs) => VisitList(gs)
    case SetComp(_, gs) => VisitList(gs)
    case GeneratorExp(_, gs) => VisitList(gs)
    case DictComp(_, _, gs) => VisitList(gs)
    case Comprehension(t, it, ifs) => Visit(t) + Visit(it) + VisitList(ifs)
    case Attribute(v, a) => if v.Name? then [AccessEvent(v.id, a)] else Visit(v)
    case AnnAssign(t, a, v) => Visit(t) + Visit(a) + Visit(v)
    case NamedExpr(t, v) => Visit(t) + Visit(v)
    case AsyncFunctionDef(ds, body, decs, _) => VisitList(ds) + VisitList(body) + VisitList(decs)
    case Starred(v) => Visit(v)
    case Nonlocal(_) => []
    case Unknown(_, _) => []
  }

  /** Visiting a list of nodes in order. */
  function VisitList(ns: seq<Node>): seq<Event>
    decreases ns
  {
    if ns == [] then [] else Visit(ns[0]) + VisitList(ns[1..])
  }

  /** The loop over a module's top-level statements: imports are handled directly,
      everything else goes through the dispatch. */
  function TopLevelEvents(body: seq<Node>): seq<Event>
  {
    if body == [] then []
    else
      var first :=
        match body[0]
        case Import(names) => [ImportEvent(names)]
        case ImportFrom(m, names) => [ImportFromEvent(m, names)]
        case _ => Visit(body[0]);
      first + TopLevelEvents(body[1..])
  }

  // ---------------------------------------------------------------------------
  // A reference description of the traversal: each node records its own event (if
  // any), then the events of the children the dispatch enters, in order.

  /** The event a node records by itself, without looking at its children. */
  function Own(n: Node): seq<Event>
  {
    match n
    case Import(names) => [ImportEvent(names)]
    case ImportFrom(m, names) => [ImportFromEvent(m, names)]
    case Attribute(v, a) => if v.Name? then [AccessEvent(v.id, a)] else []
    case _ => []
  }

  /** The children the dispatch enters, in visiting order. */
  function Children(n: Node): seq<Node>
  {
    match n
    case Assign(_, v) => [v]
    case AugAssign(t, v) => [t, v]
    case Expr(v) => [v]
    case Return(v) => [v]
    case Yield(v) => [v]
    case YieldFrom(v) => [v]
    case Assert(t, m) => [t, m]
    case IfExp(t, a, b) => [t, a, b]
    case FunctionDef(ds, body, decs, _) => ds + body + decs
    case AsyncFunctionDef(ds, body, decs, _) => ds + body + decs
    case ClassDef(_, _, body, _) => body
    case BoolOp(vs) => vs
    case Subscript(v, s) => [v, s]
    case With(items, body) => items + body
    case List(es) => es
    case Tuple(es) => es
    case SetDisplay(es) => es
    case Lambda(_, b) => [b]
    case For(t, it, body, orelse) => [t, it] + body + orelse
    case While(t, body, orelse) => [t] + body + orelse
    case BinOp(l, r) => [l, r]
    case UnaryOp(o) => [o]
    case Try(body, hs, orelse, fin) => body + hs + orelse + fin
    case ExceptHandler(t, body) => [t] + body
    case Call(f, _, _) => [f]
    case If(t, body, _) => [t] + body
    case Compare(l, cs) => [l] + cs
    case WithItem(c, o) => [c, o]
    case Raise(e, _) => [e]
    case ListComp(_, gs) => gs
    case SetComp(_, gs) => gs
    case GeneratorExp(_, gs) => gs
    case DictComp(_, _, gs) => gs
    case Comprehension(t, it, ifs) => [t, it] + ifs
    case Attribute(v, _) => if v.Name? then [] else [v]
    case AnnAssign(t, a, v) => [t, a, v]
    case NamedExpr(t, v) => [t, v]
    case Starred(v) => [v]
    case _ => []
  }

  lemma {:induction false} VisitListAppend(a: seq<Node>, b: seq<Node>)
    ensures VisitList(a + b) == VisitList(a) + VisitList(b)
    decreases |a|
  {
    if a == [] {
      assert a + b == b;
    } else {
      assert (a + b)[1..] == a[1..] + b;
      VisitListAppend(a[1..], b);
    }
  }

  lemma VisitListSingle(n: Node)
    ensures VisitList([n]) == Visit(n)
  {
    assert [n][1..] == [];
  }

  lemma VisitListPair(m: Node, n: Node)
    ensures VisitList([m, n]) == Visit(m) + Visit(n)
  {
    assert [m, n][1..] == [n];
    VisitListSingle(n);
  }

  lemma VisitListTriple(l: Node, m: Node, n: Node)
    ensures VisitList([l, m, n]) == Visit(l) + Visit(m) + Visit(n)
  {
    assert [l, m, n][1..] == [m, n];
    VisitListPair(m, n);
  }

  /** The dispatch agrees with the reference description on every node: a node's events
      are its own event followed by the events of the children it enters, in order.
      Each node kind with children is discharged by its own lemma below. */
  lemma VisitDecomposes(n: Node)
    ensures Visit(n) == Own(n) + VisitList(Children(n))
  {
    if n.Assign? || n.AugAssign? || n.AnnAssign? || n.Expr? || n.Return? || n.Assert? || n.Raise? {
      DecomposeStatements(n);
    } else if n.FunctionDef? || n.AsyncFunctionDef? || n.With? || n.WithItem? || n.For? || n.While? {
      DecomposeBlocks(n);
    } else if n.Try? || n.ExceptHandler? || n.If? || n.IfExp? || n.Comprehension? {
      DecomposeBranches(n);
    } else if n.Yield? || n.YieldFrom? || n.Subscript? || n.Lambda? || n.BinOp? || n.UnaryOp? || n.Call? || n.Compare? {
      DecomposeExpressions(n);
    } else if n.Attribute? || n.NamedExpr? || n.Starred? {
      DecomposeBindings(n);
    } else {
      DecomposeRest(n);
    }
  }

  lemma DecomposeStatements(n: Node)
    requires n.Assign? || n.AugAssign? || n.AnnAssign? || n.Expr? || n.Return? || n.Assert? || n.Raise?
    ensures Visit(n) == Own(n) + VisitList(Children(n))
  {
    match n
    case Assign(ts, v) => DecomposeAssign(ts, v);
    case AugAssign(t, v) => DecomposeAugAssign(t, v);
    case AnnAssign(t, a, v) => DecomposeAnnAssign(t, a, v);
    case Expr(v) => DecomposeExpr(v);
    case Return(v) => DecomposeReturn(v);
    case Assert(t, m) => DecomposeAssert(t, m);
    case Raise(e, cause) => DecomposeRaise(e, cause);
  }

  lemma DecomposeBlocks(n: Node)
    requires n.FunctionDef? || n.AsyncFunctionDef? || n.With? || n.WithItem? || n.For? || n.While?
    ensures Visit(n) == Own(n) + VisitList(Children(n))
  {
    match n
    case FunctionDef(ds, body, decs, sig) => DecomposeFunctionDef(ds, body, decs, sig);
    case AsyncFunctionDef(ds, body, decs, sig) => DecomposeAsyncFunctionDef(ds, body, decs, sig);
    case With(items, body) => DecomposeWith(items, body);
    case WithItem(c, o) => DecomposeWithItem(c, o);
    case For(t, it, body, orelse) => DecomposeFor(t, it, body, orelse);
    case While(t, body, orelse) => DecomposeWhile(t, body, orelse);
  }

  lemma DecomposeBranches(n: Node)
    requires n.Try? || n.ExceptHandler? || n.If? || n.IfExp? || n.Comprehension?
    ensures Visit(n) == Own(n) + VisitList(Children(n))
  {
    match n
    case Try(body, hs, orelse, fin) => DecomposeTry(body, hs, orelse, fin);
    case ExceptHandler(t, body) => DecomposeExceptHandler(t, body);
    case If(t, body, orelse) => DecomposeIf(t, body, orelse);
    case IfExp(t, a, b) => DecomposeIfExp(t, a, b);
    case Comprehension(t, it, ifs) => DecomposeComprehension(t, it, ifs);
  }

  lemma DecomposeExpressions(n: Node)
    requires n.Yield? || n.YieldFrom? || n.Subscript? || n.Lambda? || n.BinOp? || n.UnaryOp? || n.Call? || n.Compare?
    ensures Visit(n) == Own(n) + VisitList(Children(n))
  {
    match n
    case Yield(v) => DecomposeYield(v);
    case YieldFrom(v) => DecomposeYieldFrom(v);
    case Subscript(v, sl) => DecomposeSubscript(v, sl);
    case Lambda(ds, b) => DecomposeLambda(ds, b);
    case BinOp(l, r) => DecomposeBinOp(l, r);
    case UnaryOp(o) => DecomposeUnaryOp(o);
    case Call(f, args, kws) => DecomposeCall(f, args, kws);
    case Compare(l, cs) => DecomposeCompare(l, cs);
  }

  lemma DecomposeBindings(n: Node)
    requires n.Attribute? || n.NamedExpr? || n.Starred?
    ensures Visit(n) == Own(n) + VisitList(Children(n))
  {
    match n
    case Attribute(v, a) => DecomposeAttribute(v, a);
    case NamedExpr(t, v) => DecomposeNamedExpr(t, v);
    case Starred(v) => DecomposeStarred(v);
  }

  /** Kinds whose visited children are one of their list fields, or none at all. */
  lemma DecomposeRest(n: Node)
    requires !(n.Assign? || n.AugAssign? || n.AnnAssign? || n.Expr? || n.Return? || n.Assert? || n.Raise?)
    requires !(n.FunctionDef? || n.AsyncFunctionDef? || n.With? || n.WithItem? || n.For? || n.While?)
    requires !(n.Try? || n.ExceptHandler? || n.If? || n.IfExp? || n.Comprehension?)
    requires !(n.Yield? || n.YieldFrom? || n.Subscript? || n.Lambda? || n.BinOp? || n.UnaryOp? || n.Call? || n.Compare?)
    requires !(n.Attribute? || n.NamedExpr? || n.Starred?)
    ensures Visit(n) == Own(n) + VisitList(Children(n))
  {
  }

  lemma DecomposeAssign(ts: seq<Node>, v: Node)
    ensures Visit(Assign(ts, v)) == Own(Assign(ts, v)) + VisitList(Children(Assign(ts, v)))
  {
    var n := Assign(ts, v);
    assert Own(n) == [];
    assert Children(n) == [v];
    assert Visit(n) == Visit(v);
    VisitListSingle(v);
  }

  lemma DecomposeAugAssign(t: Node, v: Node)
    ensures Visit(AugAssign(t, v)) == Own(AugAssign(t, v)) + VisitList(Children(AugAssign(t, v)))
  {
    var n := AugAssign(t, v);
    assert Own(n) == [];
    assert Children(n) == [t, v];
    assert Visit(n) == Visit(t) + Visit(v);
    VisitListPair(t, v);
  }

  lemma DecomposeExpr(v: Node)
    ensures Visit(Expr(v)) == Own(Expr(v)) + VisitList(Children(Expr(v)))
  {
    var n := Expr(v);
    assert Own(n) == [];
    assert Children(n) == [v];
    assert Visit(n) == Visit(v);
    VisitListSingle(v);
  }

  lemma DecomposeReturn(v: Node)
    ensures Visit(Return(v)) == Own(Return(v)) + VisitList(Children(Return(v)))
  {
    var n := Return(v);
    assert Own(n) == [];
    assert Children(n) == [v];
    assert Visit(n) == Visit(v);
    VisitListSingle(v);
  }

  lemma DecomposeYield(v: Node)
    ensures Visit(Yield(v)) == Own(Yield(v)) + VisitList(Children(Yield(v)))
  {
    var n := Yield(v);
    assert Own(n) == [];
    assert Children(n) == [v];
    assert Visit(n) == Visit(v);
    VisitListSingle(v);
  }

  lemma DecomposeYieldFrom(v: Node)
    ensures Visit(YieldFrom(v)) == Own(YieldFrom(v)) + VisitList(Children(YieldFrom(v)))
  {
    var n := YieldFrom(v);
    assert Own(n) == [];
    assert Children(n) == [v];
    assert Visit(n) == Visit(v);
    VisitListSingle(v);
  }

  lemma DecomposeAssert(t: Node, m: Node)
    ensures Visit(Assert(t, m)) == Own(Assert(t, m)) + VisitList(Children(Assert(t, m)))
  {
    var n := Assert(t, m);
    assert Own(n) == [];
    assert Children(n) == [t, m];
    assert Visit(n) == Visit(t) + Visit(m);
    VisitListPair(t, m);
  }

  lemma DecomposeIfExp(t: Node, a: Node, b: Node)
    ensures Visit(IfExp(t, a, b)) == Own(IfExp(t, a, b)) + VisitList(Children(IfExp(t, a, b)))
  {
    var n := IfExp(t, a, b);
    assert Own(n) == [];
    assert Children(n) == [t, a, b];
    assert Visit(n) == Visit(t) + Visit(a) + Visit(b);
    VisitListTriple(t, a, b);
  }

  lemma DecomposeFunctionDef(ds: seq<Node>, body: seq<Node>, decs: seq<Node>, sig: seq<Node>)
    ensures Visit(FunctionDef(ds, body, decs, sig)) == Own(FunctionDef(ds, body, decs, sig)) + VisitList(Children(FunctionDef(ds, body, decs, sig)))
  {
    var n := FunctionDef(ds, body, decs, sig);
    assert Own(n) == [];
    assert Children(n) == ds + body + decs;
    assert Visit(n) == VisitList(ds) + VisitList(body) + VisitList(decs);
    VisitListAppend(ds + body, decs);
    VisitListAppend(ds, body);
  }

  lemma DecomposeAsyncFunctionDef(ds: seq<Node>, body: seq<Node>, decs: seq<Node>, sig: seq<Node>)
    ensures Visit(AsyncFunctionDef(ds, body, decs, sig)) == Own(AsyncFunctionDef(ds, body, decs, sig)) + VisitList(Children(AsyncFunctionDef(ds, body, decs, sig)))
  {
    var n := AsyncFunctionDef(ds, body, decs, sig);
    assert Own(n) == [];
    assert Children(n) == ds + body + decs;
    assert Visit(n) == VisitList(ds) + VisitList(body) + VisitList(decs);
    VisitListAppend(ds + body, decs);
    VisitListAppend(ds, body);
  }

  lemma DecomposeSubscript(v: Node, s: Node)
    ensures Visit(Subscript(v, s)) == Own(Subscript(v, s)) + VisitList(Children(Subscript(v, s)))
  {
    var n := Subscript(v, s);
    assert Own(n) == [];
    assert Children(n) == [v, s];
    assert Visit(n) == Visit(v) + Visit(s);
    VisitListPair(v, s);
  }

  lemma DecomposeWith(items: seq<Node>, body: seq<Node>)
    ensures Visit(With(items, body)) == Own(With(items, body)) + VisitList(Children(With(items, body)))
  {
    var n := With(items, body);
    assert Own(n) == [];
    assert Children(n) == items + body;
    assert Visit(n) == VisitList(items) + VisitList(body);
    VisitListAppend(items, body);
  }

  lemma DecomposeLambda(ds: seq<Node>, b: Node)
    ensures Visit(Lambda(ds, b)) == Own(Lambda(ds, b)) + VisitList(Children(Lambda(ds, b)))
  {
    var n := Lambda(ds, b);
    assert Own(n) == [];
    assert Children(n) == [b];
    assert Visit(n) == Visit(b);
    VisitListSingle(b);
  }

  lemma DecomposeFor(t: Node, it: Node, body: seq<Node>, orelse: seq<Node>)
    ensures Visit(For(t, it, body, orelse)) == Own(For(t, it, body, orelse)) + VisitList(Children(For(t, it, body, orelse)))
  {
    var n := For(t, it, body, orelse);
    assert Own(n) == [];
    assert Children(n) == [t, it] + body + orelse;
    assert Visit(n) == Visit(t) + Visit(it) + VisitList(body) + VisitList(orelse);
    VisitListAppend([t, it] + body, orelse);
    VisitListAppend([t, it], body);
    VisitListPair(t, it);
  }

  lemma DecomposeWhile(t: Node, body: seq<Node>, orelse: seq<Node>)
    ensures Visit(While(t, body, orelse)) == Own(While(t, body, orelse)) + VisitList(Children(While(t, body, orelse)))
  {
    var n := While(t, body, orelse);
    assert Own(n) == [];
    assert Children(n) == [t] + body + orelse;
    assert Visit(n) == Visit(t) + VisitList(body) + VisitList(orelse);
    VisitListAppend([t] + body, orelse);
    VisitListAppend([t], body);
    VisitListSingle(t);
  }

  lemma DecomposeBinOp(l: Node, r: Node)
    ensures Visit(BinOp(l, r)) == Own(BinOp(l, r)) + VisitList(Children(BinOp(l, r)))
  {
    var n := BinOp(l, r);
    assert Own(n) == [];
    assert Children(n) == [l, r];
    assert Visit(n) == Visit(l) + Visit(r);
    VisitListPair(l, r);
  }

  lemma DecomposeUnaryOp(o: Node)
    ensures Visit(UnaryOp(o)) == Own(UnaryOp(o)) + VisitList(Children(UnaryOp(o)))
  {
    var n := UnaryOp(o);
    assert Own(n) == [];
    assert Children(n) == [o];
    assert Visit(n) == Visit(o);
    VisitListSingle(o);
  }

  lemma DecomposeTry(body: seq<Node>, hs: seq<Node>, orelse: seq<Node>, fin: seq<Node>)
    ensures Visit(Try(body, hs, orelse, fin)) == Own(Try(body, hs, orelse, fin)) + VisitList(Children(Try(body, hs, orelse, fin)))
  {
    var n := Try(body, hs, orelse, fin);
    assert Own(n) == [];
    assert Children(n) == body + hs + orelse + fin;
    assert Visit(n) == VisitList(body) + VisitList(hs) + VisitList(orelse) + VisitList(fin);
    VisitListAppend(body + hs + orelse, fin);
    VisitListAppend(body + hs, orelse);
    VisitListAppend(body, hs);
  }

  lemma DecomposeExceptHandler(t: Node, body: seq<Node>)
    ensures Visit(ExceptHandler(t, body)) == Own(ExceptHandler(t, body)) + VisitList(Children(ExceptHandler(t, body)))
  {
    var n := ExceptHandler(t, body);
    assert Own(n) == [];
    assert Children(n) == [t] + body;
    assert Visit(n) == Visit(t) + VisitList(body);
    VisitListAppend([t], body);
    VisitListSingle(t);
  }

  lemma DecomposeCall(f: Node, args: seq<Node>, kws: seq<Node>)
    ensures Visit(Call(f, args, kws)) == Own(Call(f, args, kws)) + VisitList(Children(Call(f, args, kws)))
  {
    var n := Call(f, args, kws);
    assert Own(n) == [];
    assert Children(n) == [f];
    assert Visit(n) == Visit(f);
    VisitListSingle(f);
  }

  lemma DecomposeIf(t: Node, body: seq<Node>, orelse: seq<Node>)
    ensures Visit(If(t, body, orelse)) == Own(If(t, body, orelse)) + VisitList(Children(If(t, body, orelse)))
  {
    var n := If(t, body, orelse);
    assert Own(n) == [];
    assert Children(n) == [t] + body;
    assert Visit(n) == Visit(t) + VisitList(body);
    VisitListAppend([t], body);
    VisitListSingle(t);
  }

  lemma DecomposeCompare(l: Node, cs: seq<Node>)
    ensures Visit(Compare(l, cs)) == Own(Compare(l, cs)) + VisitList(Children(Compare(l, cs)))
  {
    var n := Compare(l, cs);
    assert Own(n) == [];
    assert Children(n) == [l] + cs;
    assert Visit(n) == Visit(l) + VisitList(cs);
    VisitListAppend([l], cs);
    VisitListSingle(l);
  }

  lemma DecomposeWithItem(c: Node, o: Node)
    ensures Visit(WithItem(c, o)) == Own(WithItem(c, o)) + VisitList(Children(WithItem(c, o)))
  {
    var n := WithItem(c, o);
    assert Own(n) == [];
    assert Children(n) == [c, o];
    assert Visit(n) == Visit(c) + Visit(o);
    VisitListPair(c, o);
  }

  lemma DecomposeRaise(e: Node, cause: Node)
    ensures Visit(Raise(e, cause)) == Own(Raise(e, cause)) + VisitList(Children(Raise(e, cause)))
  {
    var n := Raise(e, cause);
    assert Own(n) == [];
    assert Children(n) == [e];
    assert Visit(n) == Visit(e);
    VisitListSingle(e);
  }

  lemma DecomposeComprehension(t: Node, it: Node, ifs: seq<Node>)
    ensures Visit(Comprehension(t, it, ifs)) == Own(Comprehension(t, it, ifs)) + VisitList(Children(Comprehension(t, it, ifs)))
  {
    var n := Comprehension(t, it, ifs);
    assert Own(n) == [];
    assert Children(n) == [t, it] + ifs;
    assert Visit(n) == Visit(t) + Visit(it) + VisitList(ifs);
    VisitListAppend([t, it], ifs);
    VisitListPair(t, it);
  }

  lemma DecomposeAttribute(v: Node, a: string)
    ensures Visit(Attribute(v, a)) == Own(Attribute(v, a)) + VisitList(Children(Attribute(v, a)))
  {
    var n := Attribute(v, a);
    if v.Name? {
      assert Own(n) == [AccessEvent(v.id, a)];
      assert Children(n) == [];
      assert Visit(n) == [AccessEvent(v.id, a)];
    } else {
      assert Own(n) == [];
      assert Children(n) == [v];
      assert Visit(n) == Visit(v);
      VisitListSingle(v);
    }
  }

  lemma DecomposeAnnAssign(t: Node, a: Node, v: Node)
    ensures Visit(AnnAssign(t, a, v)) == Own(AnnAssign(t, a, v)) + VisitList(Children(AnnAssign(t, a, v)))
  {
    var n := AnnAssign(t, a, v);
    assert Own(n) == [];
    assert Children(n) == [t, a, v];
    assert Visit(n) == Visit(t) + Visit(a) + Visit(v);
    VisitListTriple(t, a, v);
  }

  lemma DecomposeNamedExpr(t: Node, v: Node)
    ensures Visit(NamedExpr(t, v)) == Own(NamedExpr(t, v)) + VisitList(Children(NamedExpr(t, v)))
  {
    var n := NamedExpr(t, v);
    assert Own(n) == [];
    assert Children(n) == [t, v];
    assert Visit(n) == Visit(t) + Visit(v);
    VisitListPair(t, v);
  }

  lemma DecomposeStarred(v: Node)
    ensures Visit(Starred(v)) == Own(Starred(v)) + VisitList(Children(Starred(v)))
  {
    var n := Starred(v);
    assert Own(n) == [];
    assert Children(n) == [v];
    assert Visit(n) == Visit(v);
    VisitListSingle(v);
  }

  /** An event of `n` is either recorded at `n` itself or comes from one of the children
      the dispatch enters; nothing else can contribute. */
  lemma {:induction false} EventOrigin(n: Node, e: Event)
    requires e in Visit(n)
    ensures e in Own(n) || exists i :: 0 <= i < |Children(n)| && e in Visit(Children(n)[i])
  {
    VisitDecomposes(n);
    if e !in Own(n) {
      VisitListMember(Children(n), e);
    }
  }

  /** An event of a list comes from one of its elements. */
  lemma {:induction false} VisitListMember(ns: seq<Node>, e: Event)
    requires e in VisitList(ns)
    ensures exists i :: 0 <= i < |ns| && e in Visit(ns[i])
    decreases |ns|
  {
    if e !in Visit(ns[0]) {
      VisitListMember(ns[1..], e);
      var i :| 0 <= i < |ns[1..]| && e in Visit(ns[1..][i]);
      assert ns[1..][i] == ns[i + 1];
    }
  }

  /** An attribute of a plain name records exactly `(id, attr)` and stops there. */
  lemma AttributeOfNameRecorded(id: string, attr: string)
    ensures Visit(Attribute(Name(id), attr)) == [AccessEvent(id, attr)]
  {
  }

  /** An attribute of any other base records nothing itself; the base is visited. */
  lemma AttributeOfOtherVisitsBase(base: Node, attr: string)
    requires !base.Name?
    ensures Visit(Attribute(base, attr)) == Visit(base)
  {
  }

  /** `a.b.c` records only `(a, b)`: the outer attribute's base is visited, not recorded. */
  lemma AttributeChainRecordsHead(a: string, b: string, c: string)
    ensures Visit(Attribute(Attribute(Name(a), b), c)) == [AccessEvent(a, b)]
  {
    var inner := Attribute(Name(a), b);
    assert Visit(inner) == [AccessEvent(a, b)];
    assert Visit(Attribute(inner, c)) == Visit(inner);
  }

  /** `a.b().c` records only `(a, b)` too: the call's function is the attribute `a.b`. */
  lemma CallChainRecordsHead(a: string, b: string, c: string)
    ensures Visit(Attribute(Call(Attribute(Name(a), b), [], []), c)) == [AccessEvent(a, b)]
  {
    var inner := Attribute(Name(a), b);
    assert Visit(inner) == [AccessEvent(a, b)];
    assert Visit(Call(inner, [], [])) == Visit(inner);
    assert Visit(Attribute(Call(inner, [], []), c)) == Visit(Call(inner, [], []));
  }

  /** Whatever sits in the `else` branch of an `if` statement is never recorded. */
  lemma UnvisitedElseBranch(t: Node, body: seq<Node>, orelse: seq<Node>)
    ensures Visit(If(t, body, orelse)) == Visit(If(t, body, []))
  {
    DecomposeIf(t, body, orelse);
    DecomposeIf(t, body, []);
  }

  /** A call records what its function expression records; its arguments are never entered. */
  lemma UnvisitedCallArguments(f: Node, args: seq<Node>, kws: seq<Node>)
    ensures Visit(Call(f, args, kws)) == Visit(f)
  {
  }

  /** An assignment records what its value records; its targets are never entered. */
  lemma UnvisitedAssignTargets(targets: seq<Node>, v: Node)
    ensures Visit(Assign(targets, v)) == Visit(v)
  {
  }

  /** `None`, bare names and the pass-through kinds record nothing. */
  lemma PassThroughSilent(n: Node)
    requires n.Missing? || n.Name? || n.Pass? || n.Break? || n.Continue? || n.Delete? || n.Constant?
      || n.JoinedStr? || n.Slice? || n.Global? || n.Nonlocal?
    ensures Visit(n) == []
  {
  }

  /** Dict literals contribute nothing, whatever their keys and values contain. */
  lemma UnvisitedDict(keys: seq<Node>, values: seq<Node>)
    ensures Visit(Dict(keys, values)) == []
  {
  }

  /** Node kinds the dispatch does not name contribute nothing, whatever they contain. */
  lemma UnvisitedUnknown(kind: string, children: seq<Node>)
    ensures Visit(Unknown(kind, children)) == []
  {
  }

  /** The element expression of a list comprehension is never entered, only its
      generator clauses. */
  lemma ListCompVisitsGenerators(e: Node, gs: seq<Node>)
    ensures Visit(ListComp(e, gs)) == VisitList(gs)
  {
  }

  /** Likewise for set comprehensions. */
  lemma SetCompVisitsGenerators(e: Node, gs: seq<Node>)
    ensures Visit(SetComp(e, gs)) == VisitList(gs)
  {
  }

  /** Likewise for generator expressions. */
  lemma GeneratorExpVisitsGenerators(e: Node, gs: seq<Node>)
    ensures Visit(GeneratorExp(e, gs)) == VisitList(gs)
  {
  }

  /** Likewise for dict comprehensions: neither the key nor the value expression. */
  lemma DictCompVisitsGenerators(k: Node, e: Node, gs: seq<Node>)
    ensures Visit(DictComp(k, e, gs)) == VisitList(gs)
  {
  }

  /** The top-level loop's special handling of imports records the same events as
      sending every statement through the dispatch. */
  lemma {:induction false} TopLevelMatchesDispatch(body: seq<Node>)
    ensures TopLevelEvents(body) == VisitList(body)
    decreases |body|
  {
    if body != [] {
      TopLevelMatchesDispatch(body[1..]);
    }
  }
}
