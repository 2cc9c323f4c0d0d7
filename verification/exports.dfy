/** `find__all__` (import-analyzer.py:116-130): locating a module's declared export
    list among its top-level statements. */
module Exports {
  import opened Results
  import opened Syntax

  /** Why a declaration cannot be read. In the analyzer each of these raises and ends the
      whole run. */
  datatype ExportError =
    | NoTargets         // an assignment without targets: `stm.targets[0]` fails
    | NotAList          // the assigned value is not a list literal
    | MultipleTargets   // `__all__ = x = [...]`
    | NoValueField      // a list element whose kind has no `value` field, such as a bare name

  /** A top-level statement at which the search stops: an assignment whose first target
      is the name `__all__` (or one without targets, which fails on the lookup). */
  predicate Stops(stm: Node)
  {
    stm.Assign? && (|stm.targets| == 0 || stm.targets[0] == Name("__all__"))
  }

  /** One element of a declared `__all__` as the analyzer collects it, `elem.value`: the
      value of a constant, or the `value` sub-node of another kind of element. Sub-nodes
      are objects compared by identity, so each is known by its position in the list and
      never equals a string. */
  datatype Entry = Value(lit: Literal) | SubNode(position: nat)

  /** The node kinds that have a `value` field in Python's `ast`. */
  predicate HasValue(n: Node)
  {
    n.Constant? || n.Attribute? || n.Subscript? || n.Starred? || n.NamedExpr? || n.Yield?
    || n.YieldFrom? || n.Assign? || n.AugAssign? || n.AnnAssign? || n.Expr? || n.Return?
    || n.DictComp?
  }

  /** `elem.value` for the element at `position`: a constant's value, `None` for an absent
      optional value, and otherwise the sub-node itself. */
  function EntryOf(n: Node, position: nat): Entry
    requires HasValue(n)
  {
    if n.Constant? then Value(n.lit)
    else if n.value.Missing? then Value(NonStr("None"))
    else SubNode(position)
  }

  /** The comprehension `[elem.value for elem in elts]`: it fails on the first element
      without a `value` field. A string entry comes only from a string constant, and the
      sub-node entries are pairwise distinct. */
  function ElementValues(elts: seq<Node>): (r: Result<seq<Entry>, ExportError>)
    ensures r.Success? <==> forall k :: 0 <= k < |elts| ==> HasValue(elts[k])
    ensures r.Failure? ==> r.error == NoValueField
    ensures r.Success? ==> |r.value| == |elts|
    ensures r.Success? ==> forall k :: 0 <= k < |elts| && elts[k].Constant? ==> r.value[k] == Value(elts[k].lit)
    ensures r.Success? ==> forall k :: 0 <= k < |elts| && r.value[k].Value? && r.value[k].lit.Str? ==> elts[k].Constant?
    ensures r.Success? ==> forall i, j :: 0 <= i < j < |elts| && r.value[i].SubNode? ==> r.value[i] != r.value[j]
  {
    if forall k :: 0 <= k < |elts| ==> HasValue(elts[k]) then
      Success(seq(|elts|, k requires 0 <= k < |elts| => EntryOf(elts[k], k)))
    else Failure(NoValueField)
  }

  /** Reading the declaration found at `stm`: the value must be a list literal and the
      statement must have a single target. */
  function Declaration(stm: Node): (r: Result<Option<seq<Entry>>, ExportError>)
    requires Stops(stm)
    ensures r.Success? <==>
      |stm.targets| == 1 && stm.value.List? && forall k :: 0 <= k < |stm.value.elts| ==> HasValue(stm.value.elts[k])
    ensures r.Success? ==> r.value.Some? && |r.value.value| == |stm.value.elts|
    ensures r.Success? ==> forall k :: 0 <= k < |stm.value.elts| && stm.value.elts[k].Constant? ==>
      r.value.value[k] == Value(stm.value.elts[k].lit)
    ensures r.Success? ==> forall k :: 0 <= k < |stm.value.elts| && r.value.value[k].Value? && r.value.value[k].lit.Str? ==>
      stm.value.elts[k].Constant?
  {
    if |stm.targets| == 0 then Failure(NoTargets)
    else if !stm.value.List? then Failure(NotAList)
    else if |stm.targets| != 1 then Failure(MultipleTargets)
    else
      match ElementValues(stm.value.elts)
      case Success(vs) => Success(Some(vs))
      case Failure(e) => Failure(e)
  }

  /** `find__all__`: `Success(None)` when no top-level assignment's first target is
      `__all__`; otherwise the first such statement decides. */
  function FindExports(body: seq<Node>): (r: Result<Option<seq<Entry>>, ExportError>)
    ensures r == Success(None) <==> forall i :: 0 <= i < |body| ==> !Stops(body[i])
    decreases |body|
  {
    if body == [] then Success(None)
    else if Stops(body[0]) then Declaration(body[0])
    else
      var r := FindExports(body[1..]);
      assert forall i :: 1 <= i < |body| ==> body[i] == body[1..][i - 1];
      r
  }

  /** The first statement at which the search stops decides the outcome; later
      assignments to `__all__` are never looked at. */
  lemma {:induction false} FirstStopDecides(body: seq<Node>, i: int)
    requires 0 <= i < |body| && Stops(body[i])
    requires forall j :: 0 <= j < i ==> !Stops(body[j])
    ensures FindExports(body) == Declaration(body[i])
    decreases i
  {
    if i > 0 {
      assert !Stops(body[0]);
      assert body[1..][i - 1] == body[i];
      assert forall j :: 0 <= j < i - 1 ==> body[1..][j] == body[j + 1];
      FirstStopDecides(body[1..], i - 1);
    }
  }

  /** A dict comprehension has a `value` field: `__all__ = [{k: v for k, v in x}, "x"]`
      declares that sub-node and `"x"`, and the run goes on. */
  lemma DictCompElementKept(body: seq<Node>)
    requires body == [Assign([Name("__all__")], List([DictComp(Name("k"), Name("v"), []), Constant(Str("x"))]))]
    ensures FindExports(body) == Success(Some([SubNode(0), Value(Str("x"))]))
  {
    assert Stops(body[0]);
    assert ElementValues(body[0].value.elts).value == [SubNode(0), Value(Str("x"))];
  }
}
