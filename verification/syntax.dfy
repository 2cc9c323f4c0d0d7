/** The part of Python's abstract syntax tree the analyzer dispatches on.
    One constructor per node kind the visitor names; every other kind is `Unknown`.
    Children that the visitor never enters are kept as fields so that properties can
    say that nothing inside them is recorded. */
module Syntax {
  import opened Results

  /** The value of a constant node: a string, or any other constant by its repr. */
  datatype Literal = Str(s: string) | NonStr(repr: string)

  /** One `name [as asname]` clause of an import; `asname == ""` means no alias
      (Python tests the alias for truthiness, so `None` and `""` behave alike). */
  datatype ImportName = ImportName(name: string, asname: string)

  datatype Node =
    | Missing                                       // Python `None` in an optional slot
    | Import(names: seq<ImportName>)
    | ImportFrom(source: Option<string>, names: seq<ImportName>)
    | Name(id: string)
    | Pass
    | Break
    | Continue
    | Delete(targets: seq<Node>)
    | Constant(lit: Literal)
    | JoinedStr(values: seq<Node>)
    | Slice(lower: Node, upper: Node, step: Node)
    | Global(declared: seq<string>)
    | Nonlocal(declared: seq<string>)
    | Assign(targets: seq<Node>, value: Node)
    | AugAssign(target: Node, value: Node)
    | Expr(value: Node)
    | Return(value: Node)
    | Yield(value: Node)
    | YieldFrom(value: Node)
    | Assert(test: Node, msg: Node)
    | IfExp(test: Node, whenTrue: Node, whenFalse: Node)
      // `signature` holds keyword-only defaults and argument/return annotations
    | FunctionDef(defaults: seq<Node>, body: seq<Node>, decorators: seq<Node>, signature: seq<Node>)
    | AsyncFunctionDef(defaults: seq<Node>, body: seq<Node>, decorators: seq<Node>, signature: seq<Node>)
    | ClassDef(bases: seq<Node>, keywords: seq<Node>, body: seq<Node>, decorators: seq<Node>)
    | BoolOp(values: seq<Node>)
    | Subscript(value: Node, slice: Node)
    | With(items: seq<Node>, body: seq<Node>)
    | List(elts: seq<Node>)
    | Tuple(elts: seq<Node>)
    | SetDisplay(elts: seq<Node>)                  // Python's `ast.Set`
    | Lambda(defaults: seq<Node>, lambdaBody: Node)
    | For(target: Node, iter: Node, body: seq<Node>, orelse: seq<Node>)
    | While(test: Node, body: seq<Node>, orelse: seq<Node>)
    | BinOp(left: Node, right: Node)
    | UnaryOp(operand: Node)
    | Try(body: seq<Node>, handlers: seq<Node>, orelse: seq<Node>, finalbody: seq<Node>)
    | ExceptHandler(excType: Node, body: seq<Node>)
    | Call(func: Node, args: seq<Node>, keywords: seq<Node>)
    | If(test: Node, body: seq<Node>, orelse: seq<Node>)
    | Compare(left: Node, comparators: seq<Node>)
    | WithItem(contextExpr: Node, optionalVars: Node)
    | Raise(exc: Node, cause: Node)
    | Dict(keys: seq<Node>, values: seq<Node>)
    | ListComp(elt: Node, generators: seq<Node>)
    | SetComp(elt: Node, generators: seq<Node>)
    | GeneratorExp(elt: Node, generators: seq<Node>)
    | DictComp(key: Node, value: Node, generators: seq<Node>)
    | Comprehension(target: Node, iter: Node, ifs: seq<Node>)
    | Attribute(value: Node, attr: string)
    | AnnAssign(target: Node, annotation: Node, value: Node)
    | NamedExpr(target: Node, value: Node)
    | Starred(value: Node)
    | Unknown(kind: string, children: seq<Node>)

  /** What the visitor records: an import statement as written, or a candidate
      attribute access `base.attr` whose base is a plain name. */
  datatype Event =
    | ImportEvent(names: seq<ImportName>)
    | ImportFromEvent(source: Option<string>, names: seq<ImportName>)
    | AccessEvent(base: string, attr: string)
}
