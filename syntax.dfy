/**
 * The part of a Python abstract syntax tree the indexer reads, the generic
 * child-node view `ast.iter_child_nodes` gives of it, the span rule of
 * `CodeIndexer._find_node_end` and the name rendering of
 * `CodeIndexer._get_name_from_expr`.
 *
 * Field order follows Python's AST (3.8 to 3.11): a `FunctionDef` lists its
 * children as args, body, decorators, returns; a `ClassDef` as bases,
 * keywords, body, decorators. Expression nodes carry a context child
 * (`Load`) that has no line number.
 */
module Syntax {
  import opened Wrappers
  import Text

  /** A node as `ast.iter_child_nodes` sees it: an optional line number and the children in order. */
  datatype Node = Node(lineno: Option<int>, children: seq<Node>)

  /** The `ctx` child of a name, attribute or subscript expression; it has no line number. */
  const Ctx: Node := Node(None, [])

  /** The `arguments` child of a function definition; it has no line number. */
  const ArgumentsNode: Node := Node(None, [])

  /** Expressions, as far as annotations and base classes are rendered. */
  datatype Expr =
    | Name(line: int, id: string)
    | Attribute(line: int, value: Expr, attr: string)
    | Subscript(line: int, value: Expr, slice: Expr)
    | OtherExpr(kind: string, node: Node)

  /** An entry of `args.args`: a parameter name and its optional annotation. */
  datatype Arg = Arg(name: string, annotation: Option<Expr>)

  /**
   * A `def`. `args` holds `args.args` only; docstring is what
   * `ast.get_docstring` returns for the node.
   */
  datatype FuncDecl = FuncDecl(
    name: string, lineno: int, args: seq<Arg>, body: seq<Node>,
    decorators: seq<Node>, returnAnnotation: Option<Expr>, docstring: Option<string>)

  datatype ClassDecl = ClassDecl(
    name: string, lineno: int, bases: seq<Expr>, keywords: seq<Node>,
    body: seq<Stmt>, decorators: seq<Node>, docstring: Option<string>)

  /** Statements of a module or class body. */
  datatype Stmt =
    | ClassDef(cls: ClassDecl)
    | FunctionDef(fn: FuncDecl)
    | AsyncFunctionDef(fn: FuncDecl)
    | Import(names: seq<string>, node: Node)
    | ImportFrom(source: Option<string>, names: seq<string>, node: Node)
    | OtherStmt(node: Node)

  /** What `ast.parse` returns, with the docstring `ast.get_docstring` finds in it. */
  datatype ModuleAst = ModuleAst(docstring: Option<string>, body: seq<Stmt>)

  // ---------------------------------------------------------------------------
  // The child-node view

  function ExprNode(e: Expr): Node {
    match e
    case Name(l, _) => Node(Some(l), [Ctx])
    case Attribute(l, v, _) => Node(Some(l), [ExprNode(v), Ctx])
    case Subscript(l, v, s) => Node(Some(l), [ExprNode(v), ExprNode(s), Ctx])
    case OtherExpr(_, n) => n
  }

  function ExprNodes(es: seq<Expr>): (ns: seq<Node>)
    ensures |ns| == |es|
  {
    seq(|es|, i requires 0 <= i < |es| => ExprNode(es[i]))
  }

  function FuncNode(f: FuncDecl): Node {
    Node(Some(f.lineno),
         [ArgumentsNode] + f.body + f.decorators
         + (if f.returnAnnotation.Some? then [ExprNode(f.returnAnnotation.value)] else []))
  }

  function ClassNode(c: ClassDecl): Node {
    Node(Some(c.lineno),
         ExprNodes(c.bases) + c.keywords
         + seq(|c.body|, i requires 0 <= i < |c.body| => StmtNode(c.body[i]))
         + c.decorators)
  }

  function StmtNode(s: Stmt): Node {
    match s
    case ClassDef(c) => ClassNode(c)
    case FunctionDef(f) => FuncNode(f)
    case AsyncFunctionDef(f) => FuncNode(f)
    case Import(_, n) => n
    case ImportFrom(_, _, n) => n
    case OtherStmt(n) => n
  }

  // ---------------------------------------------------------------------------
  // _find_node_end

  /**
   * The loop of `_find_node_end`: every child with a line number is explored,
   * and the result of the one at the last position is returned; when the
   * last child has no line number the node's own line is returned.
   */
  function FindNodeEnd(n: Node): int
    requires n.lineno.Some?
    decreases n, |n.children| + 1
  {
    ScanChildren(n, 0)
  }

  function ScanChildren(n: Node, i: nat): int
    requires n.lineno.Some?
    requires i <= |n.children|
    decreases n, |n.children| - i
  {
    if i == |n.children| then n.lineno.value
    else if n.children[i].lineno.Some? then
      var childEnd := FindNodeEnd(n.children[i]);
      if i == |n.children| - 1 then childEnd else ScanChildren(n, i + 1)
    else ScanChildren(n, i + 1)
  }

  /**
   * The span rule: the end of the last child when that child has a line
   * number, and otherwise the node's own line.
   */
  lemma {:induction false} FindNodeEndLastChild(n: Node)
    requires n.lineno.Some?
    ensures |n.children| > 0 && n.children[|n.children| - 1].lineno.Some? ==>
              FindNodeEnd(n) == FindNodeEnd(n.children[|n.children| - 1])
    ensures !(|n.children| > 0 && n.children[|n.children| - 1].lineno.Some?) ==>
              FindNodeEnd(n) == n.lineno.value
  {
    ScanReachesEnd(n, 0);
  }

  lemma {:induction false} ScanReachesEnd(n: Node, i: nat)
    requires n.lineno.Some?
    requires i <= |n.children|
    ensures |n.children| > 0 && n.children[|n.children| - 1].lineno.Some? && i < |n.children| ==>
              ScanChildren(n, i) == FindNodeEnd(n.children[|n.children| - 1])
    ensures !(|n.children| > 0 && n.children[|n.children| - 1].lineno.Some? && i < |n.children|) ==>
              ScanChildren(n, i) == n.lineno.value
    decreases |n.children| - i
  {
    if i < |n.children| - 1 {
      ScanReachesEnd(n, i + 1);
    }
  }

  /** Children before the last one never affect the end line. */
  lemma {:induction false} FindNodeEndIgnoresEarlierChildren(line: int, p: seq<Node>, q: seq<Node>, last: Node)
    ensures FindNodeEnd(Node(Some(line), p + [last])) == FindNodeEnd(Node(Some(line), q + [last]))
  {
    var a, b := Node(Some(line), p + [last]), Node(Some(line), q + [last]);
    FindNodeEndLastChild(a);
    FindNodeEndLastChild(b);
  }

  /** A name, attribute or subscript expression ends on its own line (its last child is `ctx`). */
  lemma {:induction false} ExprEnd(e: Expr)
    requires !e.OtherExpr?
    ensures FindNodeEnd(ExprNode(e)) == e.line
  {
    FindNodeEndLastChild(ExprNode(e));
  }

  /**
   * The end of a `def`: its return annotation when it has one, else its last
   * decorator, else its last body statement, each only when that node has a
   * line number; otherwise the `def` line itself.
   */
  lemma {:induction false} FuncEnd(f: FuncDecl)
    ensures f.returnAnnotation.Some? && ExprNode(f.returnAnnotation.value).lineno.Some? ==>
      FindNodeEnd(FuncNode(f)) == FindNodeEnd(ExprNode(f.returnAnnotation.value))
    ensures f.returnAnnotation.Some? && ExprNode(f.returnAnnotation.value).lineno.None? ==>
      FindNodeEnd(FuncNode(f)) == f.lineno
    ensures f.returnAnnotation.None? && |f.decorators| > 0 ==>
      FindNodeEnd(FuncNode(f)) ==
        var d := f.decorators[|f.decorators| - 1];
        if d.lineno.Some? then FindNodeEnd(d) else f.lineno
    ensures f.returnAnnotation.None? && f.decorators == [] && |f.body| > 0 ==>
      FindNodeEnd(FuncNode(f)) ==
        var s := f.body[|f.body| - 1];
        if s.lineno.Some? then FindNodeEnd(s) else f.lineno
    ensures f.returnAnnotation.None? && f.decorators == [] && f.body == [] ==>
      FindNodeEnd(FuncNode(f)) == f.lineno
  {
    var n := FuncNode(f);
    FindNodeEndLastChild(n);
    var tail := n.children[|n.children| - 1];
    if f.returnAnnotation.None? && |f.decorators| > 0 {
      assert tail == f.decorators[|f.decorators| - 1];
    } else if f.returnAnnotation.None? && |f.body| > 0 {
      assert tail == f.body[|f.body| - 1];
    }
  }

  /**
   * A decorated `def` without a return annotation whose last decorator is a
   * plain name written above the `def` line ends above where it starts.
   */
  lemma {:induction false} DecoratedFuncEndsAtDecorator(f: FuncDecl, d: Expr)
    requires f.returnAnnotation.None? && |f.decorators| > 0
    requires d.Name? && f.decorators[|f.decorators| - 1] == ExprNode(d)
    ensures FindNodeEnd(FuncNode(f)) == d.line
  {
    FuncEnd(f);
    ExprEnd(d);
  }

  /** The end of a `class`: its last decorator when it has one, else its last body statement. */
  lemma {:induction false} ClassEnd(c: ClassDecl)
    ensures |c.decorators| > 0 ==>
      FindNodeEnd(ClassNode(c)) ==
        var d := c.decorators[|c.decorators| - 1];
        if d.lineno.Some? then FindNodeEnd(d) else c.lineno
    ensures c.decorators == [] && |c.body| > 0 ==>
      FindNodeEnd(ClassNode(c)) ==
        var s := StmtNode(c.body[|c.body| - 1]);
        if s.lineno.Some? then FindNodeEnd(s) else c.lineno
  {
    var n := ClassNode(c);
    FindNodeEndLastChild(n);
    if |c.decorators| > 0 {
      assert n.children[|n.children| - 1] == c.decorators[|c.decorators| - 1];
    } else if |c.body| > 0 {
      assert n.children[|n.children| - 1] == StmtNode(c.body[|c.body| - 1]);
    }
  }

  // ---------------------------------------------------------------------------
  // _get_name_from_expr (the Python 3.9+ branch for subscripts)

  function NameFromExpr(e: Expr): string {
    match e
    case Name(_, id) => id
    case Attribute(_, v, a) => NameFromExpr(v) + "." + a
    case Subscript(_, v, _) => NameFromExpr(v) + "[...]"
    case OtherExpr(kind, _) => kind
  }

  /** The expression `a.b.c` for the parts `[a, b, c]`, all on one line. */
  function Dotted(line: int, parts: seq<string>): Expr
    requires |parts| > 0
    decreases |parts|
  {
    if |parts| == 1 then Name(line, parts[0])
    else Attribute(line, Dotted(line, parts[..|parts| - 1]), parts[|parts| - 1])
  }

  /** A dotted name renders as its parts joined by dots. */
  lemma {:induction false} NameFromDotted(line: int, parts: seq<string>)
    requires |parts| > 0
    ensures NameFromExpr(Dotted(line, parts)) == Text.Join('.', parts)
    decreases |parts|
  {
    if |parts| > 1 {
      var init := parts[..|parts| - 1];
      NameFromDotted(line, init);
      JoinSnoc(init, parts[|parts| - 1]);
      assert init + [parts[|parts| - 1]] == parts;
    }
  }

  lemma {:induction false} JoinSnoc(parts: seq<string>, last: string)
    requires |parts| > 0
    ensures Text.Join('.', parts + [last]) == Text.Join('.', parts) + "." + last
    decreases |parts|
  {
    if |parts| > 1 {
      assert (parts + [last])[1..] == parts[1..] + [last];
      JoinSnoc(parts[1..], last);
    }
  }

  /**
   * The rendering of an attribute or subscript keeps the rendering of its
   * base as a prefix; the last dotted segment of an attribute is its own
   * attribute name.
   */
  lemma {:induction false} NameFromAttribute(l: int, v: Expr, a: string)
    requires '.' !in a
    ensures Text.LastSegment(NameFromExpr(Attribute(l, v, a)), '.') == a
    ensures NameFromExpr(v) <= NameFromExpr(Attribute(l, v, a))
  {
    Text.LastSegmentOfJoined(NameFromExpr(v), '.', a);
  }
}
