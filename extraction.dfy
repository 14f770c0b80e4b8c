/**
 * What the indexer extracts from one parsed file: the function, method,
 * class and module entities (`_process_function`, the method renaming of
 * `_process_class`, `_index_file`), the import strings (`_extract_imports`)
 * and the order in which `_index_file` and `_process_class` register
 * entities in the index.
 */
module Extraction {
  import opened Wrappers
  import opened Text
  import opened Syntax
  import opened Entities

  // ---------------------------------------------------------------------------
  // Snippets: "\n".join(source_lines[start-1:end])

  function Snippet(lines: seq<string>, start: int, end: int): string {
    Join('\n', PySlice(lines, start - 1, end))
  }

  /** A span that ends before it starts has an empty snippet. */
  lemma {:induction false} SnippetEmptyWhenEndBeforeStart(lines: seq<string>, start: int, end: int)
    requires 0 <= end < start
    ensures Snippet(lines, start, end) == ""
  {
    assert SliceBound(end, |lines|) <= SliceBound(start - 1, |lines|);
  }

  /** A span inside the file has as snippet exactly its lines, `start` to `end`. */
  lemma {:induction false} SnippetHoldsLines(lines: seq<string>, start: int, end: int)
    requires 1 <= start <= end <= |lines|
    requires forall k :: 0 <= k < |lines| ==> '\n' !in lines[k]
    ensures Split(Snippet(lines, start, end), '\n') == lines[start - 1..end]
  {
    assert PySlice(lines, start - 1, end) == lines[start - 1..end];
    SplitJoin(lines[start - 1..end], '\n');
  }

  /** The lines `str.splitlines` produces never contain a newline. */
  lemma {:induction false} SourceLinesHaveNoNewline(content: string)
    ensures forall k :: 0 <= k < |SplitLines(content)| ==> '\n' !in SplitLines(content)[k]
  {
    var lines := SplitLines(content);
    forall k | 0 <= k < |lines|
      ensures '\n' !in lines[k]
    {
      forall j | 0 <= j < |lines[k]|
        ensures lines[k][j] != '\n'
      {
        assert !IsLineBreak(lines[k][j]);
      }
    }
  }

  // ---------------------------------------------------------------------------
  // _process_function

  function ParamOf(a: Arg): Param {
    Param(a.name, if a.annotation.Some? then Some(NameFromExpr(a.annotation.value)) else None)
  }

  /** The parameter list: one entry per entry of `args.args`, in order. */
  function Parameters(args: seq<Arg>): (ps: seq<Param>)
    ensures |ps| == |args|
    ensures forall i :: 0 <= i < |args| ==>
      && ps[i].name == args[i].name
      && (ps[i].typ.Some? <==> args[i].annotation.Some?)
      && (args[i].annotation.Some? ==> ps[i].typ.value == NameFromExpr(args[i].annotation.value))
    decreases |args|
  {
    if args == [] then []
    else Parameters(args[..|args| - 1]) + [ParamOf(args[|args| - 1])]
  }

  function ReturnType(f: FuncDecl): Option<string> {
    if f.returnAnnotation.Some? then Some(NameFromExpr(f.returnAnnotation.value)) else None
  }

  /** The entity `_process_function` builds for a `def`. */
  function FunctionEntityOf(f: FuncDecl, relPath: string, content: string, digest: string -> string): Entity {
    var end := FindNodeEnd(FuncNode(f));
    NewFunction(f.name, relPath, f.lineno, end, f.docstring,
                Snippet(SplitLines(content), f.lineno, end),
                Parameters(f.args), ReturnType(f), digest)
  }

  method ProcessFunction(f: FuncDecl, relPath: string, content: string, digest: string -> string)
    returns (e: Entity)
    ensures e == FunctionEntityOf(f, relPath, content, digest)
  {
    var sourceLines := SplitLines(content);
    var funcEnd := FindNodeEnd(FuncNode(f));
    var funcCode := Snippet(sourceLines, f.lineno, funcEnd);
    var parameters: seq<Param> := [];
    for i := 0 to |f.args|
      invariant parameters == Parameters(f.args[..i])
    {
      var arg := f.args[i];
      var param := Param(arg.name, None);
      if arg.annotation.Some? {
        param := param.(typ := Some(NameFromExpr(arg.annotation.value)));
      }
      parameters := parameters + [param];
      assert f.args[..i + 1][..i] == f.args[..i];
    }
    assert f.args[..|f.args|] == f.args;
    var returnType := None;
    if f.returnAnnotation.Some? {
      returnType := Some(NameFromExpr(f.returnAnnotation.value));
    }
    e := NewFunction(f.name, relPath, f.lineno, funcEnd, f.docstring, funcCode,
                     parameters, returnType, digest);
  }

  /** A function entity spans its `def` line to its end line and carries the hash of its snippet. */
  lemma {:induction false} FunctionEntitySpan(f: FuncDecl, relPath: string, content: string, digest: string -> string)
    requires IsDigest(digest)
    ensures var e := FunctionEntityOf(f, relPath, content, digest);
      && e.Function? && e.name == f.name && e.filepath == relPath
      && e.lineStart == f.lineno && e.lineEnd == FindNodeEnd(FuncNode(f))
      && (e.hash == "" <==> e.snippet == "")
      && (0 <= e.lineEnd < e.lineStart ==> e.snippet == "")
      && (1 <= e.lineStart <= e.lineEnd <= |SplitLines(content)| ==>
            Split(e.snippet, '\n') == SplitLines(content)[e.lineStart - 1..e.lineEnd])
  {
    var e := FunctionEntityOf(f, relPath, content, digest);
    var lines := SplitLines(content);
    HashEmptyIff(e.snippet, digest);
    if 0 <= e.lineEnd < e.lineStart {
      SnippetEmptyWhenEndBeforeStart(lines, e.lineStart, e.lineEnd);
    }
    if 1 <= e.lineStart <= e.lineEnd <= |lines| {
      SourceLinesHaveNoNewline(content);
      SnippetHoldsLines(lines, e.lineStart, e.lineEnd);
    }
  }

  /**
   * A `def` with a plain-name decorator above it and no return annotation
   * ends on the decorator's line, so its snippet and hash are empty.
   */
  lemma {:induction false} DecoratedFunctionHasEmptySnippet(
    f: FuncDecl, d: Expr, relPath: string, content: string, digest: string -> string)
    requires f.returnAnnotation.None? && |f.decorators| > 0
    requires d.Name? && f.decorators[|f.decorators| - 1] == ExprNode(d)
    requires 0 <= d.line < f.lineno
    ensures var e := FunctionEntityOf(f, relPath, content, digest);
      e.lineEnd == d.line < e.lineStart && e.snippet == "" && e.hash == ""
  {
    DecoratedFuncEndsAtDecorator(f, d);
    SnippetEmptyWhenEndBeforeStart(SplitLines(content), f.lineno, d.line);
  }

  // ---------------------------------------------------------------------------
  // _process_class: methods, renamed to their qualified form

  /** The `def` statements directly in a class body, in order (async defs and nested classes are skipped). */
  function MethodDecls(body: seq<Stmt>): (ds: seq<FuncDecl>)
    ensures forall f :: f in ds <==> FunctionDef(f) in body
    decreases |body|
  {
    if body == [] then []
    else
      var init := MethodDecls(body[..|body| - 1]);
      assert body == body[..|body| - 1] + [body[|body| - 1]];
      match body[|body| - 1]
      case FunctionDef(f) => init + [f]
      case _ => init
  }

  /** `_process_function`'s entity after `method_entity.name = f"{node.name}.{item.name}"`. */
  function MethodEntity(className: string, f: FuncDecl, relPath: string, content: string,
                        digest: string -> string): Entity
  {
    Renamed(FunctionEntityOf(f, relPath, content, digest), className + "." + f.name)
  }

  /** The `methods` list of a class. */
  function Methods(className: string, body: seq<Stmt>, relPath: string, content: string,
                   digest: string -> string): seq<Entity>
    decreases |body|
  {
    if body == [] then []
    else
      Methods(className, body[..|body| - 1], relPath, content, digest)
      + match body[|body| - 1]
        case FunctionDef(f) => [MethodEntity(className, f, relPath, content, digest)]
        case _ => []
  }

  /** The `methods` list is the renamed entity of each `def` of the body, in order. */
  lemma {:induction false} MethodsOfDecls(
    className: string, body: seq<Stmt>, relPath: string, content: string, digest: string -> string)
    ensures |Methods(className, body, relPath, content, digest)| == |MethodDecls(body)|
    ensures forall k :: 0 <= k < |MethodDecls(body)| ==>
      Methods(className, body, relPath, content, digest)[k]
        == MethodEntity(className, MethodDecls(body)[k], relPath, content, digest)
    decreases |body|
  {
    if body != [] {
      MethodsOfDecls(className, body[..|body| - 1], relPath, content, digest);
    }
  }

  /**
   * One method entity per `def` in the class body, in order; each is the
   * function entity of that `def` under the name `Class.method`, never under
   * the bare method name, and keeps that function's span, snippet and hash.
   */
  lemma {:induction false} MethodsQualified(
    className: string, body: seq<Stmt>, relPath: string, content: string, digest: string -> string)
    ensures var ms, ds := Methods(className, body, relPath, content, digest), MethodDecls(body);
      && |ms| == |ds|
      && forall k :: 0 <= k < |ds| ==>
        && ms[k].name == className + "." + ds[k].name
        && ms[k].name != ds[k].name
        && ('.' !in ds[k].name ==> LastSegment(ms[k].name, '.') == ds[k].name)
        && ms[k] == Renamed(FunctionEntityOf(ds[k], relPath, content, digest), ms[k].name)
        && ms[k].Function? && Hashed(ms[k], digest)
  {
    MethodsOfDecls(className, body, relPath, content, digest);
    var ms, ds := Methods(className, body, relPath, content, digest), MethodDecls(body);
    forall k | 0 <= k < |ds|
      ensures ms[k].name == className + "." + ds[k].name
      ensures '.' !in ds[k].name ==> LastSegment(ms[k].name, '.') == ds[k].name
    {
      if '.' !in ds[k].name {
        LastSegmentOfJoined(className, '.', ds[k].name);
      }
    }
  }

  /** `bases`: one rendered name per base class expression, in order. */
  function BaseClassNames(bases: seq<Expr>): (names: seq<string>)
    ensures |names| == |bases|
  {
    seq(|bases|, i requires 0 <= i < |bases| => NameFromExpr(bases[i]))
  }

  /**
   * A base written as a dotted name `a.b.c` is listed as that text, and a
   * subscripted one such as `typing.Generic[T]` as `typing.Generic[...]`.
   */
  lemma BaseClassNameOfDotted(bases: seq<Expr>, j: nat, line: int, parts: seq<string>, index: Expr)
    requires j < |bases| && |parts| > 0
    ensures bases[j] == Dotted(line, parts) ==> BaseClassNames(bases)[j] == Join('.', parts)
    ensures bases[j] == Subscript(line, Dotted(line, parts), index) ==>
      BaseClassNames(bases)[j] == Join('.', parts) + "[...]"
  {
    NameFromDotted(line, parts);
  }

  /** The entity `_process_class` returns for a `class`. */
  function ClassEntityOf(c: ClassDecl, relPath: string, content: string, digest: string -> string): Entity {
    var end := FindNodeEnd(ClassNode(c));
    NewClass(c.name, relPath, c.lineno, end, c.docstring,
             Snippet(SplitLines(content), c.lineno, end),
             Methods(c.name, c.body, relPath, content, digest),
             BaseClassNames(c.bases), digest)
  }

  /**
   * A class entity spans its `class` line to its end line, carries the hash
   * of its snippet, one renamed method per `def` of its body, and one
   * rendered name per base class, in order.
   */
  lemma {:induction false} ClassEntitySpan(c: ClassDecl, relPath: string, content: string, digest: string -> string)
    requires IsDigest(digest)
    ensures var e := ClassEntityOf(c, relPath, content, digest);
      && e.Class? && e.name == c.name && e.filepath == relPath
      && e.lineStart == c.lineno && e.lineEnd == FindNodeEnd(ClassNode(c))
      && (e.hash == "" <==> e.snippet == "")
      && (0 <= e.lineEnd < e.lineStart ==> e.snippet == "")
      && (1 <= e.lineStart <= e.lineEnd <= |SplitLines(content)| ==>
            Split(e.snippet, '\n') == SplitLines(content)[e.lineStart - 1..e.lineEnd])
      && |e.methods| == |MethodDecls(c.body)|
      && (forall k :: 0 <= k < |e.methods| ==> e.methods[k].name == c.name + "." + MethodDecls(c.body)[k].name)
      && |e.baseClasses| == |c.bases|
      && (forall k :: 0 <= k < |c.bases| && c.bases[k].Name? ==> e.baseClasses[k] == c.bases[k].id)
  {
    var e := ClassEntityOf(c, relPath, content, digest);
    var lines := SplitLines(content);
    HashEmptyIff(e.snippet, digest);
    MethodsQualified(c.name, c.body, relPath, content, digest);
    if 0 <= e.lineEnd < e.lineStart {
      SnippetEmptyWhenEndBeforeStart(lines, e.lineStart, e.lineEnd);
    }
    if 1 <= e.lineStart <= e.lineEnd <= |lines| {
      SourceLinesHaveNoNewline(content);
      SnippetHoldsLines(lines, e.lineStart, e.lineEnd);
    }
  }

  // ---------------------------------------------------------------------------
  // _extract_imports

  /** The strings one statement contributes: one per imported alias. */
  function AliasImports(s: Stmt): (r: seq<string>)
    ensures !s.Import? && !s.ImportFrom? ==> r == []
  {
    match s
    case Import(names, _) => ImportStrings(names)
    case ImportFrom(source, names, _) => FromStrings(source.GetOr(""), names)
    case _ => []
  }

  /** `import X` for each name of an `import` statement. */
  function ImportStrings(names: seq<string>): (r: seq<string>)
    ensures |r| == |names|
    ensures forall j :: 0 <= j < |names| ==> r[j] == "import " + names[j]
  {
    seq(|names|, j requires 0 <= j < |names| => "import " + names[j])
  }

  /** `from M import X` for each name of a `from M import ...` statement. */
  function FromStrings(moduleName: string, names: seq<string>): (r: seq<string>)
    ensures |r| == |names|
    ensures forall j :: 0 <= j < |names| ==> r[j] == "from " + moduleName + " import " + names[j]
  {
    seq(|names|, j requires 0 <= j < |names| => "from " + moduleName + " import " + names[j])
  }

  /** The import strings of a module body, statement by statement. */
  function Imports(body: seq<Stmt>): seq<string>
    decreases |body|
  {
    if body == [] then [] else Imports(body[..|body| - 1]) + AliasImports(body[|body| - 1])
  }

  /** The alias loop of an `import` statement. */
  method AppendImportStrings(imports: seq<string>, names: seq<string>) returns (r: seq<string>)
    ensures r == imports + ImportStrings(names)
  {
    r := imports;
    for j := 0 to |names|
      invariant r == imports + ImportStrings(names)[..j]
    {
      assert ImportStrings(names)[..j + 1] == ImportStrings(names)[..j] + ["import " + names[j]];
      r := r + ["import " + names[j]];
    }
    assert ImportStrings(names)[..|names|] == ImportStrings(names);
  }

  /** The alias loop of a `from M import ...` statement. */
  method AppendFromStrings(imports: seq<string>, moduleName: string, names: seq<string>) returns (r: seq<string>)
    ensures r == imports + FromStrings(moduleName, names)
  {
    r := imports;
    for j := 0 to |names|
      invariant r == imports + FromStrings(moduleName, names)[..j]
    {
      assert FromStrings(moduleName, names)[..j + 1]
        == FromStrings(moduleName, names)[..j] + ["from " + moduleName + " import " + names[j]];
      r := r + ["from " + moduleName + " import " + names[j]];
    }
    assert FromStrings(moduleName, names)[..|names|] == FromStrings(moduleName, names);
  }

  method ExtractImports(body: seq<Stmt>) returns (imports: seq<string>)
    ensures imports == Imports(body)
  {
    imports := [];
    for i := 0 to |body|
      invariant imports == Imports(body[..i])
    {
      assert body[..i + 1][..i] == body[..i];
      match body[i]
      case Import(names, _) =>
        imports := AppendImportStrings(imports, names);
      case ImportFrom(source, names, _) =>
        var moduleName := if source.Some? then source.value else "";
        assert moduleName == source.GetOr("");
        imports := AppendFromStrings(imports, moduleName, names);
      case _ =>
    }
    assert body[..|body|] == body;
  }

  /** The number of names imported by the statements of a body. */
  function AliasCount(body: seq<Stmt>): nat
    decreases |body|
  {
    if body == [] then 0
    else AliasCount(body[..|body| - 1])
         + match body[|body| - 1]
           case Import(names, _) => |names|
           case ImportFrom(_, names, _) => |names|
           case _ => 0
  }

  /** Exactly one import string per imported name. */
  lemma {:induction false} ImportsCount(body: seq<Stmt>)
    ensures |Imports(body)| == AliasCount(body)
    decreases |body|
  {
    if body != [] {
      ImportsCount(body[..|body| - 1]);
    }
  }

  /** Appending one statement appends that statement's strings. */
  lemma ImportsSnoc(body: seq<Stmt>, s: Stmt)
    ensures Imports(body + [s]) == Imports(body) + AliasImports(s)
  {
    assert (body + [s])[..|body|] == body;
  }

  /** The strings of consecutive statements follow each other: statement order is kept. */
  lemma {:induction false} ImportsAppend(a: seq<Stmt>, b: seq<Stmt>)
    ensures Imports(a + b) == Imports(a) + Imports(b)
    decreases |b|
  {
    if b == [] {
      assert a + b == a;
    } else {
      var init, last := b[..|b| - 1], b[|b| - 1];
      assert b == init + [last];
      assert a + b == (a + init) + [last];
      calc {
        Imports(a + b);
        { ImportsSnoc(a + init, last); }
        Imports(a + init) + AliasImports(last);
        { ImportsAppend(a, init); }
        (Imports(a) + Imports(init)) + AliasImports(last);
        { AppendAssoc(Imports(a), Imports(init), AliasImports(last)); }
        Imports(a) + (Imports(init) + AliasImports(last));
        { ImportsSnoc(init, last); }
        Imports(a) + Imports(b);
      }
    }
  }

  lemma AppendAssoc<T>(x: seq<T>, y: seq<T>, z: seq<T>)
    ensures (x + y) + z == x + (y + z)
  {
  }

  /** Statements other than imports contribute nothing. */
  lemma {:induction false} ImportsOfOtherStatements(body: seq<Stmt>)
    requires forall i :: 0 <= i < |body| ==> !body[i].Import? && !body[i].ImportFrom?
    ensures Imports(body) == []
    decreases |body|
  {
    if body != [] {
      ImportsOfOtherStatements(body[..|body| - 1]);
    }
  }

  /** `x` is `import X` for a name X of an `import` statement, or `from M import X` for one of a `from` import. */
  predicate ImportedAs(s: Stmt, x: string) {
    || (s.Import? && exists j :: 0 <= j < |s.names| && x == "import " + s.names[j])
    || (s.ImportFrom? &&
        exists j :: 0 <= j < |s.names| && x == "from " + s.source.GetOr("") + " import " + s.names[j])
  }

  /** Each string is `import X` or `from M import X` for a name of some import statement. */
  lemma {:induction false} ImportForms(body: seq<Stmt>, x: string)
    requires x in Imports(body)
    ensures exists i :: 0 <= i < |body| && ImportedAs(body[i], x)
    decreases |body|
  {
    var init := body[..|body| - 1];
    var last := |body| - 1;
    if x in Imports(init) {
      ImportForms(init, x);
      var i :| 0 <= i < |init| && ImportedAs(init[i], x);
      assert init[i] == body[i];
    } else {
      assert x in AliasImports(body[last]);
      var j :| 0 <= j < |AliasImports(body[last])| && AliasImports(body[last])[j] == x;
    }
  }

  // ---------------------------------------------------------------------------
  // _index_file

  /**
   * `os.path.splitext(b)[0]`: the text before the last dot, unless only dots
   * precede that dot (a leading-dot name has no extension).
   */
  function StripExtension(b: string): string {
    var ext := LastSegment(b, '.');
    if ext == b then b
    else
      var dot := |b| - |ext| - 1;
      if exists j | 0 <= j < dot :: b[j] != '.' then b[..dot] else b
  }

  /** `os.path.splitext(os.path.basename(path))[0]`. */
  function ModuleName(path: string): string {
    StripExtension(LastSegment(path, '/'))
  }

  /** The module name of `dir/stem.py` is `stem`, for a stem with a character other than a dot. */
  lemma {:induction false} ModuleNameOfSourceFile(dir: string, stem: string)
    requires '/' !in stem
    requires exists j :: 0 <= j < |stem| && stem[j] != '.'
    ensures ModuleName(dir + "/" + stem + ".py") == stem
  {
    assert dir + "/" + stem + ".py" == dir + ['/'] + (stem + ".py");
    LastSegmentOfJoined(dir, '/', stem + ".py");
    StripPyExtension(stem);
  }

  lemma {:induction false} StripPyExtension(stem: string)
    requires exists j :: 0 <= j < |stem| && stem[j] != '.'
    ensures StripExtension(stem + ".py") == stem
  {
    var b := stem + ".py";
    assert b == stem + ['.'] + "py";
    LastSegmentOfJoined(stem, '.', "py");
    var j :| 0 <= j < |stem| && stem[j] != '.';
    assert b[j] != '.';
    assert b[..|stem|] == stem;
  }

  /** The `(key, entity)` writes for entities keyed by their own names. */
  function Entries(es: seq<Entity>): (ps: seq<(string, Entity)>)
    ensures |ps| == |es|
    ensures forall k :: 0 <= k < |es| ==> ps[k] == (es[k].name, es[k])
  {
    seq(|es|, k requires 0 <= k < |es| => (es[k].name, es[k]))
  }

  /**
   * The writes to `all_entities` one top-level statement causes: for a class,
   * its methods (inside `_process_class`) and then the class; for a `def`, the
   * function. Other statements, including async defs, cause none.
   */
  function StmtEntries(s: Stmt, relPath: string, content: string, digest: string -> string)
    : seq<(string, Entity)>
  {
    match s
    case ClassDef(c) =>
      Entries(Methods(c.name, c.body, relPath, content, digest))
      + [(c.name, ClassEntityOf(c, relPath, content, digest))]
    case FunctionDef(f) => [(f.name, FunctionEntityOf(f, relPath, content, digest))]
    case _ => []
  }

  /** Every write stores an entity under its own name, with the hash of its own snippet. */
  ghost predicate KeyedAndHashed(ps: seq<(string, Entity)>, digest: string -> string) {
    forall k :: 0 <= k < |ps| ==> ps[k].0 == ps[k].1.name && Hashed(ps[k].1, digest)
  }

  lemma KeyedAndHashedAppend(a: seq<(string, Entity)>, b: seq<(string, Entity)>, digest: string -> string)
    requires KeyedAndHashed(a, digest) && KeyedAndHashed(b, digest)
    ensures KeyedAndHashed(a + b, digest)
  {
    forall k | 0 <= k < |a + b|
      ensures (a + b)[k].0 == (a + b)[k].1.name && Hashed((a + b)[k].1, digest)
    {
      if k >= |a| {
        assert (a + b)[k] == b[k - |a|];
      }
    }
  }

  /** The writes to `all_entities` the top-level statements of a module cause, in order. */
  function BodyEntries(body: seq<Stmt>, relPath: string, content: string, digest: string -> string)
    : seq<(string, Entity)>
    decreases |body|
  {
    if body == [] then []
    else
      BodyEntries(body[..|body| - 1], relPath, content, digest)
      + StmtEntries(body[|body| - 1], relPath, content, digest)
  }

  /** Every write caused by the top-level statements is keyed by name and hashed. */
  lemma {:induction false} BodyEntriesKeyed(body: seq<Stmt>, relPath: string, content: string,
                                            digest: string -> string)
    ensures KeyedAndHashed(BodyEntries(body, relPath, content, digest), digest)
    decreases |body|
  {
    if body != [] {
      BodyEntriesKeyed(body[..|body| - 1], relPath, content, digest);
      MethodsHashed(body[|body| - 1], relPath, content, digest);
      KeyedAndHashedAppend(BodyEntries(body[..|body| - 1], relPath, content, digest),
                           StmtEntries(body[|body| - 1], relPath, content, digest), digest);
    }
  }

  /** The writes of one statement are keyed by name and hashed. */
  lemma {:induction false} MethodsHashed(s: Stmt, relPath: string, content: string, digest: string -> string)
    ensures KeyedAndHashed(StmtEntries(s, relPath, content, digest), digest)
  {
    if s.ClassDef? {
      MethodsQualified(s.cls.name, s.cls.body, relPath, content, digest);
      var ms := Entries(Methods(s.cls.name, s.cls.body, relPath, content, digest));
      var c := [(s.cls.name, ClassEntityOf(s.cls, relPath, content, digest))];
      assert KeyedAndHashed(ms, digest);
      assert KeyedAndHashed(c, digest);
      KeyedAndHashedAppend(ms, c, digest);
    }
  }

  /** `module.classes`: the class entities of the top-level `class` statements, in order. */
  function Classes(body: seq<Stmt>, relPath: string, content: string, digest: string -> string)
    : seq<Entity>
    decreases |body|
  {
    if body == [] then []
    else
      Classes(body[..|body| - 1], relPath, content, digest)
      + match body[|body| - 1]
        case ClassDef(c) => [ClassEntityOf(c, relPath, content, digest)]
        case _ => []
  }

  /** `module.functions`: the function entities of the top-level `def` statements, in order. */
  function Functions(body: seq<Stmt>, relPath: string, content: string, digest: string -> string)
    : seq<Entity>
    decreases |body|
  {
    if body == [] then []
    else
      Functions(body[..|body| - 1], relPath, content, digest)
      + match body[|body| - 1]
        case FunctionDef(f) => [FunctionEntityOf(f, relPath, content, digest)]
        case _ => []
  }

  /** The module entity `_index_file` builds: lines 1 to the line count, the whole file as snippet. */
  function ModuleEntityOf(name: string, relPath: string, content: string, tree: ModuleAst,
                          digest: string -> string): (e: Entity)
    ensures e.Module? && e.name == name && e.snippet == content && Hashed(e, digest)
    ensures e.lineStart == 1 && e.lineEnd == |SplitLines(content)| && e.filepath == relPath
  {
    NewModule(name, relPath, 1, |SplitLines(content)|, tree.docstring, content,
              Functions(tree.body, relPath, content, digest),
              Classes(tree.body, relPath, content, digest),
              Imports(tree.body), digest)
  }

  /**
   * All writes to `all_entities` that indexing one parsed file causes, in
   * order: those of its statements, then the module itself.
   */
  function FileEntries(path: string, relPath: string, content: string, tree: ModuleAst,
                       digest: string -> string): seq<(string, Entity)>
  {
    var name := ModuleName(path);
    BodyEntries(tree.body, relPath, content, digest)
    + [(name, ModuleEntityOf(name, relPath, content, tree, digest))]
  }

  /**
   * Every write of a file puts an entity under its own name and with the hash
   * of its own snippet; the module's write comes last.
   */
  lemma FileEntriesKeyedByName(
    path: string, relPath: string, content: string, tree: ModuleAst, digest: string -> string)
    ensures KeyedAndHashed(FileEntries(path, relPath, content, tree, digest), digest)
  {
    var name := ModuleName(path);
    var body := BodyEntries(tree.body, relPath, content, digest);
    var m := [(name, ModuleEntityOf(name, relPath, content, tree, digest))];
    BodyEntriesKeyed(tree.body, relPath, content, digest);
    assert KeyedAndHashed(m, digest);
    KeyedAndHashedAppend(body, m, digest);
    assert FileEntries(path, relPath, content, tree, digest) == body + m;
  }
}
