/**
 * `CodeIndexer`: the two insertion-ordered dictionaries the indexer fills,
 * `modules` and `all_entities`, the methods that fill them and the queries
 * that read them.
 */
module Indexer {
  import opened Wrappers
  import opened Text
  import opened OrderedMaps
  import opened Syntax
  import opened Entities
  import opened Extraction
  import opened Queries

  /**
   * A Python file found under the root: its path, its path relative to the
   * root, its text, and its parse tree. `tree` is `None` when the file could
   * not be read or parsed; such a file is skipped.
   */
  datatype SourceFile = SourceFile(path: string, relPath: string, content: string, tree: Option<ModuleAst>)

  /** The exclusion patterns used when none (or an empty list) are given. */
  const DefaultExcludePatterns: seq<string> := ["__pycache__", "*.pyc", ".*", "venv", "env"]

  /** The writes one file makes to `all_entities`: its classes, methods and functions, then the module. */
  function FileWrites(file: SourceFile, digest: string -> string): seq<(string, Entity)> {
    if file.tree.None? then []
    else FileEntries(file.path, file.relPath, file.content, file.tree.value, digest)
  }

  /** The write one file makes to `modules`. */
  function ModuleWrites(file: SourceFile, digest: string -> string): seq<(string, Entity)> {
    if file.tree.None? then []
    else
      var name := ModuleName(file.path);
      [(name, ModuleEntityOf(name, file.relPath, file.content, file.tree.value, digest))]
  }

  /** The writes to `all_entities` of indexing `files` in order. */
  function CodebaseWrites(files: seq<SourceFile>, digest: string -> string): seq<(string, Entity)>
    decreases |files|
  {
    if files == [] then []
    else CodebaseWrites(files[..|files| - 1], digest) + FileWrites(files[|files| - 1], digest)
  }

  /** The writes to `modules` of indexing `files` in order. */
  function CodebaseModuleWrites(files: seq<SourceFile>, digest: string -> string): seq<(string, Entity)>
    decreases |files|
  {
    if files == [] then []
    else CodebaseModuleWrites(files[..|files| - 1], digest) + ModuleWrites(files[|files| - 1], digest)
  }

  /**
   * Indexing the same files a second time, on top of any earlier index, leaves
   * both dictionaries exactly as the first pass left them: same keys, same
   * order, same entities.
   */
  lemma ReindexUnchanged(entities: OrderedMap<Entity>, modules: OrderedMap<Entity>,
                         files: seq<SourceFile>, digest: string -> string)
    ensures var once := entities.PutAll(CodebaseWrites(files, digest));
      once.PutAll(CodebaseWrites(files, digest)) == once
    ensures var once := modules.PutAll(CodebaseModuleWrites(files, digest));
      once.PutAll(CodebaseModuleWrites(files, digest)) == once
  {
    PutAllTwice(entities, CodebaseWrites(files, digest));
    PutAllTwice(modules, CodebaseModuleWrites(files, digest));
  }

  /**
   * Indexing never removes anything: every name indexed before is still
   * there afterwards, in its old position, and an entity whose name no
   * indexed file produces keeps its old value (a deleted file's entities stay).
   */
  lemma IndexingKeepsOldEntries(entities: OrderedMap<Entity>, files: seq<SourceFile>,
                                digest: string -> string, k: string)
    requires k in entities.items
    ensures var after := entities.PutAll(CodebaseWrites(files, digest));
      && entities.keys <= after.keys
      && k in after.items
      && (LastWrite(CodebaseWrites(files, digest), k).None? ==> after.items[k] == entities.items[k])
  {
    PutAllItems(entities, CodebaseWrites(files, digest), k);
  }

  /**
   * After a file is indexed, its module entity can be looked up under the
   * file's base name in `all_entities`, whatever was stored there before.
   */
  lemma IndexedModuleFound(entities: OrderedMap<Entity>, file: SourceFile, digest: string -> string)
    requires file.tree.Some?
    ensures var name := ModuleName(file.path);
      var after := entities.PutAll(FileWrites(file, digest));
      && name in after.items
      && after.items[name] == ModuleEntityOf(name, file.relPath, file.content, file.tree.value, digest)
      && after.items[name].Module?
  {
    var name := ModuleName(file.path);
    var tree := file.tree.value;
    var ps := FileWrites(file, digest);
    var e := ModuleEntityOf(name, file.relPath, file.content, tree, digest);
    assert ps == BodyEntries(tree.body, file.relPath, file.content, digest) + [(name, e)];
    assert ps[|ps| - 1] == (name, e);
    PutAllLastWins(entities, ps);
  }

  /** Qualifying by the same class keeps method names apart. */
  lemma QualifiedNameInjective(owner: string, x: string, y: string)
    ensures owner + "." + x == owner + "." + y <==> x == y
  {
    if owner + "." + x == owner + "." + y {
      assert (owner + "." + x)[|owner| + 1..] == x;
      assert (owner + "." + y)[|owner| + 1..] == y;
    }
  }

  /** The write `_process_class` makes for the `j`-th method: under `Class.method`, the method entity. */
  lemma MethodEntry(className: string, body: seq<Stmt>, relPath: string, content: string,
                    digest: string -> string, j: nat)
    requires j < |MethodDecls(body)|
    ensures var ps := Entries(Methods(className, body, relPath, content, digest));
      && |ps| == |MethodDecls(body)|
      && ps[j] == (className + "." + MethodDecls(body)[j].name,
                   MethodEntity(className, MethodDecls(body)[j], relPath, content, digest))
  {
    MethodsOfDecls(className, body, relPath, content, digest);
  }

  /**
   * After `_process_class`, every method of the class can be looked up as
   * `Class.method`, and the entity found is that of the last `def` of that
   * name in the class body (a redefinition replaces the earlier one).
   */
  lemma {:induction false} MethodFoundAfterProcessClass(
    entities: OrderedMap<Entity>, c: ClassDecl, relPath: string, content: string,
    digest: string -> string, j: nat)
    requires j < |MethodDecls(c.body)|
    ensures var ds := MethodDecls(c.body);
      var k := c.name + "." + ds[j].name;
      var after := entities.PutAll(Entries(Methods(c.name, c.body, relPath, content, digest)));
      && k in after.items
      && exists j' ::
           && j <= j' < |ds| && ds[j'].name == ds[j].name
           && (forall j'' :: j' < j'' < |ds| ==> ds[j''].name != ds[j].name)
           && after.items[k] == MethodEntity(c.name, ds[j'], relPath, content, digest)
  {
    var ds := MethodDecls(c.body);
    var ps := Entries(Methods(c.name, c.body, relPath, content, digest));
    var k := c.name + "." + ds[j].name;
    MethodEntry(c.name, c.body, relPath, content, digest, j);
    PutAllItems(entities, ps, k);
    LastWriteIsLast(ps, k);
    var i :|
      && 0 <= i < |ps| && ps[i] == (k, LastWrite(ps, k).value)
      && forall i' :: i < i' < |ps| ==> ps[i'].0 != k;
    MethodEntry(c.name, c.body, relPath, content, digest, i);
    QualifiedNameInjective(c.name, ds[i].name, ds[j].name);
    forall j'' | i < j'' < |ds| ensures ds[j''].name != ds[j].name {
      MethodEntry(c.name, c.body, relPath, content, digest, j'');
      QualifiedNameInjective(c.name, ds[j''].name, ds[j].name);
    }
  }

  /** The write of the `j`-th method is among the writes of its `class` statement. */
  lemma MethodEntryInClass(c: ClassDecl, relPath: string, content: string, digest: string -> string, j: nat)
    requires j < |MethodDecls(c.body)|
    ensures var ps := Entries(Methods(c.name, c.body, relPath, content, digest));
      j < |ps| && ps[j] in StmtEntries(ClassDef(c), relPath, content, digest)
  {
    MethodEntry(c.name, c.body, relPath, content, digest, j);
    var ps := Entries(Methods(c.name, c.body, relPath, content, digest));
    assert StmtEntries(ClassDef(c), relPath, content, digest)[j] == ps[j];
  }

  /** Every write of one top-level statement is among the writes of the body. */
  lemma {:induction false} StmtEntriesInBody(
    body: seq<Stmt>, i: nat, relPath: string, content: string, digest: string -> string,
    p: (string, Entity))
    requires i < |body| && p in StmtEntries(body[i], relPath, content, digest)
    ensures p in BodyEntries(body, relPath, content, digest)
    decreases |body|
  {
    if i < |body| - 1 {
      var init := body[..|body| - 1];
      assert init[i] == body[i];
      StmtEntriesInBody(init, i, relPath, content, digest, p);
    }
  }

  /** With every write keyed by its entity's name, a written key holds an entity of that name. */
  lemma KeyedWriteFound(entities: OrderedMap<Entity>, ps: seq<(string, Entity)>, b: nat)
    requires b < |ps| && forall k :: 0 <= k < |ps| ==> ps[k].0 == ps[k].1.name
    ensures ps[b].0 in entities.PutAll(ps).items && entities.PutAll(ps).items[ps[b].0].name == ps[b].0
  {
    PutAllFindsWrite(entities, ps, b);
  }

  /** A key written by a file's top-level statements is present afterwards, under an entity of that name. */
  lemma WrittenKeyFound(entities: OrderedMap<Entity>, file: SourceFile, digest: string -> string,
                        p: (string, Entity))
    requires file.tree.Some?
    requires p in BodyEntries(file.tree.value.body, file.relPath, file.content, digest)
    ensures var after := entities.PutAll(FileWrites(file, digest));
      p.0 in after.items && after.items[p.0].name == p.0
  {
    var tree := file.tree.value;
    var ps := FileWrites(file, digest);
    var body := BodyEntries(tree.body, file.relPath, file.content, digest);
    var b :| 0 <= b < |body| && body[b] == p;
    assert ps[..|ps| - 1] == body;
    assert ps[b] == p;
    FileEntriesKeyedByName(file.path, file.relPath, file.content, tree, digest);
    KeyedWriteFound(entities, ps, b);
  }

  /**
   * After a file is indexed, every method of each of its top-level classes
   * can be looked up in `all_entities` as `Class.method`, and the entity
   * found bears that name.
   */
  lemma MethodFoundAfterIndexing(
    entities: OrderedMap<Entity>, file: SourceFile, digest: string -> string, i: nat, j: nat)
    requires file.tree.Some? && i < |file.tree.value.body| && file.tree.value.body[i].ClassDef?
    requires j < |MethodDecls(file.tree.value.body[i].cls.body)|
    ensures var c := file.tree.value.body[i].cls;
      var k := c.name + "." + MethodDecls(c.body)[j].name;
      var after := entities.PutAll(FileWrites(file, digest));
      k in after.items && after.items[k].name == k
  {
    var tree := file.tree.value;
    var c := tree.body[i].cls;
    MethodEntry(c.name, c.body, file.relPath, file.content, digest, j);
    MethodEntryInClass(c, file.relPath, file.content, digest, j);
    var p := Entries(Methods(c.name, c.body, file.relPath, file.content, digest))[j];
    assert tree.body[i] == ClassDef(c);
    StmtEntriesInBody(tree.body, i, file.relPath, file.content, digest, p);
    WrittenKeyFound(entities, file, digest, p);
  }

  // ---------------------------------------------------------------------------
  // One step of the loops below

  lemma PutAllSnoc(m: OrderedMap<Entity>, ps: seq<(string, Entity)>, p: (string, Entity))
    ensures m.PutAll(ps + [p]) == m.PutAll(ps).Put(p.0, p.1)
  {
    assert (ps + [p])[..|ps|] == ps;
  }

  lemma EntriesSnoc(es: seq<Entity>, e: Entity)
    ensures Entries(es + [e]) == Entries(es) + [(e.name, e)]
  {
  }

  lemma MethodsStep(className: string, body: seq<Stmt>, i: nat, relPath: string, content: string,
                    digest: string -> string)
    requires i < |body|
    ensures Methods(className, body[..i + 1], relPath, content, digest)
      == Methods(className, body[..i], relPath, content, digest)
         + (if body[i].FunctionDef? then [MethodEntity(className, body[i].fn, relPath, content, digest)] else [])
  {
    assert body[..i + 1][..i] == body[..i];
  }

  lemma BodyStep(body: seq<Stmt>, i: nat, relPath: string, content: string, digest: string -> string)
    requires i < |body|
    ensures BodyEntries(body[..i + 1], relPath, content, digest)
      == BodyEntries(body[..i], relPath, content, digest) + StmtEntries(body[i], relPath, content, digest)
    ensures Classes(body[..i + 1], relPath, content, digest)
      == Classes(body[..i], relPath, content, digest)
         + (if body[i].ClassDef? then [ClassEntityOf(body[i].cls, relPath, content, digest)] else [])
    ensures Functions(body[..i + 1], relPath, content, digest)
      == Functions(body[..i], relPath, content, digest)
         + (if body[i].FunctionDef? then [FunctionEntityOf(body[i].fn, relPath, content, digest)] else [])
  {
    assert body[..i + 1][..i] == body[..i];
  }

  // ---------------------------------------------------------------------------
  // The loops of get_entity_relationships

  /** The `imported_by` loop: over the modules, over each one's import strings. */
  method CollectImportedBy(mods: seq<Entity>, name: string) returns (importedBy: seq<string>)
    requires forall i :: 0 <= i < |mods| ==> mods[i].Module?
    ensures importedBy == ImportedBy(mods, name)
  {
    importedBy := [];
    for i := 0 to |mods|
      invariant importedBy == ImportedBy(mods[..i], name)
    {
      assert mods[..i + 1][..i] == mods[..i];
      var other := mods[i];
      var stmts := other.imports;
      for j := 0 to |stmts|
        invariant importedBy == ImportedBy(mods[..i], name) + Importers(stmts[..j], name, other.name)
      {
        assert stmts[..j + 1][..j] == stmts[..j];
        if Contains(stmts[j], name) {
          importedBy := importedBy + [other.name];
        }
      }
      assert stmts[..|stmts|] == stmts;
    }
    assert mods[..|mods|] == mods;
  }

  /** The `imports` loop: over the module's import strings, over the indexed module names. */
  method CollectImports(importStmts: seq<string>, names: seq<string>) returns (imports: seq<string>)
    ensures imports == ImportTargets(importStmts, names)
  {
    imports := [];
    for i := 0 to |importStmts|
      invariant imports == ImportTargets(importStmts[..i], names)
    {
      assert importStmts[..i + 1][..i] == importStmts[..i];
      for j := 0 to |names|
        invariant imports == ImportTargets(importStmts[..i], names) + NamesIn(importStmts[i], names[..j])
      {
        assert names[..j + 1][..j] == names[..j];
        if Contains(importStmts[i], names[j]) {
          imports := imports + [names[j]];
        }
      }
      assert names[..|names|] == names;
    }
    assert importStmts[..|importStmts|] == importStmts;
  }

  /**
   * The body of the `search_entities` loop for one entity: skipped when the
   * type filter rejects it, kept at the first of name, docstring and snippet
   * that contains the query.
   */
  method MatchTest(entity: Entity, queryLower: string, entityType: Option<string>) returns (m: bool)
    ensures m == Matches(entity, queryLower, entityType)
  {
    if entityType.Some? && entityType.value != "" && EntityType(entity) != entityType.value {
      return false;
    }
    if Contains(Lower(entity.name), queryLower) {
      return true;
    }
    if entity.docstring.Some? && entity.docstring.value != ""
       && Contains(Lower(entity.docstring.value), queryLower) {
      return true;
    }
    m := entity.snippet != "" && Contains(Lower(entity.snippet), queryLower);
  }

  /** The usage test of `get_entity_relationships`: a non-empty snippet, a substring pre-check, then the whole-word search. */
  method MentionTest(snippet: string, word: string) returns (m: bool)
    ensures m == Mentions(snippet, word)
    ensures m <==> snippet != "" && ContainsWholeWord(snippet, word)
  {
    m := snippet != "" && Contains(snippet, word) && ContainsWholeWord(snippet, word);
    MentionsIsWholeWord(snippet, word);
  }

  /** The usage loop: one pass over all entities, skipping the entity itself. */
  method CollectUsage(vals: seq<Entity>, entity: Entity) returns (uses: seq<string>, usedBy: seq<string>)
    ensures uses == Uses(vals, entity) && usedBy == UsedBy(vals, entity)
  {
    uses, usedBy := [], [];
    var simpleName := SimpleName(entity.name);
    for i := 0 to |vals|
      invariant usedBy == UsedBy(vals[..i], entity)
      invariant uses == Uses(vals[..i], entity)
    {
      UsageStep(vals, i, entity);
      var other := vals[i];
      if other.name != entity.name {
        var mentionsEntity := MentionTest(other.snippet, simpleName);
        if mentionsEntity {
          usedBy := usedBy + [other.name];
        }
        var mentionsOther := MentionTest(entity.snippet, SimpleName(other.name));
        if mentionsOther {
          uses := uses + [other.name];
        }
      }
    }
    assert vals[..|vals|] == vals;
  }

  class CodeIndexer {
    const rootPath: string
    const excludePatterns: seq<string>
    /** The hash function applied to code snippets (MD5 hex digest in the original). */
    const digest: string -> string
    var modules: OrderedMap<Entity>
    var allEntities: OrderedMap<Entity>

    /**
     * Every entity is stored under its own name and carries the hash of its
     * snippet; `modules` holds module entities only.
     */
    ghost predicate Valid()
      reads this
    {
      && modules.Valid() && allEntities.Valid()
      && (forall k :: k in allEntities.items ==>
            allEntities.items[k].name == k && Hashed(allEntities.items[k], digest))
      && (forall k :: k in modules.items ==> modules.items[k].Module? && modules.items[k].name == k)
    }

    constructor (rootPath: string, excludePatterns: Option<seq<string>>, digest: string -> string)
      ensures Valid()
      ensures this.rootPath == rootPath && this.digest == digest
      ensures this.excludePatterns ==
        if excludePatterns.None? || excludePatterns.value == [] then DefaultExcludePatterns
        else excludePatterns.value
      ensures modules == Empty() && allEntities == Empty()
    {
      this.rootPath := rootPath;
      this.excludePatterns :=
        if excludePatterns.None? || excludePatterns.value == [] then DefaultExcludePatterns
        else excludePatterns.value;
      this.digest := digest;
      modules := Empty();
      allEntities := Empty();
    }

    /** Stores `e` under its own name. */
    method Register(e: Entity)
      requires Valid() && Hashed(e, digest)
      modifies this
      ensures Valid()
      ensures modules == old(modules)
      ensures allEntities == old(allEntities).Put(e.name, e)
    {
      allEntities := allEntities.Put(e.name, e);
    }

    /**
     * `_process_class`: builds the class entity and stores each of its
     * methods under `Class.method`.
     */
    method ProcessClass(c: ClassDecl, relPath: string, content: string) returns (classEntity: Entity)
      requires Valid()
      modifies this
      ensures Valid()
      ensures classEntity == ClassEntityOf(c, relPath, content, digest)
      ensures modules == old(modules)
      ensures allEntities == old(allEntities).PutAll(Entries(Methods(c.name, c.body, relPath, content, digest)))
    {
      var sourceLines := SplitLines(content);
      var classEnd := FindNodeEnd(ClassNode(c));
      var classCode := Snippet(sourceLines, c.lineno, classEnd);
      var baseClasses := BaseClassNames(c.bases);
      var methods := [];
      for i := 0 to |c.body|
        invariant Valid() && modules == old(modules)
        invariant methods == Methods(c.name, c.body[..i], relPath, content, digest)
        invariant allEntities == old(allEntities).PutAll(Entries(methods))
      {
        MethodsStep(c.name, c.body, i, relPath, content, digest);
        if c.body[i].FunctionDef? {
          var item := c.body[i].fn;
          var methodEntity := ProcessFunction(item, relPath, content, digest);
          var qualifiedName := c.name + "." + item.name;
          methodEntity := Renamed(methodEntity, qualifiedName);
          EntriesSnoc(methods, methodEntity);
          PutAllSnoc(old(allEntities), Entries(methods), (qualifiedName, methodEntity));
          methods := methods + [methodEntity];
          Register(methodEntity);
        }
      }
      assert c.body[..|c.body|] == c.body;
      classEntity := NewClass(c.name, relPath, c.lineno, classEnd, c.docstring, classCode,
                              methods, baseClasses, digest);
    }

    /** Stores a module entity under its own name in both dictionaries. */
    method RegisterModule(m: Entity)
      requires Valid() && m.Module? && Hashed(m, digest)
      modifies this
      ensures Valid()
      ensures modules == old(modules).Put(m.name, m)
      ensures allEntities == old(allEntities).Put(m.name, m)
    {
      modules := modules.Put(m.name, m);
      allEntities := allEntities.Put(m.name, m);
    }

    /**
     * The statement loop of `_index_file`: top-level classes (with their
     * methods) and functions are stored in source order and collected for the
     * module entity; other statements are skipped.
     */
    method IndexBody(body: seq<Stmt>, relPath: string, content: string)
      returns (classes: seq<Entity>, functions: seq<Entity>)
      requires Valid()
      modifies this
      ensures Valid() && modules == old(modules)
      ensures allEntities == old(allEntities).PutAll(BodyEntries(body, relPath, content, digest))
      ensures classes == Classes(body, relPath, content, digest)
      ensures functions == Functions(body, relPath, content, digest)
    {
      classes, functions := [], [];
      for i := 0 to |body|
        invariant Valid() && modules == old(modules)
        invariant allEntities == old(allEntities).PutAll(BodyEntries(body[..i], relPath, content, digest))
        invariant classes == Classes(body[..i], relPath, content, digest)
        invariant functions == Functions(body[..i], relPath, content, digest)
      {
        BodyStep(body, i, relPath, content, digest);
        var before := allEntities;
        PutAllAppend(old(allEntities), BodyEntries(body[..i], relPath, content, digest),
                     StmtEntries(body[i], relPath, content, digest));
        match body[i]
        case ClassDef(c) =>
          var classEntity := ProcessClass(c, relPath, content);
          classes := classes + [classEntity];
          Register(classEntity);
          PutAllSnoc(before, Entries(Methods(c.name, c.body, relPath, content, digest)), (c.name, classEntity));
        case FunctionDef(f) =>
          var funcEntity := ProcessFunction(f, relPath, content, digest);
          functions := functions + [funcEntity];
          Register(funcEntity);
          PutAllSnoc(before, [], (f.name, funcEntity));
          assert [] + [(f.name, funcEntity)] == [(f.name, funcEntity)];
        case _ =>
      }
      assert body[..|body|] == body;
    }

    /**
     * `_index_file`: a file that could not be read or parsed changes nothing;
     * otherwise its top-level classes (with their methods) and functions are
     * stored in source order, then the module under its file name, in both
     * dictionaries.
     */
    method IndexFile(file: SourceFile)
      requires Valid()
      modifies this
      ensures Valid()
      ensures allEntities == old(allEntities).PutAll(FileWrites(file, digest))
      ensures modules == old(modules).PutAll(ModuleWrites(file, digest))
    {
      if file.tree.None? {
        return;
      }
      var moduleAst := file.tree.value;
      var moduleName := ModuleName(file.path);
      var imports := ExtractImports(moduleAst.body);
      var classes, functions := IndexBody(moduleAst.body, file.relPath, file.content);
      var moduleEntity := NewModule(moduleName, file.relPath, 1, |SplitLines(file.content)|, moduleAst.docstring,
                                    file.content, functions, classes, imports, digest);
      assert moduleEntity == ModuleEntityOf(moduleName, file.relPath, file.content, moduleAst, digest);
      PutAllSnoc(old(allEntities), BodyEntries(moduleAst.body, file.relPath, file.content, digest),
                 (moduleName, moduleEntity));
      PutAllSnoc(old(modules), [], (moduleName, moduleEntity));
      assert [] + [(moduleName, moduleEntity)] == [(moduleName, moduleEntity)];
      RegisterModule(moduleEntity);
    }

    /**
     * `index_codebase`: indexes the files in order. The dictionaries are not
     * cleared first: a rebuild overwrites entries and keeps stale ones.
     */
    method IndexCodebase(files: seq<SourceFile>)
      requires Valid()
      modifies this
      ensures Valid()
      ensures allEntities == old(allEntities).PutAll(CodebaseWrites(files, digest))
      ensures modules == old(modules).PutAll(CodebaseModuleWrites(files, digest))
    {
      for i := 0 to |files|
        invariant Valid()
        invariant allEntities == old(allEntities).PutAll(CodebaseWrites(files[..i], digest))
        invariant modules == old(modules).PutAll(CodebaseModuleWrites(files[..i], digest))
      {
        assert files[..i + 1][..i] == files[..i];
        PutAllAppend(old(allEntities), CodebaseWrites(files[..i], digest), FileWrites(files[i], digest));
        PutAllAppend(old(modules), CodebaseModuleWrites(files[..i], digest), ModuleWrites(files[i], digest));
        IndexFile(files[i]);
      }
      assert files[..|files|] == files;
    }

    /** `search_entities`: the matching entities, in key order. */
    method SearchEntities(query: string, entityType: Option<string>) returns (results: seq<Entity>)
      requires Valid()
      ensures results == Search(allEntities.Values(), Lower(query), entityType)
      ensures Distinct(results)
    {
      var queryLower := Lower(query);
      var vals := allEntities.Values();
      results := [];
      for i := 0 to |vals|
        invariant results == Search(vals[..i], queryLower, entityType)
      {
        assert vals[..i + 1][..i] == vals[..i];
        var matched := MatchTest(vals[i], queryLower, entityType);
        if matched {
          results := results + [vals[i]];
        }
      }
      assert vals[..|vals|] == vals;
      assert Distinct(results) by {
        ValuesUnique();
        SearchDistinct(vals, queryLower, entityType);
      }
    }

    /** The index holds each entity once, and no two of its entities share a name. */
    lemma ValuesUnique()
      requires Valid()
      ensures NamesUnique(allEntities.Values()) && Distinct(allEntities.Values())
    {
      var vs := allEntities.Values();
      forall i, j | 0 <= i < |vs| && 0 <= j < |vs| && vs[i].name == vs[j].name
        ensures i == j
      {
        assert vs[i].name == allEntities.keys[i] && vs[j].name == allEntities.keys[j];
      }
    }

    /**
     * For two indexed names, `b` is among the users of `a` exactly when `a`
     * is among the entities `b` uses.
     */
    lemma RelationshipsSymmetric(a: string, b: string)
      requires Valid() && a in allEntities.items && b in allEntities.items && a != b
      ensures var vals := allEntities.Values();
        b in UsedBy(vals, allEntities.items[a]) <==> a in Uses(vals, allEntities.items[b])
    {
      var ea, eb := allEntities.items[a], allEntities.items[b];
      ValuesUnique();
      ValuesMembers(allEntities, ea);
      ValuesMembers(allEntities, eb);
      UsageSymmetric(allEntities.Values(), ea, eb);
    }

    /** `get_entity_by_name`: the entity stored under exactly this name. */
    function GetEntityByName(name: string): (r: Option<Entity>)
      requires Valid()
      reads this
      ensures r.Some? <==> name in allEntities.keys
      ensures r.Some? ==> r.value.name == name && r.value in allEntities.Values()
    {
      if name in allEntities.items then
        var i :| 0 <= i < |allEntities.keys| && allEntities.keys[i] == name;
        assert allEntities.Values()[i] == allEntities.items[name];
        Some(allEntities.items[name])
      else None
    }

    /**
     * `get_entity_relationships`: an unknown name has no relationships;
     * otherwise, for a module, the import relations by substring of the
     * import strings, and for every entity the usage relations by whole-word
     * mention of simple names in snippets.
     */
    method GetEntityRelationships(entityName: string) returns (r: Relationships)
      requires Valid()
      ensures entityName !in allEntities.items ==> r == Relationships([], [], [], [])
      ensures entityName in allEntities.items ==>
        var e := allEntities.items[entityName];
        && r.imports == (if e.Module? then ImportTargets(e.imports, modules.keys) else [])
        && r.importedBy == (if e.Module? then ImportedBy(modules.Values(), e.name) else [])
        && r.uses == Uses(allEntities.Values(), e)
        && r.usedBy == UsedBy(allEntities.Values(), e)
    {
      if entityName !in allEntities.items {
        return Relationships([], [], [], []);
      }
      var entity := allEntities.items[entityName];
      var imports, importedBy := [], [];
      if entity.Module? {
        var mods := modules.Values();
        importedBy := CollectImportedBy(mods, entity.name);
        imports := CollectImports(entity.imports, modules.keys);
      }
      var uses, usedBy := CollectUsage(allEntities.Values(), entity);
      r := Relationships(imports, importedBy, uses, usedBy);
    }
  }
}
