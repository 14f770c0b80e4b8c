/**
 * The entity records of the code index: a module, a class or a function
 * (a method is a function whose name is qualified by its class). Every
 * entity carries its name, file path, line span, docstring, source snippet
 * and a content hash of the snippet.
 */
module Entities {
  import opened Wrappers

  /** An entry of `FunctionEntity.parameters`: `{"name": ...}` with a `"type"` key only when annotated. */
  datatype Param = Param(name: string, typ: Option<string>)

  datatype Entity =
    | Module(name: string, filepath: string, lineStart: int, lineEnd: int,
             docstring: Option<string>, snippet: string, hash: string,
             functions: seq<Entity>, classes: seq<Entity>, imports: seq<string>)
    | Class(name: string, filepath: string, lineStart: int, lineEnd: int,
            docstring: Option<string>, snippet: string, hash: string,
            methods: seq<Entity>, baseClasses: seq<string>)
    | Function(name: string, filepath: string, lineStart: int, lineEnd: int,
               docstring: Option<string>, snippet: string, hash: string,
               parameters: seq<Param>, returnType: Option<string>)

  /** The `entity_type` string of each kind. */
  function EntityType(e: Entity): (t: string)
    ensures t == "module" <==> e.Module?
    ensures t == "class" <==> e.Class?
    ensures t == "function" <==> e.Function?
  {
    match e
    case Module(_, _, _, _, _, _, _, _, _, _) => "module"
    case Class(_, _, _, _, _, _, _, _, _) => "class"
    case Function(_, _, _, _, _, _, _, _, _) => "function"
  }

  /**
   * A digest function such as the hex digest of MD5: it never yields the
   * empty text.
   */
  ghost predicate IsDigest(digest: string -> string) {
    forall s :: digest(s) != ""
  }

  /** The hash set at construction: the digest of a non-empty snippet, and "" otherwise. */
  function HashOf(snippet: string, digest: string -> string): string {
    if snippet != "" then digest(snippet) else ""
  }

  /** The hash is empty exactly when the snippet is. */
  lemma {:induction false} HashEmptyIff(snippet: string, digest: string -> string)
    requires IsDigest(digest)
    ensures HashOf(snippet, digest) == "" <==> snippet == ""
  {
    if snippet != "" {
      assert digest(snippet) != "";
    }
  }

  /** The entity's hash is the one its own snippet determines. */
  ghost predicate Hashed(e: Entity, digest: string -> string) {
    e.hash == HashOf(e.snippet, digest)
  }

  /**
   * The same entity under another name, as assigning `entity.name` does: the
   * kind, span, snippet and hash stay as they were, so a hashed entity stays hashed.
   */
  function Renamed(e: Entity, newName: string): (r: Entity)
    ensures r.name == newName && EntityType(r) == EntityType(e)
    ensures r.filepath == e.filepath && r.lineStart == e.lineStart && r.lineEnd == e.lineEnd
    ensures r.docstring == e.docstring && r.snippet == e.snippet && r.hash == e.hash
    ensures forall digest :: Hashed(e, digest) ==> Hashed(r, digest)
  {
    e.(name := newName)
  }

  // Construction, with the hash computed from the snippet as `__post_init__` does.

  function NewModule(name: string, filepath: string, lineStart: int, lineEnd: int,
                     docstring: Option<string>, snippet: string,
                     functions: seq<Entity>, classes: seq<Entity>, imports: seq<string>,
                     digest: string -> string): (e: Entity)
    ensures e.Module? && e.name == name && e.snippet == snippet && Hashed(e, digest)
  {
    Module(name, filepath, lineStart, lineEnd, docstring, snippet,
           HashOf(snippet, digest), functions, classes, imports)
  }

  function NewClass(name: string, filepath: string, lineStart: int, lineEnd: int,
                    docstring: Option<string>, snippet: string,
                    methods: seq<Entity>, baseClasses: seq<string>,
                    digest: string -> string): (e: Entity)
    ensures e.Class? && e.name == name && e.snippet == snippet && Hashed(e, digest)
  {
    Class(name, filepath, lineStart, lineEnd, docstring, snippet,
          HashOf(snippet, digest), methods, baseClasses)
  }

  function NewFunction(name: string, filepath: string, lineStart: int, lineEnd: int,
                       docstring: Option<string>, snippet: string,
                       parameters: seq<Param>, returnType: Option<string>,
                       digest: string -> string): (e: Entity)
    ensures e.Function? && e.name == name && e.snippet == snippet && Hashed(e, digest)
  {
    Function(name, filepath, lineStart, lineEnd, docstring, snippet,
             HashOf(snippet, digest), parameters, returnType)
  }
}
