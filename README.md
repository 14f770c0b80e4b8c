# gitbook-mcp code index, modelled in Dafny

`gitbook-mcp.py` is a small server that builds an in-memory index of a Python
code base and answers questions about it. Each file yields one *module* entity,
plus one entity per top-level `class` and `def`. Each method of a class is
stored under the qualified name `Class.method`. Every entity records its file,
its line span, its docstring and its source snippet. It also records an MD5
hash of that snippet.

The index has two insertion-ordered dictionaries, `modules` and
`all_entities`. It answers three queries:
- a case-insensitive text search;
- an exact lookup by name;
- the relationships of an entity: which modules it imports and which import
  it, and which entities it uses and which use it, decided by whole-word
  mentions in snippets.

A companion `DocParser` searches Markdown documents line by line and extracts
inline code references.

This project models that core in Dafny and proves what it promises.

- `Text` covers the Python string operations the code relies on:
  - `lower`, `in`, `split('\n')` and `'\n'.join`;
  - `splitlines`, list slicing and `split('.')[-1]`;
  - the `\b…\b` whole-word search;
  - the split/join round trips.
- `OrderedMaps` is a Python `dict`: a map plus the key order. Overwrites keep
  a key's position and the last write wins.
- `Syntax` is the abstract syntax tree the indexer walks. It contains
  `_find_node_end` and `_get_name_from_expr`.
- `Entities` holds the three entity kinds and the hash rule.
- `Extraction` holds what `_process_function`, `_process_class`,
  `_extract_imports` and `_index_file` compute from one file. Each is written
  as a function, with the loops as methods proved equal to it.
- `Queries` holds what `search_entities` and `get_entity_relationships`
  return, with their properties.
- `Indexer` is the `CodeIndexer` class. The two dictionaries are fields and
  the methods update them in place. Each method's postcondition ties the new
  state to the writes the functions above describe.
- `Docs` is the `DocParser` class with `search_docs` and the inline part of
  `extract_code_references`.

Inputs the model takes as given, because they come from outside the core:
- the parse tree and docstrings that `ast.parse` and `ast.get_docstring`
  produce;
- the file text and the relative path;
- the MD5 hex digest, a function parameter `digest`;
- the names that the fenced-code-block regex finds, a function parameter of
  `ExtractCodeReferences`.

Three behaviours of the code are worth knowing:
- `index_codebase` never clears `modules` or `all_entities`. A rebuild
  overwrites entries and keeps entries of deleted files.
- `line_start <= line_end` does not always hold. A decorated `def` without a
  return annotation ends at its last decorator, above its `def` line, so its
  snippet is empty and its hash is `""`. A decorated class, such as one under
  `@dataclass`, likewise ends at its last decorator, above its `class` line,
  with the same empty snippet and hash.
- A module's `line_end` counts `splitlines()` lines. That function also breaks
  at `\v`, `\f`, `\x1c`–`\x1e`, `\x85`, U+2028 and U+2029, so it can differ
  from the parser's line numbering.

## Model

| member | source | states |
|---|---|---|
| Text.SplitLines | gitbook-mcp.py:184 | `splitlines()`: empty text gives no lines; no line holds a line-break character |
| Text.PySliceBounds | gitbook-mcp.py:189 | Python slice `xs[lo:hi]`: in-range bounds give `xs[lo..hi]`; a negative bound counts from the end; a bound past the end stops there, one before the start starts there; crossed bounds give `[]` |
| Text.LastSegment | gitbook-mcp.py:338-339 | `s.split('.')[-1]`: a suffix of `s` without the separator, either all of `s` or preceded by the separator |
| Text.LastSegmentOfJoined | gitbook-mcp.py:210 | the last segment of `owner + "." + member` is `member` when `member` has no dot |
| Text.JoinSplit | gitbook-mcp.py:403 | joining the pieces of `split(sep)` with `sep` gives back the text |
| Text.SplitJoin | gitbook-mcp.py:410 | splitting a join of separator-free pieces gives back the pieces |
| Text.SplitLower | gitbook-mcp.py:401-407 | lower-casing the whole text then splitting at '\n' equals splitting then lower-casing each line |
| Text.OccurrenceInPiece | gitbook-mcp.py:401-407 | an occurrence of a query without the separator lies wholly inside one piece |
| Text.MentionsIsWholeWord | gitbook-mcp.py:346-349 | the substring pre-check before the `\b` search never changes the outcome: a mention is a non-empty snippet with a whole-word occurrence |
| OrderedMaps.OrderedMap.Put | gitbook-mcp.py:161 | `d[k] = v` keeps the dictionary well formed, maps `k` to `v`, leaves other keys alone, and keeps the key order when `k` was present |
| OrderedMaps.ValuesMembers | gitbook-mcp.py:285 | a value is listed by `d.values()` exactly when some key maps to it |
| OrderedMaps.OrderedMap.PutAll | gitbook-mcp.py:156-164 | a run of assignments keeps the dictionary well formed and only appends keys |
| OrderedMaps.LastWrite | gitbook-mcp.py:156-164 | no write to `k` exactly when no pair has key `k` |
| OrderedMaps.PutValues | gitbook-mcp.py:161 | overwriting a key changes its value in place in `values()`; a new key's value goes last |
| OrderedMaps.PutAllItems | gitbook-mcp.py:156-164 | last write wins; keys never written keep their old value and presence |
| OrderedMaps.PutAllPresentKeys | gitbook-mcp.py:88-100 | rewriting keys that are all present leaves the key order unchanged |
| OrderedMaps.PutAllAppend | gitbook-mcp.py:88-100 | writing `a + b` is writing `a` then `b` |
| OrderedMaps.PutAllTwice | gitbook-mcp.py:88-100 | replaying the same writes changes neither keys, order nor values |
| Syntax.FindNodeEndLastChild | gitbook-mcp.py:249-259 | a node ends where its last child ends when that child has a line number, and on its own line otherwise |
| Syntax.ScanReachesEnd | gitbook-mcp.py:252-256 | the child loop, from any start position, returns the last child's end or falls through to the node's line |
| Syntax.FindNodeEndIgnoresEarlierChildren | gitbook-mcp.py:252-256 | the children before the last one never affect the result |
| Syntax.ExprEnd | gitbook-mcp.py:249-259 | a name, attribute or subscript ends on its own line (its trailing `ctx` child has no line number) |
| Syntax.FuncEnd | gitbook-mcp.py:220 | a `def` ends at its return annotation if any, else at its last decorator, else at its last body statement, or on its own line when that child has no line number |
| Syntax.DecoratedFuncEndsAtDecorator | gitbook-mcp.py:220 | a `def` with a plain-name last decorator and no return annotation ends on the decorator's line |
| Syntax.ClassEnd | gitbook-mcp.py:186 | a class ends at its last decorator if any, else at its last body statement |
| Syntax.NameFromDotted | gitbook-mcp.py:263-266 | a dotted name `a.b.c` renders as its parts joined with '.' |
| Syntax.NameFromAttribute | gitbook-mcp.py:265-266 | an attribute renders with its base's rendering as prefix and its attribute as last segment |
| Entities.HashEmptyIff | gitbook-mcp.py:52-54 | the hash is "" exactly when the snippet is empty (for a digest that never returns "") |
| Extraction.SnippetEmptyWhenEndBeforeStart | gitbook-mcp.py:189 | `lines[start-1:end]` is empty, so the snippet is "", when `0 <= end < start` |
| Extraction.SnippetHoldsLines | gitbook-mcp.py:223 | within bounds, splitting the snippet at '\n' gives exactly source lines `start`..`end` |
| Extraction.SourceLinesHaveNoNewline | gitbook-mcp.py:218 | no line of `splitlines()` contains '\n' |
| Extraction.Parameters | gitbook-mcp.py:226-231 | one parameter per `args.args` entry, in order, same name, with a type exactly when annotated, rendered from the annotation |
| Extraction.ProcessFunction | gitbook-mcp.py:216-247 | the loop over `args.args` builds the function entity `FunctionEntityOf` describes |
| Extraction.FunctionEntitySpan | gitbook-mcp.py:216-247 | function entity: kind, name, path, start at `def` line, end from `_find_node_end`, hash "" iff snippet "", empty snippet when end < start, else the source lines of its span |
| Extraction.DecoratedFunctionHasEmptySnippet | gitbook-mcp.py:219-223 | a decorated `def` with no return annotation ends above its start, and has an empty snippet and hash |
| Extraction.MethodDecls | gitbook-mcp.py:205-206 | the methods of a class are exactly the `def` statements directly in its body |
| Extraction.MethodsOfDecls | gitbook-mcp.py:205-212 | the `methods` list has one renamed entity per `def` of the body, in order |
| Extraction.MethodsQualified | gitbook-mcp.py:205-212 | every method is named `Class.method`, never the bare name, has the bare name as last segment, is otherwise the function entity of its `def`, and is hashed |
| Extraction.BaseClassNameOfDotted | gitbook-mcp.py:192 | a base written `a.b.c` is listed as `a.b.c`, and a subscripted base `a.b[T]` as `a.b[...]` |
| Extraction.ClassEntitySpan | gitbook-mcp.py:182-214 | class entity: kind, name, path, span, hash "" iff snippet "", snippet lines, one qualified method per `def`, one base name per base, a plain base rendered as its identifier |
| Extraction.AppendImportStrings | gitbook-mcp.py:172-174 | the alias loop of an `import` statement appends `import X` for each alias, in order |
| Extraction.AppendFromStrings | gitbook-mcp.py:175-178 | the alias loop of a `from` import appends `from M import X` for each alias, in order, with M "" when the module is absent |
| Extraction.ExtractImports | gitbook-mcp.py:169-180 | the nested loops produce exactly the import strings of the body, in statement then alias order |
| Extraction.ImportsCount | gitbook-mcp.py:169-180 | exactly one import string per imported alias |
| Extraction.ImportsAppend | gitbook-mcp.py:171 | the import strings of a concatenated body are those of each part, in order |
| Extraction.ImportsOfOtherStatements | gitbook-mcp.py:171-179 | a body without import statements yields no import strings |
| Extraction.ImportForms | gitbook-mcp.py:172-179 | every string is `import X` or `from M import X` (M is "" for a relative import without module) for an alias of some import statement |
| Extraction.ModuleNameOfSourceFile | gitbook-mcp.py:133 | the module name of `dir/stem.py` is `stem` |
| Extraction.StripPyExtension | gitbook-mcp.py:133 | `splitext` strips the `.py` extension from a stem with a character other than a dot |
| Extraction.BodyEntriesKeyed | gitbook-mcp.py:152-161 | every write caused by the top-level statements stores an entity under its own name and with its snippet's hash |
| Extraction.MethodsHashed | gitbook-mcp.py:205-212 | the writes of one statement are keyed by name and hashed |
| Extraction.FileEntriesKeyedByName | gitbook-mcp.py:152-164 | every write of a file stores an entity under its own name, with its snippet's hash |
| Queries.TypeFilterSelectsKind | gitbook-mcp.py:286-287 | the `entity_type` filter keeps exactly the modules, classes or functions for "module", "class" or "function"; no filter or "" keeps everything; any other text keeps nothing |
| Queries.SearchMembers | gitbook-mcp.py:285-302 | an entity is in the results exactly when it is in the index and passes the type filter and the name/docstring/snippet test |
| Queries.SearchKeepsOrder | gitbook-mcp.py:285-302 | the results are a subsequence of the index values in key order |
| Queries.SearchDistinct | gitbook-mcp.py:285-302 | no entity is returned twice |
| Queries.SearchEmptyQuery | gitbook-mcp.py:286-292 | the empty query without a type filter returns every entity, in order |
| Queries.ImportersMembers | gitbook-mcp.py:327-329 | a module is listed for an import string exactly when the string contains the name |
| Queries.ImportedByMembers | gitbook-mcp.py:324-329 | a module is listed as importing `name` exactly when one of its import strings contains `name` as a substring |
| Queries.NamesInMembers | gitbook-mcp.py:333-335 | a module name is listed for an import string exactly when it is a substring of it |
| Queries.ImportTargetsMembers | gitbook-mcp.py:331-335 | a module name is listed as imported exactly when it is a substring of one of the module's own import strings |
| Queries.UsedByMembers | gitbook-mcp.py:341-350 | `x` is a user of `a` exactly when an entity named `x`, other than `a`, mentions `a`'s simple name |
| Queries.UsesMembers | gitbook-mcp.py:341-357 | `x` is used by `a` exactly when `a` mentions the simple name of an entity named `x` other than `a` |
| Queries.NotRelatedToItself | gitbook-mcp.py:342-343 | an entity is never among its own uses or users |
| Queries.UsageSymmetric | gitbook-mcp.py:338-357 | for two differently named entities, B uses A iff A is used by B, decided by a whole-word occurrence of A's simple name in B's non-empty snippet |
| Queries.BazMentionsFoo | gitbook-mcp.py:342-349 | a function `baz` whose snippet calls `Foo()` mentions the class `Foo` as a whole word |
| Queries.FooUsedByBaz | gitbook-mcp.py:341-350 | with a class `Foo` and a function `baz` calling `Foo()`, `used_by(Foo)` is `["baz"]` |
| Queries.BazUsesFoo | gitbook-mcp.py:341-357 | with the same two entities, `uses(baz)` is `["Foo"]` |
| Indexer.ReindexUnchanged | gitbook-mcp.py:88-100 | indexing the same files again leaves both dictionaries exactly as the first pass left them |
| Indexer.IndexingKeepsOldEntries | gitbook-mcp.py:88-100 | indexing removes nothing: old keys keep their order, and entries no file rewrites keep their value |
| Indexer.IndexedModuleFound | gitbook-mcp.py:163-164 | after a file is indexed its module is stored under the file's base name |
| Indexer.MethodFoundAfterProcessClass | gitbook-mcp.py:205-212 | after `_process_class`, each method is stored under `Class.method`, holding the entity of the last `def` of that name in the class body |
| Indexer.MethodFoundAfterIndexing | gitbook-mcp.py:152-161 | after a file is indexed, every method of each top-level class can be looked up as `Class.method`, under an entity of that name |
| Indexer.MatchTest | gitbook-mcp.py:286-302 | one loop step of `search_entities` keeps the entity exactly when it passes the type filter and its name, docstring or snippet contains the query |
| Indexer.MentionTest | gitbook-mcp.py:346-349 | the pre-check followed by the `\b` search decides exactly a whole-word mention in a non-empty snippet |
| Indexer.CollectImportedBy | gitbook-mcp.py:325-329 | the nested loop yields `imported_by` as specified |
| Indexer.CollectImports | gitbook-mcp.py:332-335 | the nested loop yields `imports` as specified |
| Indexer.CollectUsage | gitbook-mcp.py:338-357 | the single pass yields `uses` and `used_by` as specified |
| Indexer.CodeIndexer.constructor | gitbook-mcp.py:82-86 | empty dictionaries; the default exclusion patterns when none or an empty list is given |
| Indexer.CodeIndexer.Register | gitbook-mcp.py:161 | stores an entity under its own name and keeps the index invariant |
| Indexer.CodeIndexer.RegisterModule | gitbook-mcp.py:163-164 | stores the module in both dictionaries |
| Indexer.CodeIndexer.ProcessClass | gitbook-mcp.py:182-214 | returns the class entity and writes each method under `Class.method`, in order, touching nothing else |
| Indexer.CodeIndexer.IndexBody | gitbook-mcp.py:152-161 | writes the classes (after their methods) and functions in source order and collects them for the module |
| Indexer.CodeIndexer.IndexFile | gitbook-mcp.py:123-167 | an unparsable file changes nothing; otherwise its writes go to `all_entities` and its module goes to `modules`, keeping the invariant |
| Indexer.CodeIndexer.IndexCodebase | gitbook-mcp.py:88-100 | the files' writes are applied in order on top of the existing dictionaries, which are never cleared |
| Indexer.CodeIndexer.SearchEntities | gitbook-mcp.py:280-304 | the results are the specified ordered filter of the index values, and no entity is returned twice |
| Indexer.CodeIndexer.ValuesUnique | gitbook-mcp.py:161 | the index holds each entity once, and no two entities share a name |
| Indexer.CodeIndexer.RelationshipsSymmetric | gitbook-mcp.py:341-357 | for two indexed names, `b` is in `used_by` of `a` exactly when `a` is in `uses` of `b` |
| Indexer.CodeIndexer.GetEntityByName | gitbook-mcp.py:306-308 | found exactly when the name is a key; the entity found bears that name and is in the index |
| Indexer.CodeIndexer.GetEntityRelationships | gitbook-mcp.py:310-359 | four empty lists for an unknown name; otherwise module import relations (empty for non-modules) and usage relations as specified |
| Docs.LineMatchesSound | gitbook-mcp.py:406-414 | every match names a 1-based line containing the query and carries that line's context window |
| Docs.LineMatchesComplete | gitbook-mcp.py:406-414 | every line containing the query is reported |
| Docs.LineMatchesIncreasing | gitbook-mcp.py:406 | matches come in strictly increasing line order |
| Docs.ContextIsWindow | gitbook-mcp.py:408-410 | a context is exactly the lines `max(0,i-2)` to `min(n,i+3)`, which include line `i` |
| Docs.DocsSearchMembers | gitbook-mcp.py:398-420 | a document is reported exactly when its lower-cased text contains the lower-cased query |
| Docs.MatchesFoundForSingleLineQuery | gitbook-mcp.py:401-407 | a reported document has a match whenever the query has no newline |
| Docs.SpanningQueryHasNoMatches | gitbook-mcp.py:401-407 | a query containing a line break matches no line of any document, so a document it selects is reported with an empty match list |
| Docs.RunLength | gitbook-mcp.py:434 | the run of non-backtick characters, stopping at a backtick |
| Docs.InlineCodeDelimited | gitbook-mcp.py:434 | each inline reference is non-empty, backtick-free and occurs between two backticks |
| Docs.InlineCodeOfPlainText | gitbook-mcp.py:434 | text without backticks has no inline references |
| Docs.InlineCodeOfBackticked | gitbook-mcp.py:434 | extraction returns exactly the words of a run of backticked words |
| Docs.DocParser.constructor | gitbook-mcp.py:365-367 | no documents |
| Docs.DocParser.AddDoc | gitbook-mcp.py:385-389 | the document is stored under its relative path |
| Docs.DocParser.SearchDocs | gitbook-mcp.py:393-422 | the nested loops produce the specified results |
| Docs.DocParser.ExtractCodeReferences | gitbook-mcp.py:424-446 | nothing for an unknown path; otherwise the inline references followed by the code-block names |

## Left out

- File discovery (`_find_python_files`, `os.walk`, the exclusion regexes), reading files, `index_docs`' `glob` and the `os.path.abspath`/`relpath` arithmetic are I/O. Files arrive as `SourceFile` values with path, relative path, text and parse result. The exclusion patterns are only stored.
- `ast.parse` and `ast.get_docstring` are foreign calls. The tree and the docstrings are inputs. A file that cannot be read or parsed is a `SourceFile` without a tree and changes nothing.
- Indexer.CodeIndexer.IndexFile: treats a parsed file as all or nothing, so it does not capture a partial write. `_find_node_end` recurses into every child that has a line number (gitbook-mcp.py:252-254), not only the last one. A file that parses but nests deeply, such as a long chain `x = a + b + ...`, can raise `RecursionError`. The `except SyntaxError` at gitbook-mcp.py:166 does not catch it, and `index_codebase` swallows it at gitbook-mcp.py:97. By then the earlier top-level classes and functions are already in `all_entities` (gitbook-mcp.py:152-161), but the module is in neither dictionary (gitbook-mcp.py:163-164). Recursion depth is a property of the interpreter, not of the code, so the model has no such failure.
- `hashlib.md5(...).hexdigest()` is a foreign call, modelled as the function parameter `digest`.
- Python's Unicode `str.lower()` and Unicode `\w` in `\b` are approximated by their ASCII forms.
- The Python 3.8 `ast.Index` branch of `_get_name_from_expr` is version-dependent. Every subscript renders as `base[...]`, as on Python 3.9 and later.
- The Markdown title regex of `index_docs` is not modelled. `AddDoc` receives the title.
- Docs.DocParser.ExtractCodeReferences: the lazy multi-line regex over fenced Python blocks and its `def`/`class` name searches are regex-engine semantics. Their result is taken from the function parameter `codeBlockNames`.
- The `properties` field of a class entity is never filled by the code and is not represented.
- Positional-only, keyword-only, `*args` and `**kwargs` parameters are not represented, because the code reads only `args.args`. PEP 695 type parameters are not represented either. Keyword arguments of a class appear only as syntax-tree children, for the span rule.
- `GitBookMCPServer` (the Flask routes, the GitBook sync over HTTP, the webhook), the background re-index thread, `argparse` and logging are I/O, concurrency and wall-clock time.
- Entities are values. Renaming a method is modelled by building the entity under its qualified name before it is stored. The code appends the object first and renames it afterwards, but nothing reads it in between, so `methods` and `all_entities` hold the same value either way.
