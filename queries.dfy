/**
 * What the index queries return, as functions of the index's values in key
 * order: `search_entities` and the four lists of `get_entity_relationships`.
 */
module Queries {
  import opened Wrappers
  import opened Text
  import opened Entities

  // ---------------------------------------------------------------------------
  // search_entities

  /** The type filter: absent or empty selects every entity, otherwise the entity's type must equal it. */
  predicate TypeSelected(e: Entity, entityType: Option<string>) {
    !(entityType.Some? && entityType.value != "") || EntityType(e) == entityType.value
  }

  /** The lower-cased query occurs in the lower-cased name, non-empty docstring or non-empty snippet. */
  predicate TextMatches(e: Entity, queryLower: string) {
    || Contains(Lower(e.name), queryLower)
    || (e.docstring.Some? && e.docstring.value != "" && Contains(Lower(e.docstring.value), queryLower))
    || (e.snippet != "" && Contains(Lower(e.snippet), queryLower))
  }

  predicate Matches(e: Entity, queryLower: string, entityType: Option<string>) {
    TypeSelected(e, entityType) && TextMatches(e, queryLower)
  }

  /**
   * The `entity_type` filter selects by kind: "module", "class" and
   * "function" select exactly the entities of that kind, no filter or the
   * empty one selects everything, and any other text selects nothing.
   */
  lemma TypeFilterSelectsKind(e: Entity, t: string)
    ensures TypeSelected(e, None) && TypeSelected(e, Some(""))
    ensures TypeSelected(e, Some("module")) <==> e.Module?
    ensures TypeSelected(e, Some("class")) <==> e.Class?
    ensures TypeSelected(e, Some("function")) <==> e.Function?
    ensures t != "" && t != "module" && t != "class" && t != "function" ==> !TypeSelected(e, Some(t))
  {
  }

  /** The entities of `vals` that match, in the order of `vals`. */
  function Search(vals: seq<Entity>, queryLower: string, entityType: Option<string>): seq<Entity>
    decreases |vals|
  {
    if vals == [] then []
    else
      Search(vals[..|vals| - 1], queryLower, entityType)
      + (if Matches(vals[|vals| - 1], queryLower, entityType) then [vals[|vals| - 1]] else [])
  }

  /** An entity is found exactly when it is in the index and matches. */
  lemma {:induction false} SearchMembers(vals: seq<Entity>, queryLower: string, entityType: Option<string>, e: Entity)
    ensures e in Search(vals, queryLower, entityType) <==> e in vals && Matches(e, queryLower, entityType)
    decreases |vals|
  {
    if vals != [] {
      var init := vals[..|vals| - 1];
      SearchMembers(init, queryLower, entityType, e);
      assert vals == init + [vals[|vals| - 1]];
    }
  }

  /** `a` is `b` with some elements left out, the rest kept in order. */
  ghost predicate IsSubsequence<T>(a: seq<T>, b: seq<T>)
    decreases |b|
  {
    || a == []
    || (b != [] &&
        if a[|a| - 1] == b[|b| - 1] then IsSubsequence(a[..|a| - 1], b[..|b| - 1])
        else IsSubsequence(a, b[..|b| - 1]))
  }

  lemma {:induction false} SubsequenceDropLast<T>(a: seq<T>, b: seq<T>)
    requires a != [] && IsSubsequence(a, b)
    ensures IsSubsequence(a[..|a| - 1], b)
    decreases |b|, 2
  {
    var a' := a[..|a| - 1];
    if a' != [] {
      if a[|a| - 1] == b[|b| - 1] {
        SubsequenceExtend(a', b[..|b| - 1], b[|b| - 1]);
        assert b[..|b| - 1] + [b[|b| - 1]] == b;
      } else {
        SubsequenceDropLast(a, b[..|b| - 1]);
        SubsequenceExtend(a', b[..|b| - 1], b[|b| - 1]);
        assert b[..|b| - 1] + [b[|b| - 1]] == b;
      }
    }
  }

  lemma {:induction false} SubsequenceExtend<T>(a: seq<T>, b: seq<T>, x: T)
    requires IsSubsequence(a, b)
    ensures IsSubsequence(a, b + [x])
    decreases |b| + 1, 1
  {
    if a != [] {
      assert (b + [x])[..|b|] == b;
      if a[|a| - 1] == x {
        SubsequenceDropLast(a, b);
      }
    }
  }

  /** The results are the index's values with the non-matching ones left out: key order is kept. */
  lemma {:induction false} SearchKeepsOrder(vals: seq<Entity>, queryLower: string, entityType: Option<string>)
    ensures IsSubsequence(Search(vals, queryLower, entityType), vals)
    decreases |vals|
  {
    if vals != [] {
      var init, last := vals[..|vals| - 1], vals[|vals| - 1];
      var r := Search(init, queryLower, entityType);
      SearchKeepsOrder(init, queryLower, entityType);
      assert vals == init + [last];
      if Matches(last, queryLower, entityType) {
        assert Search(vals, queryLower, entityType) == r + [last];
        assert (r + [last])[..|r|] == r;
      } else {
        assert Search(vals, queryLower, entityType) == r;
        SubsequenceExtend(r, init, last);
      }
    }
  }

  predicate Distinct<T(==)>(xs: seq<T>) {
    forall i, j :: 0 <= i < j < |xs| ==> xs[i] != xs[j]
  }

  /** No entity is returned twice when the index holds each entity once. */
  lemma {:induction false} SearchDistinct(vals: seq<Entity>, queryLower: string, entityType: Option<string>)
    requires Distinct(vals)
    ensures Distinct(Search(vals, queryLower, entityType))
    decreases |vals|
  {
    if vals != [] {
      var init, last := vals[..|vals| - 1], vals[|vals| - 1];
      SearchDistinct(init, queryLower, entityType);
      SearchMembers(init, queryLower, entityType, last);
    }
  }

  /** An empty query without a type filter returns every entity of the index, in order. */
  lemma {:induction false} SearchEmptyQuery(vals: seq<Entity>)
    ensures Search(vals, Lower(""), None) == vals
    decreases |vals|
  {
    if vals != [] {
      SearchEmptyQuery(vals[..|vals| - 1]);
      ContainsEmpty(Lower(vals[|vals| - 1].name));
    }
  }

  // ---------------------------------------------------------------------------
  // get_entity_relationships

  datatype Relationships = Relationships(
    imports: seq<string>, importedBy: seq<string>, uses: seq<string>, usedBy: seq<string>)

  /** `who`, once for every import string that contains `name`. */
  function Importers(importStmts: seq<string>, name: string, who: string): seq<string>
    decreases |importStmts|
  {
    if importStmts == [] then []
    else
      Importers(importStmts[..|importStmts| - 1], name, who)
      + (if Contains(importStmts[|importStmts| - 1], name) then [who] else [])
  }

  /** `imported_by` of a module `name`: for every module, its name once per import string of its mentioning `name`. */
  function ImportedBy(mods: seq<Entity>, name: string): seq<string>
    requires forall i :: 0 <= i < |mods| ==> mods[i].Module?
    decreases |mods|
  {
    if mods == [] then []
    else
      var m := mods[|mods| - 1];
      ImportedBy(mods[..|mods| - 1], name) + Importers(m.imports, name, m.name)
  }

  /** The module names that occur in one import string, in the order of `names`. */
  function NamesIn(importStmt: string, names: seq<string>): seq<string>
    decreases |names|
  {
    if names == [] then []
    else
      NamesIn(importStmt, names[..|names| - 1])
      + (if Contains(importStmt, names[|names| - 1]) then [names[|names| - 1]] else [])
  }

  /** `imports` of a module: for every import string of its own, the module names occurring in it. */
  function ImportTargets(importStmts: seq<string>, names: seq<string>): seq<string>
    decreases |importStmts|
  {
    if importStmts == [] then []
    else
      ImportTargets(importStmts[..|importStmts| - 1], names)
      + NamesIn(importStmts[|importStmts| - 1], names)
  }

  /** The simple name a usage test looks for: the last dotted segment. */
  function SimpleName(name: string): string {
    LastSegment(name, '.')
  }

  /** The names of the entities of `vals` that `keep` selects, in the order of `vals`. */
  function NamesWhere(vals: seq<Entity>, keep: Entity -> bool): seq<string>
    decreases |vals|
  {
    if vals == [] then []
    else
      NamesWhere(vals[..|vals| - 1], keep)
      + (if keep(vals[|vals| - 1]) then [vals[|vals| - 1].name] else [])
  }

  /** `b` is another entity than `a` and its snippet mentions `a`'s simple name as a whole word. */
  predicate Mentioning(b: Entity, a: Entity) {
    b.name != a.name && Mentions(b.snippet, SimpleName(a.name))
  }

  /** `used_by` of `a`: every other entity whose snippet mentions `a`'s simple name. */
  function UsedBy(vals: seq<Entity>, a: Entity): seq<string> {
    NamesWhere(vals, b => Mentioning(b, a))
  }

  /** `uses` of `a`: every other entity whose simple name `a`'s snippet mentions. */
  function Uses(vals: seq<Entity>, a: Entity): seq<string> {
    NamesWhere(vals, b => Mentioning(a, b))
  }

  lemma {:induction false} NamesWhereMembers(vals: seq<Entity>, keep: Entity -> bool, x: string)
    ensures x in NamesWhere(vals, keep) <==> exists i :: 0 <= i < |vals| && vals[i].name == x && keep(vals[i])
    decreases |vals|
  {
    if vals != [] {
      var init := vals[..|vals| - 1];
      NamesWhereMembers(init, keep, x);
      if x in NamesWhere(init, keep) {
        var i :| 0 <= i < |init| && init[i].name == x && keep(init[i]);
        assert vals[i] == init[i];
      }
      if exists i :: 0 <= i < |vals| && vals[i].name == x && keep(vals[i]) {
        var i :| 0 <= i < |vals| && vals[i].name == x && keep(vals[i]);
        if i < |init| {
          assert init[i] == vals[i];
        }
      }
    }
  }

  lemma {:induction false} ImportersMembers(importStmts: seq<string>, name: string, who: string, x: string)
    ensures x in Importers(importStmts, name, who) <==>
      x == who && exists s :: s in importStmts && Contains(s, name)
    decreases |importStmts|
  {
    if importStmts != [] {
      var init := importStmts[..|importStmts| - 1];
      ImportersMembers(init, name, who, x);
      assert importStmts == init + [importStmts[|importStmts| - 1]];
    }
  }

  /** A module is listed as importing `name` exactly when one of its import strings contains `name`. */
  lemma {:induction false} ImportedByMembers(mods: seq<Entity>, name: string, x: string)
    requires forall i :: 0 <= i < |mods| ==> mods[i].Module?
    ensures x in ImportedBy(mods, name) <==>
      exists i :: 0 <= i < |mods| && mods[i].name == x && exists s :: s in mods[i].imports && Contains(s, name)
    decreases |mods|
  {
    if mods != [] {
      var init, m := mods[..|mods| - 1], mods[|mods| - 1];
      ImportedByMembers(init, name, x);
      ImportersMembers(m.imports, name, m.name, x);
      if x in ImportedBy(init, name) {
        var i :| 0 <= i < |init| && init[i].name == x && exists s :: s in init[i].imports && Contains(s, name);
        assert mods[i] == init[i];
      }
      if exists i :: 0 <= i < |mods| && mods[i].name == x && exists s :: s in mods[i].imports && Contains(s, name) {
        var i :| 0 <= i < |mods| && mods[i].name == x && exists s :: s in mods[i].imports && Contains(s, name);
        if i < |init| {
          assert init[i] == mods[i];
        }
      }
    }
  }

  lemma {:induction false} NamesInMembers(importStmt: string, names: seq<string>, x: string)
    ensures x in NamesIn(importStmt, names) <==> x in names && Contains(importStmt, x)
    decreases |names|
  {
    if names != [] {
      var init := names[..|names| - 1];
      NamesInMembers(importStmt, init, x);
      assert names == init + [names[|names| - 1]];
    }
  }

  /** A module name is listed as imported exactly when it occurs in one of the module's own import strings. */
  lemma {:induction false} ImportTargetsMembers(importStmts: seq<string>, names: seq<string>, x: string)
    ensures x in ImportTargets(importStmts, names) <==>
      x in names && exists s :: s in importStmts && Contains(s, x)
    decreases |importStmts|
  {
    if importStmts != [] {
      var init, last := importStmts[..|importStmts| - 1], importStmts[|importStmts| - 1];
      ImportTargetsMembers(init, names, x);
      NamesInMembers(last, names, x);
      assert importStmts == init + [last];
    }
  }

  /** One step of the scan: the entity at `i` is appended when `keep` selects it. */
  lemma NamesWhereStep(vals: seq<Entity>, i: nat, keep: Entity -> bool)
    requires i < |vals|
    ensures NamesWhere(vals[..i + 1], keep)
      == NamesWhere(vals[..i], keep) + (if keep(vals[i]) then [vals[i].name] else [])
  {
    assert vals[..i + 1][..i] == vals[..i];
  }

  /** One more entity adds its name to the uses and users of `a` when the mention holds. */
  lemma UsageStep(vals: seq<Entity>, i: nat, a: Entity)
    requires i < |vals|
    ensures UsedBy(vals[..i + 1], a)
      == UsedBy(vals[..i], a) + (if Mentioning(vals[i], a) then [vals[i].name] else [])
    ensures Uses(vals[..i + 1], a)
      == Uses(vals[..i], a) + (if Mentioning(a, vals[i]) then [vals[i].name] else [])
  {
    NamesWhereStep(vals, i, b => Mentioning(b, a));
    NamesWhereStep(vals, i, b => Mentioning(a, b));
  }

  /** `x` is a user of `a` exactly when an entity named `x` mentions `a`. */
  lemma UsedByMembers(vals: seq<Entity>, a: Entity, x: string)
    ensures x in UsedBy(vals, a) <==> exists i :: 0 <= i < |vals| && vals[i].name == x && Mentioning(vals[i], a)
  {
    NamesWhereMembers(vals, b => Mentioning(b, a), x);
  }

  /** `x` is used by `a` exactly when `a` mentions an entity named `x`. */
  lemma UsesMembers(vals: seq<Entity>, a: Entity, x: string)
    ensures x in Uses(vals, a) <==> exists i :: 0 <= i < |vals| && vals[i].name == x && Mentioning(a, vals[i])
  {
    NamesWhereMembers(vals, b => Mentioning(a, b), x);
  }

  /** An entity is never listed among its own uses or users. */
  lemma {:induction false} NotRelatedToItself(vals: seq<Entity>, a: Entity)
    ensures a.name !in UsedBy(vals, a)
    ensures a.name !in Uses(vals, a)
  {
    UsedByMembers(vals, a, a.name);
    UsesMembers(vals, a, a.name);
  }

  /** No two entities of `vals` share a name. */
  ghost predicate NamesUnique(vals: seq<Entity>) {
    forall i, j :: 0 <= i < |vals| && 0 <= j < |vals| && vals[i].name == vals[j].name ==> i == j
  }

  /**
   * For two differently named entities of an index without duplicate names,
   * `b` uses `a` exactly when `a` is used by `b`: both hold when `b`'s snippet
   * is non-empty and holds `a`'s simple name as a whole word.
   */
  lemma {:induction false} UsageSymmetric(vals: seq<Entity>, a: Entity, b: Entity)
    requires NamesUnique(vals)
    requires a in vals && b in vals && a.name != b.name
    ensures b.name in UsedBy(vals, a) <==> a.name in Uses(vals, b)
    ensures b.name in UsedBy(vals, a) <==> b.snippet != "" && ContainsWholeWord(b.snippet, SimpleName(a.name))
  {
    UsedByMembers(vals, a, b.name);
    UsesMembers(vals, b, a.name);
    MentionsIsWholeWord(b.snippet, SimpleName(a.name));
    var ib :| 0 <= ib < |vals| && vals[ib] == b;
    var ia :| 0 <= ia < |vals| && vals[ia] == a;
    if b.name in UsedBy(vals, a) {
      var i :| 0 <= i < |vals| && vals[i].name == b.name && Mentioning(vals[i], a);
      assert i == ib;
    }
    if a.name in Uses(vals, b) {
      var i :| 0 <= i < |vals| && vals[i].name == a.name && Mentioning(b, vals[i]);
      assert i == ia;
    }
  }

  lemma SimpleNameOfFoo()
    ensures SimpleName("Foo") == "Foo"
  {
    assert '.' !in "Foo";
  }

  lemma FooAtColumn17()
    ensures WholeWordAt("def baz(): foo = Foo(); foo.bar()", "Foo", 17)
  {
    var snippet := "def baz(): foo = Foo(); foo.bar()";
    assert snippet[17..20] == "Foo";
    assert !IsWordChar(snippet[16]) && IsWordChar(snippet[17]);
    assert IsWordChar(snippet[19]) && !IsWordChar(snippet[20]);
  }

  /** The class `Foo` of the worked example, with a method `bar`. */
  function FooClass(): (e: Entity)
    ensures e.name == "Foo"
  {
    Class("Foo", "shapes.py", 1, 2, None, "class Foo(Base):\n    def bar(self): ...", "h1", [], ["Base"])
  }

  /** The function `baz` of the worked example, whose body calls `Foo()`. */
  function BazFunction(): (e: Entity)
    ensures e.name == "baz"
  {
    Function("baz", "app.py", 1, 1, None, "def baz(): foo = Foo(); foo.bar()", "h2", [], None)
  }

  /** The call `Foo()` in `baz`'s body is a whole-word mention of `Foo`. */
  lemma BazSnippetMentionsFoo()
    ensures Mentions("def baz(): foo = Foo(); foo.bar()", "Foo")
  {
    FooAtColumn17();
    var snippet := "def baz(): foo = Foo(); foo.bar()";
    assert 17 <= |snippet| - |"Foo"|;
    assert OccursAt(snippet, "Foo", 17);
  }

  lemma BazMentionsFoo()
    ensures Mentioning(BazFunction(), FooClass())
  {
    SimpleNameOfFoo();
    BazSnippetMentionsFoo();
  }

  /** The selection among two entities. */
  lemma NamesWherePair(x: Entity, y: Entity, keep: Entity -> bool)
    ensures NamesWhere([x, y], keep)
      == (if keep(x) then [x.name] else []) + (if keep(y) then [y.name] else [])
  {
    var vals := [x, y];
    assert vals[..0] == [] && vals[..1] == [x] && vals[..2] == vals;
    NamesWhereStep(vals, 0, keep);
    NamesWhereStep(vals, 1, keep);
  }

  /** `Foo` is used by `baz`, and by nothing else of the two. */
  lemma FooUsedByBaz()
    ensures UsedBy([FooClass(), BazFunction()], FooClass()) == ["baz"]
  {
    var foo, baz := FooClass(), BazFunction();
    BazMentionsFoo();
    assert !Mentioning(foo, foo);
    NamesWherePair(foo, baz, b => Mentioning(b, foo));
  }

  /** `baz` uses `Foo`, and nothing else of the two. */
  lemma BazUsesFoo()
    ensures Uses([FooClass(), BazFunction()], BazFunction()) == ["Foo"]
  {
    var foo, baz := FooClass(), BazFunction();
    BazMentionsFoo();
    assert !Mentioning(baz, baz);
    NamesWherePair(foo, baz, b => Mentioning(baz, b));
  }
}
