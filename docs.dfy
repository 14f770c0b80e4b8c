/**
 * `DocParser`: the indexed documentation files, the line-by-line search over
 * them, and the inline-code references of one file.
 */
module Docs {
  import opened Wrappers
  import opened Text
  import opened OrderedMaps

  /** One entry of `doc_files`: relative path, title and full text. */
  datatype DocFile = DocFile(path: string, title: string, content: string)

  /** A matching line: its 1-based number and the lines around it. */
  datatype LineMatch = LineMatch(line: int, context: string)

  /** One document in the results of `search_docs`. */
  datatype DocResult = DocResult(path: string, title: string, matches: seq<LineMatch>)

  // ---------------------------------------------------------------------------
  // search_docs

  /** The window of a match on line index `i`: up to two lines before and two after. */
  function WindowStart(i: int): nat {
    if i - 2 < 0 then 0 else i - 2
  }

  function WindowEnd(i: int, n: nat): nat {
    if n < i + 3 then n else if i + 3 < 0 then 0 else i + 3
  }

  /** `'\n'.join(lines[start:end])` for the window around line index `i`. */
  function Context(lines: seq<string>, i: nat): string
    requires i < |lines|
  {
    Join('\n', lines[WindowStart(i)..WindowEnd(i, |lines|)])
  }

  /** The matches among the first `n` lines, in line order. */
  function LineMatches(lines: seq<string>, queryLower: string, n: nat): seq<LineMatch>
    requires n <= |lines|
  {
    if n == 0 then []
    else
      LineMatches(lines, queryLower, n - 1)
      + (if Contains(Lower(lines[n - 1]), queryLower) then [LineMatch(n, Context(lines, n - 1))] else [])
  }

  /** The matches of a whole document, whose lines are its text split at '\n'. */
  function DocMatches(content: string, queryLower: string): seq<LineMatch> {
    var lines := Split(content, '\n');
    LineMatches(lines, queryLower, |lines|)
  }

  function ResultOf(d: DocFile, queryLower: string): DocResult {
    DocResult(d.path, d.title, DocMatches(d.content, queryLower))
  }

  /** A document is reported when its lower-cased text contains the lower-cased query. */
  predicate DocSelected(d: DocFile, queryLower: string) {
    Contains(Lower(d.content), queryLower)
  }

  /** The results of `search_docs`, over the documents in key order. */
  function DocsSearch(docs: seq<DocFile>, queryLower: string): seq<DocResult>
    decreases |docs|
  {
    if docs == [] then []
    else
      var d := docs[|docs| - 1];
      DocsSearch(docs[..|docs| - 1], queryLower)
      + (if DocSelected(d, queryLower) then [ResultOf(d, queryLower)] else [])
  }

  /**
   * Every match names a line, counted from 1, that contains the query, and
   * carries the window around that line.
   */
  lemma {:induction false} LineMatchesSound(lines: seq<string>, queryLower: string, n: nat)
    requires n <= |lines|
    ensures forall m :: m in LineMatches(lines, queryLower, n) ==>
      && 1 <= m.line <= n
      && Contains(Lower(lines[m.line - 1]), queryLower)
      && m.context == Context(lines, m.line - 1)
  {
    if n > 0 {
      LineMatchesSound(lines, queryLower, n - 1);
    }
  }

  /** Every line that contains the query is reported. */
  lemma {:induction false} LineMatchesComplete(lines: seq<string>, queryLower: string, n: nat, i: nat)
    requires i < n <= |lines|
    requires Contains(Lower(lines[i]), queryLower)
    ensures LineMatch(i + 1, Context(lines, i)) in LineMatches(lines, queryLower, n)
  {
    if i < n - 1 {
      LineMatchesComplete(lines, queryLower, n - 1, i);
    }
  }

  predicate Increasing(ms: seq<LineMatch>) {
    forall a, b :: 0 <= a < b < |ms| ==> ms[a].line < ms[b].line
  }

  /** The matches are in strictly increasing line order. */
  lemma {:induction false} LineMatchesIncreasing(lines: seq<string>, queryLower: string, n: nat)
    requires n <= |lines|
    ensures Increasing(LineMatches(lines, queryLower, n))
  {
    if n > 0 {
      LineMatchesIncreasing(lines, queryLower, n - 1);
      LineMatchesSound(lines, queryLower, n - 1);
      var init := LineMatches(lines, queryLower, n - 1);
      var ms := LineMatches(lines, queryLower, n);
      assert ms == init + (if Contains(Lower(lines[n - 1]), queryLower)
                           then [LineMatch(n, Context(lines, n - 1))] else []);
      forall a, b | 0 <= a < b < |ms|
        ensures ms[a].line < ms[b].line
      {
        assert ms[a] == init[a] && init[a] in init;
        assert init[a].line <= n - 1;
        if b < |init| {
          assert ms[b] == init[b];
          assert init[a].line < init[b].line;
        } else {
          assert ms[b].line == n;
        }
      }
    }
  }

  /**
   * The context of a match is exactly the window of up to five lines around
   * it: splitting the context at '\n' gives back those lines of the document.
   */
  lemma ContextIsWindow(content: string, i: nat)
    requires i < |Split(content, '\n')|
    ensures var lines := Split(content, '\n');
      && WindowStart(i) <= i < WindowEnd(i, |lines|) <= i + 3
      && Split(Context(lines, i), '\n') == lines[WindowStart(i)..WindowEnd(i, |lines|)]
  {
    var lines := Split(content, '\n');
    var window := lines[WindowStart(i)..WindowEnd(i, |lines|)];
    assert forall k :: 0 <= k < |window| ==> window[k] == lines[WindowStart(i) + k];
    SplitJoin(window, '\n');
  }

  /** A document is in the results exactly when its text contains the query. */
  lemma {:induction false} DocsSearchMembers(docs: seq<DocFile>, queryLower: string, r: DocResult)
    ensures r in DocsSearch(docs, queryLower) <==>
      exists i :: 0 <= i < |docs| && DocSelected(docs[i], queryLower) && r == ResultOf(docs[i], queryLower)
    decreases |docs|
  {
    if docs != [] {
      var init := docs[..|docs| - 1];
      DocsSearchMembers(init, queryLower, r);
      if r in DocsSearch(init, queryLower) {
        var i :| 0 <= i < |init| && DocSelected(init[i], queryLower) && r == ResultOf(init[i], queryLower);
        assert docs[i] == init[i];
      }
      if exists i :: 0 <= i < |docs| && DocSelected(docs[i], queryLower) && r == ResultOf(docs[i], queryLower) {
        var i :| 0 <= i < |docs| && DocSelected(docs[i], queryLower) && r == ResultOf(docs[i], queryLower);
        if i < |init| {
          assert init[i] == docs[i];
        }
      }
    }
  }

  /**
   * A reported document has at least one match when the query has no
   * newline: the occurrence then lies inside one line.
   */
  lemma MatchesFoundForSingleLineQuery(content: string, queryLower: string)
    requires Contains(Lower(content), queryLower)
    requires '\n' !in queryLower
    ensures DocMatches(content, queryLower) != []
  {
    var lines := Split(content, '\n');
    SplitLower(content, '\n');
    OccurrenceInPiece(Lower(content), queryLower, '\n');
    var k :| 0 <= k < |Split(Lower(content), '\n')| && Contains(Split(Lower(content), '\n')[k], queryLower);
    assert Lower(lines[k]) == Split(Lower(content), '\n')[k];
    LineMatchesComplete(lines, queryLower, |lines|, k);
  }

  /** No line holding no '\n' contains a query that does. */
  lemma {:induction false} NoLineMatchesSpanningQuery(lines: seq<string>, queryLower: string, n: nat)
    requires n <= |lines|
    requires '\n' in queryLower
    requires forall k :: 0 <= k < |lines| ==> '\n' !in lines[k]
    ensures LineMatches(lines, queryLower, n) == []
  {
    if n > 0 {
      NoLineMatchesSpanningQuery(lines, queryLower, n - 1);
    }
  }

  /**
   * A query that spans a line break never matches a line: a document it
   * selects is reported with an empty match list.
   */
  lemma SpanningQueryHasNoMatches(content: string, queryLower: string)
    requires '\n' in queryLower
    ensures DocMatches(content, queryLower) == []
  {
    var lines := Split(content, '\n');
    NoLineMatchesSpanningQuery(lines, queryLower, |lines|);
  }

  // ---------------------------------------------------------------------------
  // extract_code_references, inline part: re.findall(r'`([^`]+)`', content)

  /** The number of leading characters that are not a backtick. */
  function RunLength(s: string): (k: nat)
    ensures k <= |s|
    ensures forall j :: 0 <= j < k ==> s[j] != '`'
    ensures k < |s| ==> s[k] == '`'
  {
    if s == [] || s[0] == '`' then 0 else 1 + RunLength(s[1..])
  }

  /**
   * The texts between pairs of backticks, scanning left to right: at a
   * backtick followed by at least one other character and a closing
   * backtick, take the text and continue after the closing one; otherwise
   * move on by one character.
   */
  function InlineCode(s: string): seq<string>
    decreases |s|
  {
    if s == [] then []
    else if s[0] == '`' then
      var k := RunLength(s[1..]);
      if 0 < k && 1 + k < |s| then [s[1..1 + k]] + InlineCode(s[k + 2..])
      else InlineCode(s[1..])
    else InlineCode(s[1..])
  }

  /** Every reference is non-empty, has no backtick, and occurs in the text between two backticks. */
  lemma {:induction false} InlineCodeDelimited(s: string)
    ensures forall r :: r in InlineCode(s) ==>
      r != "" && '`' !in r && Contains(s, "`" + r + "`")
    decreases |s|
  {
    if s != [] {
      var k := RunLength(s[1..]);
      if s[0] == '`' && 0 < k && 1 + k < |s| {
        var r0 := s[1..1 + k];
        InlineCodeDelimited(s[k + 2..]);
        assert s[..k + 2] == "`" + r0 + "`";
        assert OccursAt(s, "`" + r0 + "`", 0);
        forall r | r in InlineCode(s[k + 2..])
          ensures Contains(s, "`" + r + "`")
        {
          var i :| 0 <= i <= |s[k + 2..]| - |"`" + r + "`"| && OccursAt(s[k + 2..], "`" + r + "`", i);
          assert s[k + 2..][i..i + |"`" + r + "`"|] == s[k + 2 + i..k + 2 + i + |"`" + r + "`"|];
          assert OccursAt(s, "`" + r + "`", k + 2 + i);
        }
      } else {
        InlineCodeDelimited(s[1..]);
        forall r | r in InlineCode(s[1..])
          ensures Contains(s, "`" + r + "`")
        {
          var i :| 0 <= i <= |s[1..]| - |"`" + r + "`"| && OccursAt(s[1..], "`" + r + "`", i);
          assert s[1..][i..i + |"`" + r + "`"|] == s[1 + i..1 + i + |"`" + r + "`"|];
          assert OccursAt(s, "`" + r + "`", 1 + i);
        }
      }
    }
  }

  /** A text without backticks has no inline references. */
  lemma {:induction false} InlineCodeOfPlainText(s: string)
    requires '`' !in s
    ensures InlineCode(s) == []
    decreases |s|
  {
    if s != [] {
      InlineCodeOfPlainText(s[1..]);
    }
  }

  /** Each word written between backticks, one after the other. */
  function Backticked(words: seq<string>): string {
    if words == [] then "" else "`" + words[0] + "`" + Backticked(words[1..])
  }

  /** Extraction undoes `Backticked`: the references of a run of quoted words are those words. */
  lemma {:induction false} InlineCodeOfBackticked(words: seq<string>)
    requires forall k :: 0 <= k < |words| ==> words[k] != "" && '`' !in words[k]
    ensures InlineCode(Backticked(words)) == words
  {
    if words != [] {
      var w, rest := words[0], Backticked(words[1..]);
      var s := Backticked(words);
      assert s == ['`'] + (w + ['`'] + rest);
      RunPastWord(w, rest);
      assert s[1..1 + |w|] == w;
      assert s[|w| + 2..] == rest;
      InlineCodeOfBackticked(words[1..]);
    }
  }

  lemma {:induction false} RunPastWord(w: string, rest: string)
    requires '`' !in w
    ensures RunLength(w + ['`'] + rest) == |w|
    decreases |w|
  {
    if w != [] {
      assert (w + ['`'] + rest)[1..] == w[1..] + ['`'] + rest;
      RunPastWord(w[1..], rest);
    }
  }

  // ---------------------------------------------------------------------------
  // The parser's state

  class DocParser {
    const docsPath: string
    var docFiles: OrderedMap<DocFile>

    /** Every document is stored under its own relative path. */
    ghost predicate Valid()
      reads this
    {
      docFiles.Valid() && forall k :: k in docFiles.items ==> docFiles.items[k].path == k
    }

    constructor (docsPath: string)
      ensures Valid() && this.docsPath == docsPath && docFiles == Empty()
    {
      this.docsPath := docsPath;
      docFiles := Empty();
    }

    /** The registration step of `index_docs`: the file's entry, under its relative path. */
    method AddDoc(relPath: string, title: string, content: string)
      requires Valid()
      modifies this
      ensures Valid()
      ensures docFiles == old(docFiles).Put(relPath, DocFile(relPath, title, content))
    {
      docFiles := docFiles.Put(relPath, DocFile(relPath, title, content));
    }

    /** `search_docs`: every document containing the query, with its matching lines. */
    method SearchDocs(query: string) returns (results: seq<DocResult>)
      requires Valid()
      ensures results == DocsSearch(docFiles.Values(), Lower(query))
    {
      results := [];
      var queryLower := Lower(query);
      var docs := docFiles.Values();
      for d := 0 to |docs|
        invariant results == DocsSearch(docs[..d], queryLower)
      {
        assert docs[..d + 1][..d] == docs[..d];
        var fileInfo := docs[d];
        if Contains(Lower(fileInfo.content), queryLower) {
          var lines := Split(fileInfo.content, '\n');
          var matchContext := [];
          for i := 0 to |lines|
            invariant matchContext == LineMatches(lines, queryLower, i)
          {
            if Contains(Lower(lines[i]), queryLower) {
              var start := if i - 2 < 0 then 0 else i - 2;
              var end := if |lines| < i + 3 then |lines| else i + 3;
              var context := Join('\n', lines[start..end]);
              matchContext := matchContext + [LineMatch(i + 1, context)];
            }
          }
          results := results + [DocResult(fileInfo.path, fileInfo.title, matchContext)];
        }
      }
      assert docs[..|docs|] == docs;
    }

    /**
     * `extract_code_references`: nothing for an unknown path; otherwise the
     * inline-code references of the file, in order, followed by the names
     * `codeBlockNames` finds in its fenced Python blocks.
     */
    method ExtractCodeReferences(path: string, codeBlockNames: string -> seq<string>)
      returns (references: seq<string>)
      ensures path !in docFiles.items ==> references == []
      ensures path in docFiles.items ==>
        references == InlineCode(docFiles.items[path].content) + codeBlockNames(docFiles.items[path].content)
    {
      if path !in docFiles.items {
        return [];
      }
      var content := docFiles.items[path].content;
      references := InlineCode(content);
      references := references + codeBlockNames(content);
    }
  }
}
