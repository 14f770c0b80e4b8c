/**
 * String helpers with the meaning of the Python built-ins the indexer uses:
 * `str.lower`, `in` on strings, `str.split('\n')`, `'\n'.join`, `str.splitlines`,
 * list slicing `xs[a:b]`, `str.split('.')[-1]` and the regular-expression word
 * boundary `\b`. Lower-casing and `\w` are restricted to ASCII.
 */
module Text {

  // ---------------------------------------------------------------------------
  // Lower-casing (ASCII)

  function LowerChar(c: char): (d: char)
    ensures d == c <==> !('A' <= c <= 'Z')
    ensures d != '\n' || c == '\n'
  {
    if 'A' <= c <= 'Z' then (c as int - 'A' as int + 'a' as int) as char else c
  }

  /** `s.lower()`, restricted to ASCII letters. */
  function Lower(s: string): (r: string)
    ensures |r| == |s|
    ensures forall i :: 0 <= i < |s| ==> r[i] == LowerChar(s[i])
  {
    seq(|s|, i requires 0 <= i < |s| => LowerChar(s[i]))
  }

  // ---------------------------------------------------------------------------
  // Substrings

  /** `needle` occurs in `hay` starting at index `i`. */
  predicate OccursAt(hay: string, needle: string, i: int) {
    0 <= i && i + |needle| <= |hay| && hay[i..i + |needle|] == needle
  }

  /** Python's `needle in hay` on strings. */
  predicate Contains(hay: string, needle: string) {
    exists i | 0 <= i <= |hay| - |needle| :: OccursAt(hay, needle, i)
  }

  lemma {:induction false} ContainsEmpty(hay: string)
    ensures Contains(hay, "")
  {
    assert OccursAt(hay, "", 0);
  }

  // ---------------------------------------------------------------------------
  // Joining and splitting on a separator

  /** `sep.join(parts)` for a one-character separator. */
  function Join(sep: char, parts: seq<string>): (r: string)
    decreases |parts|
  {
    if |parts| == 0 then ""
    else if |parts| == 1 then parts[0]
    else parts[0] + [sep] + Join(sep, parts[1..])
  }

  /** `s.split(sep)` for a one-character separator: never empty, one more piece than separators. */
  function Split(s: string, sep: char): (r: seq<string>)
    ensures |r| >= 1
    ensures forall k :: 0 <= k < |r| ==> sep !in r[k]
    decreases |s|
  {
    if |s| == 0 then [""]
    else
      var rest := Split(s[1..], sep);
      if s[0] == sep then [""] + rest
      else [[s[0]] + rest[0]] + rest[1..]
  }

  /** Splitting and joining again on the same separator gives back the text. */
  lemma {:induction false} JoinSplit(s: string, sep: char)
    ensures Join(sep, Split(s, sep)) == s
    decreases |s|
  {
    if |s| > 0 {
      var rest := Split(s[1..], sep);
      JoinSplit(s[1..], sep);
      if s[0] == sep {
        assert Split(s, sep) == [""] + rest;
        assert Join(sep, [""] + rest) == "" + [sep] + Join(sep, rest);
        assert s == [s[0]] + s[1..];
      } else {
        JoinCons(s[0], rest, sep);
        assert s == [s[0]] + s[1..];
      }
    }
  }

  /** Joining pieces free of the separator and splitting again gives back the pieces. */
  lemma {:induction false} SplitJoin(parts: seq<string>, sep: char)
    requires |parts| >= 1
    requires forall k :: 0 <= k < |parts| ==> sep !in parts[k]
    ensures Split(Join(sep, parts), sep) == parts
    decreases |parts|
  {
    if |parts| == 1 {
      SplitWithoutSeparator(parts[0], sep);
    } else {
      SplitJoin(parts[1..], sep);
      SplitAtSeparator(parts[0], Join(sep, parts[1..]), sep);
    }
  }

  lemma {:induction false} SplitWithoutSeparator(x: string, sep: char)
    requires sep !in x
    ensures Split(x, sep) == [x]
    decreases |x|
  {
    if |x| > 0 {
      SplitWithoutSeparator(x[1..], sep);
      assert x == [x[0]] + x[1..];
    }
  }

  lemma {:induction false} SplitAtSeparator(x: string, y: string, sep: char)
    requires sep !in x
    ensures Split(x + [sep] + y, sep) == [x] + Split(y, sep)
    decreases |x|
  {
    var s := x + [sep] + y;
    if |x| == 0 {
      assert s[1..] == y;
    } else {
      assert s[1..] == x[1..] + [sep] + y;
      SplitAtSeparator(x[1..], y, sep);
      assert x == [x[0]] + x[1..];
    }
  }

  /** Prepending a character to the first part prepends it to the joined text. */
  lemma {:induction false} JoinCons(c: char, parts: seq<string>, sep: char)
    requires |parts| >= 1
    ensures Join(sep, [[c] + parts[0]] + parts[1..]) == [c] + Join(sep, parts)
  {
    var ps := [[c] + parts[0]] + parts[1..];
    if |parts| == 1 {
      assert ps == [[c] + parts[0]];
    } else {
      assert ps[1..] == parts[1..];
    }
  }

  /** One step of `Split`, piece by piece. */
  lemma SplitCons(s: string, sep: char)
    requires |s| > 0
    ensures var r, rest := Split(s, sep), Split(s[1..], sep);
      if s[0] == sep then
        |r| == |rest| + 1 && r[0] == "" && forall k :: 1 <= k < |r| ==> r[k] == rest[k - 1]
      else
        |r| == |rest| && r[0] == [s[0]] + rest[0] && forall k :: 1 <= k < |r| ==> r[k] == rest[k]
  {
  }

  /** Lower-casing commutes with splitting on a separator that is not a letter. */
  lemma {:induction false} SplitLower(s: string, sep: char)
    requires !('A' <= sep <= 'Z') && !('a' <= sep <= 'z')
    ensures |Split(Lower(s), sep)| == |Split(s, sep)|
    ensures forall k :: 0 <= k < |Split(s, sep)| ==> Split(Lower(s), sep)[k] == Lower(Split(s, sep)[k])
    decreases |s|
  {
    if |s| > 0 {
      var r, lr := Split(s, sep), Split(Lower(s), sep);
      var rest := Split(s[1..], sep);
      assert Lower(s)[1..] == Lower(s[1..]);
      var lrest := Split(Lower(s)[1..], sep);
      SplitLower(s[1..], sep);
      SplitCons(s, sep);
      SplitCons(Lower(s), sep);
      assert LowerChar(s[0]) == sep <==> s[0] == sep;
      if s[0] != sep {
        assert Lower([s[0]] + rest[0]) == [LowerChar(s[0])] + Lower(rest[0]);
      }
    }
  }

  /** An occurrence of a text without the separator lies inside one of the split pieces. */
  lemma {:induction false} OccurrenceInPiece(s: string, q: string, sep: char)
    requires Contains(s, q)
    requires sep !in q
    ensures exists k :: 0 <= k < |Split(s, sep)| && Contains(Split(s, sep)[k], q)
    decreases |s|
  {
    var p :| 0 <= p <= |s| - |q| && OccursAt(s, q, p);
    if p == 0 {
      PrefixInFirstPiece(s, q, sep);
      assert OccursAt(Split(s, sep)[0], q, 0);
    } else {
      assert s[1..][p - 1..p - 1 + |q|] == s[p..p + |q|];
      assert OccursAt(s[1..], q, p - 1);
      OccurrenceInPiece(s[1..], q, sep);
      var r, rest := Split(s, sep), Split(s[1..], sep);
      var k :| 0 <= k < |rest| && Contains(rest[k], q);
      SplitCons(s, sep);
      if s[0] == sep {
        assert r[k + 1] == rest[k];
      } else if k == 0 {
        ContainsCons(s[0], rest[0], q);
        assert Contains(r[0], q);
      } else {
        assert r[k] == rest[k];
      }
    }
  }

  /** An occurrence survives prepending a character. */
  lemma ContainsCons(c: char, t: string, q: string)
    requires Contains(t, q)
    ensures Contains([c] + t, q)
  {
    var i :| 0 <= i <= |t| - |q| && OccursAt(t, q, i);
    assert ([c] + t)[i + 1..i + 1 + |q|] == t[i..i + |q|];
    assert OccursAt([c] + t, q, i + 1);
  }

  /** A prefix free of the separator is a prefix of the first piece. */
  lemma {:induction false} PrefixInFirstPiece(s: string, q: string, sep: char)
    requires |q| <= |s| && s[..|q|] == q
    requires sep !in q
    ensures |q| <= |Split(s, sep)[0]| && Split(s, sep)[0][..|q|] == q
    decreases |s|
  {
    if |q| > 0 {
      assert s[0] == q[0];
      assert s[1..][..|q| - 1] == q[1..];
      PrefixInFirstPiece(s[1..], q[1..], sep);
    }
  }

  // ---------------------------------------------------------------------------
  // str.splitlines()

  /** The characters `str.splitlines` treats as line boundaries. */
  predicate IsLineBreak(c: char) {
    c == '\n' || c == '\r' || c == '\U{000B}' || c == '\U{000C}' || c == '\U{001C}' ||
    c == '\U{001D}' || c == '\U{001E}' || c == '\U{0085}' || c == '\U{2028}' || c == '\U{2029}'
  }

  /** Index of the first line boundary in `s`, or `|s|` when there is none. */
  function FirstBreak(s: string): (i: nat)
    ensures i <= |s|
    ensures i < |s| ==> IsLineBreak(s[i])
    ensures forall j :: 0 <= j < i ==> !IsLineBreak(s[j])
    decreases |s|
  {
    if |s| == 0 then 0
    else if IsLineBreak(s[0]) then 0
    else 1 + FirstBreak(s[1..])
  }

  /**
   * `s.splitlines()`: "\r\n" is one boundary, a trailing boundary opens no
   * further line, and the empty text has no lines.
   */
  function SplitLines(s: string): (r: seq<string>)
    ensures s == "" <==> r == []
    ensures forall k, j :: 0 <= k < |r| && 0 <= j < |r[k]| ==> !IsLineBreak(r[k][j])
    decreases |s|
  {
    if |s| == 0 then []
    else
      var i := FirstBreak(s);
      if i == |s| then [s]
      else
        var w := if s[i] == '\r' && i + 1 < |s| && s[i + 1] == '\n' then 2 else 1;
        [s[..i]] + SplitLines(s[i + w..])
  }

  // ---------------------------------------------------------------------------
  // List slicing

  /** Normalises a Python slice bound against a length. */
  function SliceBound(i: int, n: nat): (b: nat)
    ensures b <= n
  {
    if i < 0 then (if i + n < 0 then 0 else i + n)
    else if i > n then n
    else i
  }

  /** Python's `xs[lo:hi]`, negative and out-of-range bounds included. */
  function PySlice<T>(xs: seq<T>, lo: int, hi: int): (r: seq<T>)
    ensures SliceBound(lo, |xs|) < SliceBound(hi, |xs|) ==>
              r == xs[SliceBound(lo, |xs|)..SliceBound(hi, |xs|)]
    ensures SliceBound(hi, |xs|) <= SliceBound(lo, |xs|) ==> r == []
  {
    var a, b := SliceBound(lo, |xs|), SliceBound(hi, |xs|);
    if a < b then xs[a..b] else []
  }

  /**
   * What the slice means: in-range bounds take the run `xs[lo..hi]`; a
   * negative bound counts from the end; a bound past the end stops at the
   * end; a bound before the start is the start; and crossed bounds give
   * the empty list.
   */
  lemma PySliceBounds<T>(xs: seq<T>, lo: int, hi: int)
    ensures 0 <= lo <= hi <= |xs| ==> PySlice(xs, lo, hi) == xs[lo..hi]
    ensures -|xs| <= lo < 0 ==> PySlice(xs, lo, hi) == PySlice(xs, lo + |xs|, hi)
    ensures -|xs| <= hi < 0 ==> PySlice(xs, lo, hi) == PySlice(xs, lo, hi + |xs|)
    ensures hi >= |xs| ==> PySlice(xs, lo, hi) == PySlice(xs, lo, |xs|)
    ensures lo < -|xs| ==> PySlice(xs, lo, hi) == PySlice(xs, 0, hi)
    ensures 0 <= hi <= lo ==> PySlice(xs, lo, hi) == []
    ensures |PySlice(xs, lo, hi)| <= |xs|
  {
  }

  // ---------------------------------------------------------------------------
  // Last segment: s.split(sep)[-1]

  /** The index of the last `sep` in `s`, or -1 when there is none. */
  function LastIndexOf(s: string, sep: char): (i: int)
    ensures -1 <= i < |s|
    ensures i >= 0 ==> s[i] == sep
    ensures forall j :: i < j < |s| ==> s[j] != sep
    decreases |s|
  {
    if |s| == 0 then -1
    else if s[|s| - 1] == sep then |s| - 1
    else LastIndexOf(s[..|s| - 1], sep)
  }

  /**
   * `s.split(sep)[-1]`: the text after the last `sep`, or all of `s`. With
   * `'.'` it is the simple name of a dotted name; with `'/'` it is
   * `os.path.basename`.
   */
  function LastSegment(s: string, sep: char): (r: string)
    ensures |r| <= |s| && r == s[|s| - |r|..]
    ensures sep !in r
    ensures r == s || s[|s| - |r| - 1] == sep
  {
    s[LastIndexOf(s, sep) + 1..]
  }


  /** The last segment of `owner + sep + member` is `member`. */
  lemma LastSegmentOfJoined(owner: string, sep: char, member: string)
    requires sep !in member
    ensures LastSegment(owner + [sep] + member, sep) == member
  {
    var s := owner + [sep] + member;
    var i := LastIndexOf(s, sep);
    assert s[|owner|] == sep;
    assert forall j :: |owner| < j < |s| ==> s[j] == member[j - |owner| - 1];
    assert s[|owner| + 1..] == member;
  }


  // ---------------------------------------------------------------------------
  // Whole-word occurrence: re.search(r'\b' + re.escape(w) + r'\b', s)

  /** `\w`, restricted to ASCII. */
  predicate IsWordChar(c: char) {
    'a' <= c <= 'z' || 'A' <= c <= 'Z' || '0' <= c <= '9' || c == '_'
  }

  predicate WordAt(s: string, i: int) {
    0 <= i < |s| && IsWordChar(s[i])
  }

  /** `\b` holds at position `i` (between `s[i-1]` and `s[i]`). */
  predicate BoundaryAt(s: string, i: int) {
    WordAt(s, i - 1) != WordAt(s, i)
  }

  predicate WholeWordAt(s: string, w: string, p: int) {
    OccursAt(s, w, p) && BoundaryAt(s, p) && BoundaryAt(s, p + |w|)
  }

  predicate ContainsWholeWord(s: string, w: string) {
    exists p | 0 <= p <= |s| - |w| :: WholeWordAt(s, w, p)
  }

  /**
   * The indexer's usage test: a non-empty snippet, the plain substring
   * pre-check, then the word-bounded search.
   */
  predicate Mentions(snippet: string, w: string) {
    snippet != "" && Contains(snippet, w) && ContainsWholeWord(snippet, w)
  }

  /** The substring pre-check never changes the outcome of the usage test. */
  lemma {:induction false} MentionsIsWholeWord(snippet: string, w: string)
    ensures Mentions(snippet, w) <==> snippet != "" && ContainsWholeWord(snippet, w)
  {
    if ContainsWholeWord(snippet, w) {
      var p :| 0 <= p <= |snippet| - |w| && WholeWordAt(snippet, w, p);
      assert OccursAt(snippet, w, p);
    }
  }
}
