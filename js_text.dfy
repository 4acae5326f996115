/** The parts of JavaScript's string behaviour the services rely on:
    `String.prototype.trim`, the case folding a regular expression's `i` flag
    applies to an ASCII pattern, and the number of matches a global literal
    pattern finds (`text.match(new RegExp(literal, 'g')).length`). */
module JsText {

  /** ECMAScript WhiteSpace and LineTerminator code points: what `trim` removes. */
  predicate IsJsWhitespace(c: char) {
    var n := c as int;
    n == 0x09 || n == 0x0A || n == 0x0B || n == 0x0C || n == 0x0D || n == 0x20
    || n == 0xA0 || n == 0x1680 || (0x2000 <= n <= 0x200A) || n == 0x2028 || n == 0x2029
    || n == 0x202F || n == 0x205F || n == 0x3000 || n == 0xFEFF
  }

  predicate AllWhitespace(s: string)
    decreases |s|
  {
    s == [] || (IsJsWhitespace(s[0]) && AllWhitespace(s[1..]))
  }

  /** Drops leading whitespace; what is left is a suffix of `s`. */
  function TrimStart(s: string): (r: string)
    ensures |r| <= |s| && r == s[|s| - |r|..]
    ensures AllWhitespace(s[..|s| - |r|])
    ensures r == [] || !IsJsWhitespace(r[0])
    decreases |s|
  {
    if s != [] && IsJsWhitespace(s[0]) then
      var r := TrimStart(s[1..]);
      assert s[..|s| - |r|][1..] == s[1..][..|s[1..]| - |r|];
      r
    else
      assert s[..0] == [];
      s
  }

  /** `String.prototype.trim`: whitespace is dropped at both ends, one
      character at a time. The result neither starts nor ends with
      whitespace, is empty exactly when `s` is all whitespace, and leaves a
      string that already has no whitespace at its ends unchanged. */
  function Trim(s: string): (r: string)
    ensures |r| <= |s|
    ensures r == [] || (!IsJsWhitespace(r[0]) && !IsJsWhitespace(r[|r| - 1]))
    ensures r == [] <==> AllWhitespace(s)
    ensures s != [] && !IsJsWhitespace(s[0]) && !IsJsWhitespace(s[|s| - 1]) ==> r == s
    decreases |s|
  {
    if s != [] && IsJsWhitespace(s[0]) then Trim(s[1..])
    else if s != [] && IsJsWhitespace(s[|s| - 1]) then Trim(s[..|s| - 1])
    else s
  }

  /** `r` is the slice of `s` at `i`, with only whitespace before and after it. */
  ghost predicate SliceBetweenWhitespace(s: string, r: string, i: int) {
    && 0 <= i && i + |r| <= |s| && r == s[i..i + |r|]
    && AllWhitespace(s[..i]) && AllWhitespace(s[i + |r|..])
  }

  /** `trim` removes whitespace at the two ends and nothing else: its result
      is the slice of `s` that starts where `TrimStart` starts, with only
      whitespace before it and after it. */
  lemma {:induction false} TrimDropsOnlyEnds(s: string)
    ensures SliceBetweenWhitespace(s, Trim(s), |s| - |TrimStart(s)|)
    decreases |s|, 1
  {
    if s != [] && IsJsWhitespace(s[0]) {
      TrimLeadingCase(s);
    } else if s != [] && IsJsWhitespace(s[|s| - 1]) {
      TrimTrailingCase(s);
    } else {
      assert Trim(s) == s;
      assert TrimStart(s) == s;
      WholeSlice(s, Trim(s), |s| - |TrimStart(s)|);
    }
  }

  lemma {:induction false} TrimLeadingCase(s: string)
    requires s != [] && IsJsWhitespace(s[0])
    ensures SliceBetweenWhitespace(s, Trim(s), |s| - |TrimStart(s)|)
    decreases |s|, 0
  {
    TrimDropsOnlyEnds(s[1..]);
    assert Trim(s) == Trim(s[1..]);
    assert TrimStart(s) == TrimStart(s[1..]);
    SliceAfterWhitespace(s, Trim(s[1..]), |s[1..]| - |TrimStart(s[1..])|, Trim(s), |s| - |TrimStart(s)|);
  }

  lemma {:induction false} TrimTrailingCase(s: string)
    requires s != [] && !IsJsWhitespace(s[0]) && IsJsWhitespace(s[|s| - 1])
    ensures SliceBetweenWhitespace(s, Trim(s), |s| - |TrimStart(s)|)
    decreases |s|, 0
  {
    var t := s[..|s| - 1];
    TrimDropsOnlyEnds(t);
    assert Trim(s) == Trim(t);
    assert TrimStart(s) == s;
    assert TrimStart(t) == t;
    SliceBeforeWhitespace(s, Trim(t), Trim(s), |s| - |TrimStart(s)|);
  }

  lemma WholeSlice(s: string, r: string, j: int)
    requires r == s && j == 0
    ensures SliceBetweenWhitespace(s, r, j)
  {
    assert s[0..|s|] == s && s[..0] == [] && s[|s|..] == [];
  }

  /** A slice of the tail between whitespace is a slice of `s` between
      whitespace when `s` starts with whitespace. */
  lemma SliceAfterWhitespace(s: string, r: string, i: int, r': string, j: int)
    requires s != [] && IsJsWhitespace(s[0]) && SliceBetweenWhitespace(s[1..], r, i)
    requires r' == r && j == i + 1
    ensures SliceBetweenWhitespace(s, r', j)
  {
    TailSlices(s, i, i + |r|);
    assert s[..i + 1][1..] == s[1..][..i];
  }

  /** A slice at 0 of `s` without its last character, followed by
      whitespace, stays so when `s` ends with whitespace. */
  lemma SliceBeforeWhitespace(s: string, r: string, r': string, j: int)
    requires s != [] && IsJsWhitespace(s[|s| - 1]) && SliceBetweenWhitespace(s[..|s| - 1], r, 0)
    requires r' == r && j == 0
    ensures SliceBetweenWhitespace(s, r', j)
  {
    var t := s[..|s| - 1];
    assert t[0..|r|] == s[0..|r|] && s[..0] == [];
    assert s[|r|..] == t[|r|..] + [s[|s| - 1]];
    AllWhitespaceExtends(t[|r|..], s[|s| - 1]);
  }

  /** Slicing the tail of `s` is slicing `s` one position further on. */
  lemma TailSlices(s: string, a: nat, b: nat)
    requires s != [] && a <= b <= |s| - 1
    ensures s[1..][a..b] == s[a + 1..b + 1]
    ensures s[1..][b..] == s[b + 1..]
  {
  }

  /** Whitespace followed by one more whitespace character is whitespace. */
  lemma {:induction false} AllWhitespaceExtends(a: string, c: char)
    requires AllWhitespace(a) && IsJsWhitespace(c)
    ensures AllWhitespace(a + [c])
    decreases |a|
  {
    if a != [] {
      assert (a + [c])[1..] == a[1..] + [c];
      AllWhitespaceExtends(a[1..], c);
    }
  }

  /** ASCII lower-casing, the only case folding an ASCII pattern under the
      `i` flag sees (non-ASCII characters never fold onto ASCII ones). */
  function LowerAscii(c: char): char {
    if 'A' <= c <= 'Z' then (c as int + 32) as char else c
  }

  /** `s` starts with the lower-case pattern `p`, ignoring ASCII case. */
  predicate FoldedPrefix(s: string, p: string)
    decreases |p|
  {
    p == [] || (s != [] && LowerAscii(s[0]) == p[0] && FoldedPrefix(s[1..], p[1..]))
  }

  /** `/p/i.test(s)` for a lower-case pattern made of literal characters:
      some suffix of `s` starts with `p`, ignoring ASCII case. */
  predicate ContainsFolded(s: string, p: string)
    decreases |s|
  {
    FoldedPrefix(s, p) || (s != [] && ContainsFolded(s[1..], p))
  }

  /** Character-wise agreement from the start is a folded prefix. */
  lemma {:induction false} FoldedPrefixByChars(s: string, p: string)
    requires |p| <= |s|
    requires forall k :: 0 <= k < |p| ==> LowerAscii(s[k]) == p[k]
    ensures FoldedPrefix(s, p)
    decreases |p|
  {
    if p != [] {
      FoldedPrefixByChars(s[1..], p[1..]);
    }
  }

  /** A case-insensitive occurrence anywhere is found by the search. */
  lemma {:induction false} FoldedOccurrenceFound(s: string, p: string, at: nat)
    requires at + |p| <= |s|
    requires forall k :: 0 <= k < |p| ==> LowerAscii(s[at + k]) == p[k]
    ensures ContainsFolded(s, p)
    decreases at
  {
    if at == 0 {
      FoldedPrefixByChars(s, p);
    } else {
      FoldedOccurrenceFound(s[1..], p, at - 1);
    }
  }

  /** The literal `p` occurs in `s` at index `i`. */
  predicate OccursAt(s: string, p: string, i: int) {
    0 <= i && i + |p| <= |s| && s[i..i + |p|] == p
  }

  /** `/p/.test(s)` for a pattern made of literal characters. */
  predicate Contains(s: string, p: string) {
    exists i | 0 <= i <= |s| - |p| :: OccursAt(s, p, i)
  }

  /** The number of matches a global regular expression denoting the literal
      `p` finds in `s`: the search starts at the left and resumes after the
      end of each match, so matches never overlap. Each match uses up `|p|`
      characters of `s`. */
  function CountMatches(s: string, p: string): (n: nat)
    requires p != []
    ensures n <= |s|
    decreases |s|
  {
    if |s| < |p| then 0
    else if s[..|p|] == p then 1 + CountMatches(s[|p|..], p)
    else CountMatches(s[1..], p)
  }

  /** The matches are disjoint: together they use up `n * |p|` characters. */
  lemma {:induction false} MatchesAreDisjoint(s: string, p: string)
    requires p != []
    ensures CountMatches(s, p) * |p| <= |s|
    decreases |s|
  {
    if |s| < |p| {
    } else if s[..|p|] == p {
      var rest := CountMatches(s[|p|..], p);
      MatchesAreDisjoint(s[|p|..], p);
      assert (1 + rest) * |p| == |p| + rest * |p|;
    } else {
      MatchesAreDisjoint(s[1..], p);
    }
  }

  /** Without a match at index 0, the literal occurs in `s` exactly when it
      occurs in `s` without its first character. */
  lemma ContainsWithoutHead(s: string, p: string)
    requires s != [] && !OccursAt(s, p, 0)
    ensures Contains(s, p) <==> Contains(s[1..], p)
  {
    if Contains(s, p) {
      var i :| 0 <= i <= |s| - |p| && OccursAt(s, p, i);
      assert s[1..][i - 1..i - 1 + |p|] == s[i..i + |p|];
      assert OccursAt(s[1..], p, i - 1);
    }
    if Contains(s[1..], p) {
      var i :| 0 <= i <= |s[1..]| - |p| && OccursAt(s[1..], p, i);
      assert s[1..][i..i + |p|] == s[i + 1..i + 1 + |p|];
      assert OccursAt(s, p, i + 1);
    }
  }

  /** A global match finds nothing exactly when the literal does not occur. */
  lemma {:induction false} NoMatchesIffAbsent(s: string, p: string)
    requires p != []
    ensures CountMatches(s, p) == 0 <==> !Contains(s, p)
    decreases |s|
  {
    if |s| < |p| {
    } else if s[..|p|] == p {
      assert OccursAt(s, p, 0);
    } else {
      NoMatchesIffAbsent(s[1..], p);
      ContainsWithoutHead(s, p);
    }
  }
}
