/**
 * The string primitives the text pipeline is built from: the character classes of
 * java.util.regex (`\s`, `\d`, line terminators, all ASCII-only as the patterns are
 * compiled without UNICODE_CHARACTER_CLASS), Kotlin's Unicode `isWhitespace` and
 * `trim()`, and the leftmost-match searches `indexOf`/`contains`/`removePrefix`.
 */
module KotlinText {
  import opened Wrappers

  /** `\s` of java.util.regex: space, tab, newline, vertical tab, form feed, carriage return. */
  predicate IsRegexSpace(c: char) {
    c == ' ' || c == '\t' || c == '\n' || c == '\U{000B}' || c == '\U{000C}' || c == '\r'
  }

  /** `\d` of java.util.regex: the ASCII digits only. */
  predicate IsRegexDigit(c: char) {
    '0' <= c <= '9'
  }

  predicate IsNotRegexSpace(c: char) {
    !IsRegexSpace(c)
  }

  /** The characters `.` does not match and before which `$` may match (UNIX_LINES off). */
  predicate IsLineTerminator(c: char) {
    c == '\n' || c == '\r' || c == '\U{0085}' || c == '\U{2028}' || c == '\U{2029}'
  }

  /**
   * Kotlin `Char.isWhitespace()`: Java's `isWhitespace` or `isSpaceChar`, that is the
   * ASCII controls 9-13 and 28-31, every space separator (U+0020, U+00A0, U+1680,
   * U+2000-U+200A, U+202F, U+205F, U+3000), and the line and paragraph separators.
   */
  const WHITESPACE: set<char> := {
    '\t', '\n', '\U{000B}', '\U{000C}', '\r', '\U{001C}', '\U{001D}', '\U{001E}', '\U{001F}',
    ' ', '\U{00A0}', '\U{1680}',
    '\U{2000}', '\U{2001}', '\U{2002}', '\U{2003}', '\U{2004}', '\U{2005}', '\U{2006}',
    '\U{2007}', '\U{2008}', '\U{2009}', '\U{200A}',
    '\U{2028}', '\U{2029}', '\U{202F}', '\U{205F}', '\U{3000}'
  }

  predicate IsWhitespace(c: char) {
    c in WHITESPACE
  }

  /** No character above U+3000, the ideographic space, is whitespace. */
  lemma WideNotWhitespace(c: char)
    requires c > '\U{3000}'
    ensures !IsWhitespace(c)
  {
    assert forall w :: w in WHITESPACE ==> w <= '\U{3000}';
  }

  ghost predicate AllWhitespace(s: string) {
    forall k :: 0 <= k < |s| ==> IsWhitespace(s[k])
  }

  /** Drops the leading whitespace: what is left is a suffix starting with a non-blank. */
  function TrimStart(s: string): (t: string)
    ensures |t| <= |s| && t == s[|s| - |t|..]
    ensures AllWhitespace(s[..|s| - |t|])
    ensures t == [] || !IsWhitespace(t[0])
    decreases |s|
  {
    if |s| > 0 && IsWhitespace(s[0]) then
      var t := TrimStart(s[1..]);
      assert s[1..][|s| - 1 - |t|..] == s[|s| - |t|..];
      assert forall k :: 1 <= k < |s| - |t| ==> s[k] == s[1..][..|s| - 1 - |t|][k - 1];
      t
    else s
  }

  /** Drops the trailing whitespace: what is left is a prefix ending with a non-blank. */
  function TrimEnd(s: string): (t: string)
    ensures |t| <= |s| && t == s[..|t|]
    ensures AllWhitespace(s[|t|..])
    ensures t == [] || !IsWhitespace(t[|t| - 1])
    decreases |s|
  {
    if |s| > 0 && IsWhitespace(s[|s| - 1]) then
      var t := TrimEnd(s[..|s| - 1]);
      assert forall k :: |t| <= k < |s| - 1 ==> s[k] == s[..|s| - 1][|t|..][k - |t|];
      t
    else s
  }

  /** Neither end of `s` is blank. */
  predicate Trimmed(s: string) {
    s == [] || (!IsWhitespace(s[0]) && !IsWhitespace(s[|s| - 1]))
  }

  /** Kotlin `trim()`: both ends stripped of whitespace (`TrimInfix` says what is kept). */
  function Trim(s: string): (t: string)
    ensures |t| <= |s|
    ensures Trimmed(t)
  {
    TrimEnd(TrimStart(s))
  }

  /** `trim()` keeps the infix between a whitespace prefix and a whitespace suffix. */
  lemma TrimInfix(s: string)
    ensures var a := |s| - |TrimStart(s)|;
      && a + |Trim(s)| <= |s|
      && Trim(s) == s[a..a + |Trim(s)|]
      && AllWhitespace(s[..a])
      && AllWhitespace(s[a + |Trim(s)|..])
  {
    var u := TrimStart(s);
    var t := TrimEnd(u);
    assert u[|t|..] == s[|s| - |u| + |t|..];
  }

  /** A string with no blank at either end is its own trim. */
  lemma {:induction false} TrimNoOp(s: string)
    requires Trimmed(s)
    ensures Trim(s) == s
  {
  }

  /** Trimming twice is trimming once. */
  lemma TrimIdempotent(s: string)
    ensures Trim(Trim(s)) == Trim(s)
  {
    TrimNoOp(Trim(s));
  }

  /** The characters of `s` that satisfy `keep`, in order (a regex replace of a class by ""). */
  function Keep(s: string, keep: char -> bool): (r: string)
    ensures |r| <= |s|
    ensures forall k :: 0 <= k < |r| ==> keep(r[k])
  {
    if s == [] then []
    else if keep(s[0]) then [s[0]] + Keep(s[1..], keep)
    else Keep(s[1..], keep)
  }

  /** Every character kept was in the input. */
  lemma {:induction false} KeepFrom(s: string, keep: char -> bool)
    ensures forall c :: c in Keep(s, keep) ==> c in s
  {
    if s != [] {
      KeepFrom(s[1..], keep);
    }
  }

  /** Keeping a class that everything already satisfies changes nothing. */
  lemma {:induction false} KeepAll(s: string, keep: char -> bool)
    requires forall k :: 0 <= k < |s| ==> keep(s[k])
    ensures Keep(s, keep) == s
  {
    if s != [] {
      KeepAll(s[1..], keep);
    }
  }

  /** A filter by `p` followed by a stricter filter by `q` is the filter by `q` alone. */
  lemma {:induction false} KeepAbsorbed(s: string, p: char -> bool, q: char -> bool)
    requires forall c :: q(c) ==> p(c)
    ensures Keep(Keep(s, p), q) == Keep(s, q)
  {
    if s != [] {
      KeepAbsorbed(s[1..], p, q);
      if p(s[0]) {
        assert Keep(s, p) == [s[0]] + Keep(s[1..], p);
        assert ([s[0]] + Keep(s[1..], p))[1..] == Keep(s[1..], p);
      }
    }
  }

  /** `r` is `s` with some characters left out, the rest kept in their order. */
  predicate IsSubsequence(r: string, s: string)
    decreases |s|
  {
    r == [] || (s != [] && ((r[0] == s[0] && IsSubsequence(r[1..], s[1..])) || IsSubsequence(r, s[1..])))
  }

  /** A subsequence of a suffix is a subsequence of the whole. */
  lemma {:induction false} SubsequenceOfSuffix(r: string, s: string, k: nat)
    requires k <= |s| && IsSubsequence(r, s[k..])
    ensures IsSubsequence(r, s)
  {
    if k > 0 {
      assert s[k - 1..][1..] == s[k..];
      SubsequenceOfSuffix(r, s, k - 1);
    }
  }

  /** Filtering distributes over concatenation. */
  lemma {:induction false} KeepAppend(a: string, b: string, keep: char -> bool)
    ensures Keep(a + b, keep) == Keep(a, keep) + Keep(b, keep)
  {
    if a == [] {
      assert a + b == b;
    } else {
      assert (a + b)[0] == a[0] && (a + b)[1..] == a[1..] + b;
      KeepAppend(a[1..], b, keep);
    }
  }

  /** `pat` occurs in `s` starting at `j`. */
  predicate OccursAt(s: string, pat: string, j: nat) {
    j + |pat| <= |s| && s[j..j + |pat|] == pat
  }

  /** The leftmost `j` in `[i, n]` that satisfies `p` (the search of every `find` and `indexOf`). */
  function FirstFrom(i: nat, n: nat, p: nat -> bool): (r: Option<nat>)
    ensures r.Some? ==> i <= r.value <= n && p(r.value)
    ensures r.Some? ==> forall j :: i <= j < r.value ==> !p(j)
    ensures r.None? ==> forall j :: i <= j <= n ==> !p(j)
    decreases n + 1 - i
  {
    if i > n then None
    else if p(i) then Some(i)
    else FirstFrom(i + 1, n, p)
  }

  /** Kotlin `indexOf(pat)`; `None` stands for -1. */
  function IndexOf(s: string, pat: string): (r: Option<nat>)
    ensures r.Some? ==> OccursAt(s, pat, r.value)
    ensures r.Some? ==> forall j: nat :: j < r.value ==> !OccursAt(s, pat, j)
    ensures r.None? ==> forall j: nat :: j <= |s| ==> !OccursAt(s, pat, j)
  {
    var p := (j: nat) => OccursAt(s, pat, j);
    assert forall j: nat :: p(j) == OccursAt(s, pat, j);
    FirstFrom(0, |s|, p)
  }

  /** Kotlin `contains(pat)`. */
  predicate Contains(s: string, pat: string) {
    IndexOf(s, pat).Some?
  }

  /** `contains` holds exactly when `pat` occurs somewhere in `s`. */
  lemma ContainsIff(s: string, pat: string)
    ensures Contains(s, pat) <==> exists j: nat :: j <= |s| && OccursAt(s, pat, j)
  {
  }

  /** Kotlin `removePrefix(p)`. */
  function RemovePrefix(s: string, p: string): (r: string)
    ensures OccursAt(s, p, 0) ==> s == p + r
    ensures !OccursAt(s, p, 0) ==> r == s
  {
    if |p| <= |s| && s[..|p|] == p then s[|p|..] else s
  }
}
