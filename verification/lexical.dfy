/**
 * The lexical vocabulary of the two fixed patterns in main.go: the character
 * classes they use, literal matching, greedy runs of one class, and the shape
 * of a match as Go's `FindAllStringSubmatch` reports it.
 *
 * Text is a sequence of code points. Every class below is ASCII-only, exactly
 * as in Go's RE2 syntax, so a non-ASCII character belongs to no class.
 */
module Lexical {

  /** The classes the patterns are built from. */
  datatype CharClass =
    | Space     // `\s`, RE2's Perl class [\t\n\f\r ]
    | Word      // `\w`, [0-9A-Za-z_]
    | Upper     // [A-Z]
    | PathChar  // [a-zA-Z/_], the specifier body of the import pattern
    | Dot       // `\.`

  predicate IsUpper(c: char) {
    'A' <= c <= 'Z'
  }

  predicate IsLower(c: char) {
    'a' <= c <= 'z'
  }

  predicate IsDigit(c: char) {
    '0' <= c <= '9'
  }

  predicate InClass(c: char, k: CharClass) {
    match k
    case Space => c == '\t' || c == '\n' || c as int == 0x0C || c == '\r' || c == ' '
    case Word => IsUpper(c) || IsLower(c) || IsDigit(c) || c == '_'
    case Upper => IsUpper(c)
    case PathChar => IsUpper(c) || IsLower(c) || c == '/' || c == '_'
    case Dot => c == '.'
  }

  /** `lit` occurs in `s` starting at position `i`. */
  predicate Lit(s: string, i: nat, lit: string) {
    i + |lit| <= |s| && s[i..i + |lit|] == lit
  }

  /** Every character of `s[a..b]` belongs to class `k` (the span may be empty). */
  predicate AllIn(s: string, a: nat, b: nat, k: CharClass) {
    a <= b <= |s| && forall q :: a <= q < b ==> InClass(s[q], k)
  }

  /** `s[a..b]` is matched by `k+`: a non-empty span of class `k`. */
  predicate Plus(s: string, a: nat, b: nat, k: CharClass) {
    a < b && AllIn(s, a, b, k)
  }

  /**
   * The end of the longest run of class `k` starting at `i`: the position
   * that a greedy `k*` reaches.
   */
  function RunEnd(s: string, i: nat, k: CharClass): (e: nat)
    requires i <= |s|
    ensures i <= e <= |s|
    ensures AllIn(s, i, e, k)
    ensures e == |s| || !InClass(s[e], k)
    decreases |s| - i
  {
    if i < |s| && InClass(s[i], k) then RunEnd(s, i + 1, k) else i
  }

  /** A span of class `k` that cannot be extended is the greedy run. */
  lemma RunEndUnique(s: string, i: nat, j: nat, k: CharClass)
    requires AllIn(s, i, j, k)
    requires j == |s| || !InClass(s[j], k)
    ensures RunEnd(s, i, k) == j
  {
  }

  /** Every span of class `k` starting at `i` lies inside the greedy run. */
  lemma RunEndCovers(s: string, i: nat, j: nat, k: CharClass)
    requires AllIn(s, i, j, k)
    ensures j <= RunEnd(s, i, k)
  {
  }

  /** The first character of a literal occurrence. */
  lemma LitHead(s: string, i: nat, lit: string)
    requires Lit(s, i, lit) && |lit| > 0
    ensures i < |s| && s[i] == lit[0]
  {
    assert s[i..i + |lit|][0] == s[i];
  }

  /**
   * A component name as both patterns capture it: an upper-case letter
   * followed by at least one more word character.
   */
  predicate IsName(t: string) {
    |t| >= 2 && IsUpper(t[0]) && forall q :: 0 <= q < |t| ==> InClass(t[q], Word)
  }

  /** A capitalised word span of length at least two is a component name. */
  lemma NameSpan(s: string, b: nat, j: nat)
    requires b + 2 <= j && AllIn(s, b, j, Word) && IsUpper(s[b])
    ensures IsName(s[b..j])
  {
    var t := s[b..j];
    forall q | 0 <= q < |t|
      ensures InClass(t[q], Word)
    {
      assert t[q] == s[b + q];
    }
  }

  /**
   * `s[c..j]` is matched by `[A-Z]+\w+`, the name group of both patterns. As
   * upper-case letters are word characters, this is a capitalised word of
   * length at least two (`UpperThenWordShape`).
   */
  ghost predicate UpperThenWord(s: string, c: nat, j: nat) {
    exists a: nat :: Plus(s, c, a, Upper) && Plus(s, a, j, Word)
  }

  lemma UpperThenWordShape(s: string, c: nat, j: nat)
    requires UpperThenWord(s, c, j)
    ensures c < |s| && IsUpper(s[c]) && c + 2 <= j && AllIn(s, c, j, Word)
  {
    var a: nat :| Plus(s, c, a, Upper) && Plus(s, a, j, Word);
    assert InClass(s[c], Upper);
  }

  /** A capitalised word span of length at least two matches `[A-Z]+\w+`. */
  lemma UpperThenWordOf(s: string, c: nat, j: nat)
    requires c + 2 <= j && AllIn(s, c, j, Word) && IsUpper(s[c])
    ensures UpperThenWord(s, c, j)
  {
    assert Plus(s, c, c + 1, Upper) && Plus(s, c + 1, j, Word);
  }

  /**
   * One match of a pattern: the half-open span `[start, end)` of the text and
   * the submatch vector, entry 0 being the whole match and entry `n` the text
   * of capture group `n` ("" when the group took no part in the match).
   */
  datatype Match = Match(start: nat, end: nat, groups: seq<string>)
}
