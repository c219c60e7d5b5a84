/**
 * The export pattern of main.go:36,
 *
 *   export\s+(?:default\s+)?([A-Z]\w+|(function|const)\s+([A-Z]+\w+))
 *
 * as a hand-written recogniser. Go's engine reports, among the matches that
 * start at a position, the one a backtracking matcher finds first: greedy
 * repetitions take as much as they can and the left alternative is tried
 * first. For this pattern the end of every group and the choice of every
 * optional part and alternative are forced: `default\s+` is taken whenever it
 * is there, the alternatives of group 1 start with different characters, and
 * each `\s+` and `\w+` run ends where its class ends. The one place a
 * backtracking matcher does give characters back is the split between
 * `[A-Z]+` and `\w+` in group 3 (on `FOO;`, `[A-Z]+` first takes all three
 * letters and then returns one); that split is reported by no group and does
 * not move where group 3 ends. So the recogniser needs no backtracking, and
 * the match it reports is the longest one (`ExportComplete`).
 */
module ExportPattern {
  import opened Wrappers
  import opened Lexical

  /**
   * Position after `export\s+(?:default\s+)?` at `i`. The optional `default\s+`
   * is taken whenever it is there: skipping it would leave the `d` of
   * `default` for group 1, which can start with neither an upper-case letter
   * nor `function`/`const`.
   */
  function HeadEnd(s: string, i: nat): (r: Option<nat>)
    ensures r.Some? ==> i + 7 <= r.value <= |s|
  {
    if !Lit(s, i, "export") then None
    else
      var a := RunEnd(s, i + 6, Space);
      if a == i + 6 then None
      else if Lit(s, a, "default") && RunEnd(s, a + 7, Space) > a + 7 then Some(RunEnd(s, a + 7, Space))
      else Some(a)
  }

  /** Position after the keyword of group 2, `(function|const)`, at `b`. */
  function KeywordEnd(s: string, b: nat): (r: Option<nat>)
    ensures r.Some? ==> b < r.value <= |s|
  {
    if Lit(s, b, "function") then Some(b + 8)
    else if Lit(s, b, "const") then Some(b + 5)
    else None
  }

  /**
   * Group 1 at `b`: the end of the match and the texts of groups 2 and 3.
   * The alternatives start with different characters (upper case against
   * `f`/`c`), so at most one applies; each ends with a greedy run of word
   * characters.
   */
  function BodyEnd(s: string, b: nat): (r: Option<(nat, string, string)>)
    requires b <= |s|
    ensures r.Some? ==> b < r.value.0 <= |s|
  {
    if b < |s| && IsUpper(s[b]) && RunEnd(s, b + 1, Word) > b + 1 then
      Some((RunEnd(s, b + 1, Word), "", ""))
    else
      match KeywordEnd(s, b)
      case None => None
      case Some(kw) =>
        var c := RunEnd(s, kw, Space);
        if c == kw || c == |s| || !IsUpper(s[c]) then None
        else
          var j := RunEnd(s, c, Word);
          if j < c + 2 then None
          else Some((j, s[b..kw], s[c..j]))
  }

  /**
   * The match of the export pattern that starts at `i`, if any, with the
   * submatch vector `[whole, group 1, group 2, group 3]`.
   */
  function MatchExport(s: string, i: nat): (r: Option<Match>)
    ensures r.Some? ==> r.value.start == i && i < r.value.end <= |s|
    ensures r.Some? ==> |r.value.groups| == 4 && r.value.groups[0] == s[i..r.value.end]
  {
    match HeadEnd(s, i)
    case None => None
    case Some(b) =>
      match BodyEnd(s, b)
      case None => None
      case Some((j, g2, g3)) => Some(Match(i, j, [s[i..j], s[b..j], g2, g3]))
  }

  // ---------------------------------------------------------------------
  // The language of the pattern, stated on positions of the text.
  // ---------------------------------------------------------------------

  /**
   * `s[i..b]` is matched by `export\s+(?:default\s+)?`, the whitespace after
   * `export` ending at `a`.
   */
  ghost predicate HeadVia(s: string, i: nat, a: nat, b: nat) {
    && Lit(s, i, "export") && Plus(s, i + 6, a, Space)
    && (b == a || (Lit(s, a, "default") && Plus(s, a + 7, b, Space)))
  }

  /** `s[i..b]` is matched by `export\s+(?:default\s+)?`. */
  ghost predicate Head(s: string, i: nat, b: nat) {
    exists a: nat :: HeadVia(s, i, a, b)
  }

  /** `s[b..j]` is matched by `[A-Z]\w+`. */
  ghost predicate CapWord(s: string, b: nat, j: nat) {
    b < |s| && IsUpper(s[b]) && Plus(s, b + 1, j, Word)
  }

  /** `s[b..kw]` is matched by `(function|const)`. */
  ghost predicate Keyword(s: string, b: nat, kw: nat) {
    (Lit(s, b, "function") && kw == b + 8) || (Lit(s, b, "const") && kw == b + 5)
  }

  /**
   * `s[b..j]` is matched by group 1, `[A-Z]\w+|(function|const)\s+([A-Z]+\w+)`,
   * with `g2` and `g3` the texts of groups 2 and 3.
   */
  ghost predicate Body(s: string, b: nat, j: nat, g2: string, g3: string) {
    || (CapWord(s, b, j) && g2 == "" && g3 == "")
    || exists kw: nat, c: nat :: Keyword(s, b, kw) && Plus(s, kw, c, Space) && UpperThenWord(s, c, j)
                       && g2 == s[b..kw] && g3 == s[c..j]
  }

  /** The pattern matches `s[i..j]` with submatch vector `g`. */
  ghost predicate ExportAt(s: string, i: nat, j: nat, g: seq<string>) {
    && |g| == 4
    && i <= j <= |s|
    && g[0] == s[i..j]
    && exists b: nat :: Head(s, i, b) && b <= j && g[1] == s[b..j] && Body(s, b, j, g[2], g[3])
  }

  // ---------------------------------------------------------------------
  // The recogniser against the language.
  // ---------------------------------------------------------------------

  lemma KeywordStart(s: string, b: nat, kw: nat)
    requires Keyword(s, b, kw)
    ensures b < |s| && (s[b] == 'f' || s[b] == 'c') && KeywordEnd(s, b) == Some(kw)
  {
    if Lit(s, b, "function") {
      LitHead(s, b, "function");
    } else {
      LitHead(s, b, "const");
      if Lit(s, b, "function") {
        LitHead(s, b, "function");
      }
    }
  }

  lemma HeadSound(s: string, i: nat)
    requires HeadEnd(s, i).Some?
    ensures Head(s, i, HeadEnd(s, i).value)
  {
    assert HeadVia(s, i, RunEnd(s, i + 6, Space), HeadEnd(s, i).value);
  }

  lemma BodySound(s: string, b: nat)
    requires b <= |s| && BodyEnd(s, b).Some?
    ensures var (j, g2, g3) := BodyEnd(s, b).value;
            Body(s, b, j, g2, g3)
  {
    var (j, g2, g3) := BodyEnd(s, b).value;
    if b < |s| && IsUpper(s[b]) && RunEnd(s, b + 1, Word) > b + 1 {
      assert CapWord(s, b, j);
    } else {
      var kw := KeywordEnd(s, b).value;
      var c := RunEnd(s, kw, Space);
      assert Keyword(s, b, kw);
      assert Plus(s, c, c + 1, Upper);
      assert UpperThenWord(s, c, j);
    }
  }

  /** Every match the recogniser reports is a match of the pattern. */
  lemma ExportSound(s: string, i: nat)
    requires MatchExport(s, i).Some?
    ensures ExportAt(s, i, MatchExport(s, i).value.end, MatchExport(s, i).value.groups)
  {
    var m := MatchExport(s, i).value;
    var b := HeadEnd(s, i).value;
    HeadSound(s, i);
    BodySound(s, b);
    assert Body(s, b, m.end, m.groups[2], m.groups[3]);
  }

  /** Group 1 starts with a character that is neither white space nor `d`. */
  lemma BodyStart(s: string, b: nat, j: nat, g2: string, g3: string)
    requires Body(s, b, j, g2, g3)
    ensures b < |s| && !InClass(s[b], Space) && s[b] != 'd'
  {
    if !(CapWord(s, b, j) && g2 == "" && g3 == "") {
      var kw: nat, c: nat :| Keyword(s, b, kw) && Plus(s, kw, c, Space) && UpperThenWord(s, c, j)
                             && g2 == s[b..kw] && g3 == s[c..j];
      KeywordStart(s, b, kw);
    }
  }

  /** The recogniser's head reaches every head that group 1 can follow. */
  lemma HeadComplete(s: string, i: nat, a: nat, b: nat)
    requires HeadVia(s, i, a, b)
    requires b < |s| && !InClass(s[b], Space) && s[b] != 'd'
    ensures HeadEnd(s, i) == Some(b)
  {
    if b == a {
      RunEndUnique(s, i + 6, a, Space);
      if Lit(s, a, "default") {
        LitHead(s, a, "default");
      }
    } else {
      LitHead(s, a, "default");
      RunEndUnique(s, i + 6, a, Space);
      RunEndUnique(s, a + 7, b, Space);
    }
  }

  /** The recogniser's group 1 reaches at least as far as every parse of it. */
  lemma BodyComplete(s: string, b: nat, j: nat, g2: string, g3: string)
    requires Body(s, b, j, g2, g3)
    ensures BodyEnd(s, b).Some?
    ensures j <= BodyEnd(s, b).value.0
    ensures j == BodyEnd(s, b).value.0 ==> g2 == BodyEnd(s, b).value.1 && g3 == BodyEnd(s, b).value.2
  {
    if CapWord(s, b, j) && g2 == "" && g3 == "" {
      RunEndCovers(s, b + 1, j, Word);
    } else {
      var kw: nat, c: nat :| Keyword(s, b, kw) && Plus(s, kw, c, Space) && UpperThenWord(s, c, j)
                             && g2 == s[b..kw] && g3 == s[c..j];
      KeywordStart(s, b, kw);
      UpperThenWordShape(s, c, j);
      RunEndUnique(s, kw, c, Space);
      RunEndCovers(s, c, j, Word);
    }
  }

  /**
   * Whenever the pattern matches at `i`, the recogniser reports a match at
   * `i`; it is the longest one, and its groups are those of every parse of
   * that longest span.
   */
  lemma ExportComplete(s: string, i: nat, j: nat, g: seq<string>)
    requires ExportAt(s, i, j, g)
    ensures MatchExport(s, i).Some?
    ensures j <= MatchExport(s, i).value.end
    ensures j == MatchExport(s, i).value.end ==> g == MatchExport(s, i).value.groups
  {
    var b: nat :| Head(s, i, b) && b <= j && g[1] == s[b..j] && Body(s, b, j, g[2], g[3]);
    var a: nat :| HeadVia(s, i, a, b);
    ParseComplete(s, i, a, b, j, g);
  }

  /** `ExportComplete` for one parse, its head ending at `b` and its `\s+` after `export` at `a`. */
  lemma ParseComplete(s: string, i: nat, a: nat, b: nat, j: nat, g: seq<string>)
    requires |g| == 4 && i <= b <= j <= |s| && g[0] == s[i..j] && g[1] == s[b..j]
    requires HeadVia(s, i, a, b) && Body(s, b, j, g[2], g[3])
    ensures MatchExport(s, i).Some?
    ensures j <= MatchExport(s, i).value.end
    ensures j == MatchExport(s, i).value.end ==> g == MatchExport(s, i).value.groups
  {
    BodyStart(s, b, j, g[2], g[3]);
    HeadComplete(s, i, a, b);
    BodyComplete(s, b, j, g[2], g[3]);
    MatchOfParts(s, i, b);
    assert g == [g[0], g[1], g[2], g[3]];
  }

  /** The match at `i` is assembled from the head ending at `b` and the group 1 after it. */
  lemma MatchOfParts(s: string, i: nat, b: nat)
    requires HeadEnd(s, i) == Some(b) && BodyEnd(s, b).Some?
    ensures var (j, g2, g3) := BodyEnd(s, b).value;
            MatchExport(s, i) == Some(Match(i, j, [s[i..j], s[b..j], g2, g3]))
  {
  }

  /** The name group the selection rule reads is a component name. */
  lemma ExportGroupsShape(s: string, i: nat)
    requires MatchExport(s, i).Some?
    ensures var g := MatchExport(s, i).value.groups;
            && g[0] != "" && g[1] != ""
            && (g[3] == "" ==> IsName(g[1]))
            && (g[2] == "" <==> g[3] == "")
            && (g[3] != "" ==> IsName(g[3]))
  {
    var m := MatchExport(s, i).value;
    var b := HeadEnd(s, i).value;
    if b < |s| && IsUpper(s[b]) && RunEnd(s, b + 1, Word) > b + 1 {
      NameSpan(s, b, m.end);
    } else {
      var kw := KeywordEnd(s, b).value;
      var c := RunEnd(s, kw, Space);
      NameSpan(s, c, m.end);
      assert m.groups[2] == s[b..kw] && |m.groups[2]| > 0;
    }
  }
}
