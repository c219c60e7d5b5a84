/**
 * The import pattern of main.go:78,
 *
 *   import\s+(?:\{\s+)?([A-Z]+\w+|[A-Z]+\w+)(?:\s+\})?\s+from\s+\"(\@/|\.+)[a-zA-Z/_]+\"
 *
 * as a hand-written recogniser. Both alternatives of group 1 are the same
 * pattern, every optional part is decided by the character that follows it,
 * and every group ends where a run of its class ends. A backtracking matcher
 * may still move the split between `[A-Z]+` and `\w+` inside group 1 (an
 * all-capital name makes `[A-Z]+` give one letter back), but no group reports
 * that split and it does not move where group 1 ends. So a match starting at
 * a position is unique: the recogniser returns exactly the match of the
 * pattern there, if any (`ImportSound`, `ImportComplete`).
 */
module ImportPattern {
  import opened Wrappers
  import opened Lexical

  /**
   * Position after `import\s+(?:\{\s+)?` at `i`. The optional `\{\s+` is taken
   * whenever it is there: skipping it leaves `{` for group 1, which needs an
   * upper-case letter.
   */
  function HeadEnd(s: string, i: nat): (r: Option<nat>)
    ensures r.Some? ==> i + 7 <= r.value <= |s|
  {
    if !Lit(s, i, "import") then None
    else
      var a := RunEnd(s, i + 6, Space);
      if a == i + 6 then None
      else if Lit(s, a, "{") && RunEnd(s, a + 1, Space) > a + 1 then Some(RunEnd(s, a + 1, Space))
      else Some(a)
  }

  /**
   * End of group 1 at `b`. The group must be followed by white space, so it
   * ends where the run of word characters ends.
   */
  function NameEnd(s: string, b: nat): (r: Option<nat>)
    requires b <= |s|
    ensures r.Some? ==> b + 2 <= r.value <= |s|
  {
    if b == |s| || !IsUpper(s[b]) then None
    else
      var c := RunEnd(s, b, Word);
      if c < b + 2 then None else Some(c)
  }

  /**
   * Position of the opening quote after `(?:\s+\})?\s+from\s+` at `c`. The
   * optional `\s+\}` is taken exactly when the white space after the name is
   * followed by `}`; otherwise that `}` would have to be the `f` of `from`.
   */
  function TailEnd(s: string, c: nat): (r: Option<nat>)
    requires c <= |s|
    ensures r.Some? ==> c < r.value <= |s|
  {
    var w := RunEnd(s, c, Space);
    if w == c then None
    else
      var d := if w < |s| && s[w] == '}' then w + 1 else c;
      var f := RunEnd(s, d, Space);
      if f == d || !Lit(s, f, "from") then None
      else
        var h := RunEnd(s, f + 4, Space);
        if h == f + 4 then None else Some(h)
  }

  /**
   * The quoted specifier `\"(\@/|\.+)[a-zA-Z/_]+\"` at `h`: the end of group 2
   * and the end of the match.
   */
  function SpecifierEnd(s: string, h: nat): (r: Option<(nat, nat)>)
    ensures r.Some? ==> h + 1 < r.value.0 < r.value.1 <= |s|
  {
    if !Lit(s, h, "\"") then None
    else
      var p := if Lit(s, h + 1, "@/") then h + 3 else RunEnd(s, h + 1, Dot);
      if p == h + 1 then None
      else
        var q := RunEnd(s, p, PathChar);
        if q == p || !Lit(s, q, "\"") then None else Some((p, q + 1))
  }

  /**
   * The match of the import pattern that starts at `i`, if any, with the
   * submatch vector `[whole, group 1, group 2]`.
   */
  function MatchImport(s: string, i: nat): (r: Option<Match>)
    ensures r.Some? ==> r.value.start == i && i < r.value.end <= |s|
    ensures r.Some? ==> |r.value.groups| == 3 && r.value.groups[0] == s[i..r.value.end]
  {
    match HeadEnd(s, i)
    case None => None
    case Some(b) =>
      match NameEnd(s, b)
      case None => None
      case Some(c) =>
        match TailEnd(s, c)
        case None => None
        case Some(h) =>
          match SpecifierEnd(s, h)
          case None => None
          case Some((p, j)) => Some(Match(i, j, [s[i..j], s[b..c], s[h + 1..p]]))
  }

  // ---------------------------------------------------------------------
  // The language of the pattern, stated on positions of the text.
  // ---------------------------------------------------------------------

  /** `s[i..b]` is matched by `import\s+(?:\{\s+)?`, the first white space ending at `a`. */
  ghost predicate HeadVia(s: string, i: nat, a: nat, b: nat) {
    && Lit(s, i, "import") && Plus(s, i + 6, a, Space)
    && (b == a || (Lit(s, a, "{") && Plus(s, a + 1, b, Space)))
  }

  /** `s[c..d]` is matched by `\s+\}`, the white space ending at `e`. */
  ghost predicate CloseVia(s: string, c: nat, e: nat, d: nat) {
    Plus(s, c, e, Space) && Lit(s, e, "}") && d == e + 1
  }

  /** `s[d..h]` is matched by `\s+from\s+`, the keyword starting at `f`. */
  ghost predicate FromVia(s: string, d: nat, f: nat, h: nat) {
    Plus(s, d, f, Space) && Lit(s, f, "from") && Plus(s, f + 4, h, Space)
  }

  /** `s[c..h]` is matched by `(?:\s+\})?\s+from\s+`. */
  ghost predicate TailVia(s: string, c: nat, d: nat, f: nat, h: nat) {
    (d == c || exists e: nat :: CloseVia(s, c, e, d)) && FromVia(s, d, f, h)
  }

  /** `s[h..j]` is matched by `\"(\@/|\.+)[a-zA-Z/_]+\"`, group 2 ending at `p`. */
  ghost predicate Specifier(s: string, h: nat, p: nat, j: nat) {
    && Lit(s, h, "\"")
    && ((Lit(s, h + 1, "@/") && p == h + 3) || Plus(s, h + 1, p, Dot))
    && j >= 1 && Plus(s, p, j - 1, PathChar) && Lit(s, j - 1, "\"")
  }

  /** One parse of the whole pattern over `s[i..j]`, with its split points. */
  ghost predicate ImportVia(s: string, i: nat, j: nat, b: nat, c: nat, d: nat, f: nat, h: nat, p: nat) {
    && (exists a: nat :: HeadVia(s, i, a, b))
    && UpperThenWord(s, b, c)
    && TailVia(s, c, d, f, h)
    && Specifier(s, h, p, j)
  }

  /** The parse `ImportVia` yields submatch vector `g`. */
  ghost predicate ImportParse(s: string, i: nat, j: nat, g: seq<string>,
                              b: nat, c: nat, d: nat, f: nat, h: nat, p: nat) {
    && ImportVia(s, i, j, b, c, d, f, h, p)
    && i <= j <= |s| && b <= c <= |s| && h + 1 <= p <= |s|
    && g == [s[i..j], s[b..c], s[h + 1..p]]
  }

  /** The pattern matches `s[i..j]` with submatch vector `g`. */
  ghost predicate ImportAt(s: string, i: nat, j: nat, g: seq<string>) {
    exists b: nat, c: nat, d: nat, f: nat, h: nat, p: nat :: ImportParse(s, i, j, g, b, c, d, f, h, p)
  }

  // ---------------------------------------------------------------------
  // The recogniser against the language.
  // ---------------------------------------------------------------------

  lemma HeadSound(s: string, i: nat)
    requires HeadEnd(s, i).Some?
    ensures exists a: nat :: HeadVia(s, i, a, HeadEnd(s, i).value)
  {
    assert HeadVia(s, i, RunEnd(s, i + 6, Space), HeadEnd(s, i).value);
  }

  lemma TailSound(s: string, c: nat)
    requires c <= |s| && TailEnd(s, c).Some?
    ensures exists d: nat, f: nat :: TailVia(s, c, d, f, TailEnd(s, c).value)
  {
    var w := RunEnd(s, c, Space);
    var d := if w < |s| && s[w] == '}' then w + 1 else c;
    if d != c {
      assert CloseVia(s, c, w, d);
    }
    var f := RunEnd(s, d, Space);
    assert FromVia(s, d, f, TailEnd(s, c).value);
    assert TailVia(s, c, d, f, TailEnd(s, c).value);
  }

  lemma SpecifierSound(s: string, h: nat)
    requires SpecifierEnd(s, h).Some?
    ensures Specifier(s, h, SpecifierEnd(s, h).value.0, SpecifierEnd(s, h).value.1)
  {
  }

  /** Every match the recogniser reports is a match of the pattern. */
  lemma ImportSound(s: string, i: nat)
    requires MatchImport(s, i).Some?
    ensures ImportAt(s, i, MatchImport(s, i).value.end, MatchImport(s, i).value.groups)
  {
    var m := MatchImport(s, i).value;
    var b := HeadEnd(s, i).value;
    var c := NameEnd(s, b).value;
    var h := TailEnd(s, c).value;
    var (p, j) := SpecifierEnd(s, h).value;
    assert m == Match(i, j, [s[i..j], s[b..c], s[h + 1..p]]);
    HeadSound(s, i);
    UpperThenWordOf(s, b, c);
    TailSound(s, c);
    var d: nat, f: nat :| TailVia(s, c, d, f, h);
    SpecifierSound(s, h);
    assert ImportVia(s, i, j, b, c, d, f, h, p);
    assert ImportParse(s, i, j, m.groups, b, c, d, f, h, p);
  }

  lemma HeadComplete(s: string, i: nat, a: nat, b: nat)
    requires HeadVia(s, i, a, b)
    requires b < |s| && IsUpper(s[b])
    ensures HeadEnd(s, i) == Some(b)
  {
    if b == a {
      RunEndUnique(s, i + 6, a, Space);
      if Lit(s, a, "{") {
        LitHead(s, a, "{");
      }
    } else {
      LitHead(s, a, "{");
      RunEndUnique(s, i + 6, a, Space);
      RunEndUnique(s, a + 1, b, Space);
    }
  }

  lemma TailComplete(s: string, c: nat, d: nat, f: nat, h: nat)
    requires TailVia(s, c, d, f, h)
    requires h < |s| && s[h] == '"'
    ensures TailEnd(s, c) == Some(h)
  {
    LitHead(s, f, "from");
    RunEndUnique(s, f + 4, h, Space);
    RunEndUnique(s, d, f, Space);
    if d == c {
      assert RunEnd(s, c, Space) == f;
    } else {
      var e: nat :| CloseVia(s, c, e, d);
      LitHead(s, e, "}");
      RunEndUnique(s, c, e, Space);
    }
  }

  lemma SpecifierComplete(s: string, h: nat, p: nat, j: nat)
    requires Specifier(s, h, p, j)
    ensures SpecifierEnd(s, h) == Some((p, j))
  {
    LitHead(s, j - 1, "\"");
    RunEndUnique(s, p, j - 1, PathChar);
    if !(Lit(s, h + 1, "@/") && p == h + 3) {
      assert InClass(s[h + 1], Dot);
      if Lit(s, h + 1, "@/") {
        LitHead(s, h + 1, "@/");
      }
      assert InClass(s[p], PathChar);
      RunEndUnique(s, h + 1, p, Dot);
    }
  }

  /** The tail starts with white space. */
  lemma TailStart(s: string, c: nat, d: nat, f: nat, h: nat)
    requires TailVia(s, c, d, f, h)
    ensures c < |s| && InClass(s[c], Space)
  {
    if d == c {
      assert Plus(s, c, f, Space);
    } else {
      var e: nat :| CloseVia(s, c, e, d);
    }
  }

  /** A name followed by white space ends where its word run ends. */
  lemma NameComplete(s: string, b: nat, c: nat)
    requires UpperThenWord(s, b, c)
    requires c < |s| && InClass(s[c], Space)
    ensures NameEnd(s, b) == Some(c)
  {
    UpperThenWordShape(s, b, c);
    RunEndUnique(s, b, c, Word);
  }

  /** The recogniser assembles its match from the four steps. */
  lemma MatchImportOfSteps(s: string, i: nat, b: nat, c: nat, h: nat, p: nat, j: nat)
    requires HeadEnd(s, i) == Some(b) && NameEnd(s, b) == Some(c)
    requires TailEnd(s, c) == Some(h) && SpecifierEnd(s, h) == Some((p, j))
    ensures MatchImport(s, i) == Some(Match(i, j, [s[i..j], s[b..c], s[h + 1..p]]))
  {
  }

  /** The recogniser follows one given parse of the pattern. */
  lemma ParseComplete(s: string, i: nat, j: nat, g: seq<string>,
                      b: nat, c: nat, d: nat, f: nat, h: nat, p: nat)
    requires ImportParse(s, i, j, g, b, c, d, f, h, p)
    ensures HeadEnd(s, i) == Some(b) && NameEnd(s, b) == Some(c)
    ensures TailEnd(s, c) == Some(h) && SpecifierEnd(s, h) == Some((p, j))
  {
    var a: nat :| HeadVia(s, i, a, b);
    UpperThenWordShape(s, b, c);
    HeadComplete(s, i, a, b);
    TailStart(s, c, d, f, h);
    NameComplete(s, b, c);
    LitHead(s, h, "\"");
    TailComplete(s, c, d, f, h);
    SpecifierComplete(s, h, p, j);
  }

  /**
   * Whenever the pattern matches `s[i..j]` with submatch vector `g`, the
   * recogniser reports exactly that match: a match at a position is unique.
   */
  lemma ImportComplete(s: string, i: nat, j: nat, g: seq<string>)
    requires ImportAt(s, i, j, g)
    ensures MatchImport(s, i) == Some(Match(i, j, g))
  {
    var b: nat, c: nat, d: nat, f: nat, h: nat, p: nat :| ImportParse(s, i, j, g, b, c, d, f, h, p);
    ParseComplete(s, i, j, g, b, c, d, f, h, p);
    MatchImportOfSteps(s, i, b, c, h, p, j);
  }

  /** Group 1 of every reported match is a component name. */
  lemma ImportNameShape(s: string, i: nat)
    requires MatchImport(s, i).Some?
    ensures IsName(MatchImport(s, i).value.groups[1])
  {
    var b := HeadEnd(s, i).value;
    var c := NameEnd(s, b).value;
    NameSpan(s, b, c);
  }

  /**
   * The text between the quotes of a specifier the pattern accepts: `@/` or a
   * run of dots, then at least one character of `[a-zA-Z/_]`.
   */
  ghost predicate LocalSpecifier(t: string) {
    exists p: nat :: p < |t| && (t[..p] == "@/" || Plus(t, 0, p, Dot)) && Plus(t, p, |t|, PathChar)
  }

  /** `s[h..e]` is a double-quoted local specifier. */
  ghost predicate QuotedLocal(s: string, h: nat, e: nat) {
    h + 2 < e <= |s| && s[h] == '"' && s[e - 1] == '"' && LocalSpecifier(s[h + 1..e - 1])
  }

  /** The specifier the recogniser accepts at `h` is a quoted local specifier. */
  lemma SpecifierText(s: string, h: nat)
    requires SpecifierEnd(s, h).Some?
    ensures QuotedLocal(s, h, SpecifierEnd(s, h).value.1)
  {
    var (p, j) := SpecifierEnd(s, h).value;
    var q := j - 1;
    assert s[h..h + 1][0] == s[h] && s[q..q + 1][0] == s[q];
    var t := s[h + 1..q];
    var r: nat := p - (h + 1);
    if Lit(s, h + 1, "@/") {
      assert t[..r] == s[h + 1..h + 3];
    } else {
      assert Plus(t, 0, r, Dot) by {
        forall k | 0 <= k < r
          ensures InClass(t[k], Dot)
        {
          assert t[k] == s[h + 1 + k];
        }
      }
    }
    assert Plus(t, r, |t|, PathChar) by {
      forall k | r <= k < |t|
        ensures InClass(t[k], PathChar)
      {
        assert t[k] == s[h + 1 + k];
      }
    }
  }

  /** Every match ends with a double-quoted local specifier. */
  lemma ImportSpecifierShape(s: string, i: nat)
    requires MatchImport(s, i).Some?
    ensures exists h: nat :: i < h && QuotedLocal(s, h, MatchImport(s, i).value.end)
  {
    var b := HeadEnd(s, i).value;
    var c := NameEnd(s, b).value;
    var h := TailEnd(s, c).value;
    ImportEndAt(s, i, h);
    SpecifierText(s, h);
  }

  /** The match at `i` ends where the specifier after its `from` ends. */
  lemma ImportEndAt(s: string, i: nat, h: nat)
    requires MatchImport(s, i).Some?
    requires HeadEnd(s, i).Some? && NameEnd(s, HeadEnd(s, i).value).Some?
    requires h == TailEnd(s, NameEnd(s, HeadEnd(s, i).value).value).value
    ensures i < h && SpecifierEnd(s, h).Some? && MatchImport(s, i).value.end == SpecifierEnd(s, h).value.1
  {
  }

  /**
   * A local specifier starts with `@` or `.` and holds no digit, no `-` and
   * no quote of either kind: `"react"`, `'./Foo'` and `"./Foo-2"` never match.
   */
  lemma LocalSpecifierChars(t: string)
    requires LocalSpecifier(t)
    ensures |t| >= 2 && (t[0] == '@' || t[0] == '.')
    ensures forall k :: 0 <= k < |t| ==> !IsDigit(t[k]) && t[k] != '-' && t[k] != '"' && t[k] != '\''
  {
    var p: nat :| p < |t| && (t[..p] == "@/" || Plus(t, 0, p, Dot)) && Plus(t, p, |t|, PathChar);
    if t[..p] == "@/" {
      assert t[0] == t[..p][0] && t[1] == t[..p][1];
    }
  }
}
