/**
 * `extractExports` and `extractImports` of main.go on the text of one file:
 * search the text for every match of the pattern and keep one name per
 * match, in text order, duplicates included.
 */
module Extract {
  import opened Wrappers
  import opened Lexical
  import opened Scanner
  import ExportPattern
  import ImportPattern

  // ---------------------------------------------------------------------
  // The name-selection rule of extractExports.
  // ---------------------------------------------------------------------

  /** Number of non-empty entries of a submatch vector. */
  function CountPopulated(v: seq<string>): (n: nat)
    ensures n <= |v|
    ensures |v| > 0 && v[0] != "" ==> n >= 1
  {
    if |v| == 0 then 0
    else CountPopulated(v[..|v| - 1]) + (if v[|v| - 1] != "" then 1 else 0)
  }

  /** The entry with the greatest index that is non-empty, or "" when there is none. */
  function LastPopulated(v: seq<string>): string {
    if |v| == 0 then ""
    else if v[|v| - 1] != "" then v[|v| - 1]
    else LastPopulated(v[..|v| - 1])
  }

  /** The non-empty entries of `v` come before all the empty ones. */
  ghost predicate PopulatedPrefix(v: seq<string>) {
    forall k, l :: 0 <= k < l < |v| && v[l] != "" ==> v[k] != ""
  }

  /**
   * The counting loop of extractExports: the number of non-empty entries of
   * one submatch vector.
   */
  method CountNonEmpty(v: seq<string>) returns (n: nat)
    ensures n == CountPopulated(v)
  {
    n := 0;
    var i := 0;
    while i < |v|
      invariant i <= |v|
      invariant n == CountPopulated(v[..i])
    {
      assert v[..i + 1][..i] == v[..i];
      if v[i] != "" {
        n := n + 1;
      }
      i := i + 1;
    }
    assert v[..|v|] == v;
  }

  lemma {:induction false} AllPopulatedCount(v: seq<string>)
    requires forall k :: 0 <= k < |v| ==> v[k] != ""
    ensures CountPopulated(v) == |v|
  {
    if |v| > 0 {
      AllPopulatedCount(v[..|v| - 1]);
    }
  }

  /**
   * When the non-empty entries form a prefix, the entry at index
   * `count - 1` is the last non-empty one.
   */
  lemma {:induction false} PrefixSelectsLast(v: seq<string>)
    requires PopulatedPrefix(v)
    requires CountPopulated(v) >= 1
    ensures v[CountPopulated(v) - 1] == LastPopulated(v) != ""
  {
    var w := v[..|v| - 1];
    if v[|v| - 1] != "" {
      AllPopulatedCount(v);
    } else {
      assert PopulatedPrefix(w);
      PrefixSelectsLast(w);
      assert v[CountPopulated(v) - 1] == w[CountPopulated(w) - 1];
    }
  }

  /**
   * `match[len-1]` of extractExports, where `len` counts the non-empty
   * entries; Go would panic on index -1 when there are none, hence the
   * precondition.
   */
  function SelectName(v: seq<string>): (r: string)
    requires CountPopulated(v) >= 1
    ensures r in v
    ensures PopulatedPrefix(v) ==> r == LastPopulated(v) && r != ""
  {
    assert PopulatedPrefix(v) ==> v[CountPopulated(v) - 1] == LastPopulated(v) != "" by {
      if PopulatedPrefix(v) {
        PrefixSelectsLast(v);
      }
    }
    v[CountPopulated(v) - 1]
  }

  /** Entry 0 being non-empty is enough for the selection to be in bounds. */
  lemma SelectionInBounds(v: seq<string>)
    requires |v| > 0 && v[0] != ""
    ensures 0 <= CountPopulated(v) - 1 < |v|
  {
  }

  /**
   * Without the prefix shape the rule can pick an empty entry: here the
   * count is 2, so entry 1 is read although entry 2 holds the name.
   */
  lemma SelectionNeedsPrefix()
    ensures SelectName(["m", "", "X"]) == "" && LastPopulated(["m", "", "X"]) == "X"
  {
    assert ["m", "", "X"][..2][..1] == ["m"];
    assert ["m", "", "X"][..2] == ["m", ""];
  }

  /**
   * The two vector shapes of the export pattern: `export default Foo` fills
   * group 1 only, `export function Foo` fills groups 1 to 3; both select `Foo`.
   */
  lemma SelectionExamples()
    ensures SelectName(["export default Foo", "Foo", "", ""]) == "Foo"
    ensures SelectName(["export function Foo", "function Foo", "function", "Foo"]) == "Foo"
  {
    var v := ["export default Foo", "Foo", "", ""];
    assert v[..3][..2][..1] == ["export default Foo"];
    assert v[..3][..2] == ["export default Foo", "Foo"];
    assert v[..3] == ["export default Foo", "Foo", ""];
    assert CountPopulated(v[..3][..2][..1]) == 1;
    assert CountPopulated(v[..3][..2]) == 2;
    assert CountPopulated(v) == 2;
    var w := ["export function Foo", "function Foo", "function", "Foo"];
    assert w[..3][..2][..1] == ["export function Foo"];
    assert w[..3][..2] == ["export function Foo", "function Foo"];
    assert w[..3] == ["export function Foo", "function Foo", "function"];
  }

  // ---------------------------------------------------------------------
  // From submatch vectors to names.
  // ---------------------------------------------------------------------

  /** Go would panic on every vector that passes `len(match) > 1` with no non-empty entry. */
  ghost predicate Selectable(vs: seq<seq<string>>) {
    forall k :: 0 <= k < |vs| && |vs[k]| > 1 ==> CountPopulated(vs[k]) >= 1
  }

  /** The loop of extractExports over the submatch vectors. */
  function ExportNames(vs: seq<seq<string>>): seq<string>
    requires Selectable(vs)
  {
    if |vs| == 0 then []
    else
      var v := vs[|vs| - 1];
      ExportNames(vs[..|vs| - 1]) + (if |v| > 1 then [SelectName(v)] else [])
  }

  /** The loop of extractImports over the submatch vectors: group 1 of each. */
  function ImportNames(vs: seq<seq<string>>): seq<string> {
    if |vs| == 0 then []
    else
      var v := vs[|vs| - 1];
      ImportNames(vs[..|vs| - 1]) + (if |v| > 1 then [v[1]] else [])
  }

  /** extractExports' loops, statement by statement. */
  method CollectExports(vs: seq<seq<string>>) returns (exports: seq<string>)
    requires Selectable(vs)
    ensures exports == ExportNames(vs)
  {
    exports := [];
    var i := 0;
    while i < |vs|
      invariant i <= |vs|
      invariant exports == ExportNames(vs[..i])
    {
      assert vs[..i + 1][..i] == vs[..i];
      var v := vs[i];
      if |v| > 1 {
        var n := CountNonEmpty(v);
        exports := exports + [v[n - 1]];
      }
      i := i + 1;
    }
    assert vs[..|vs|] == vs;
  }

  /** extractImports' loop, statement by statement. */
  method CollectImports(vs: seq<seq<string>>) returns (imports: seq<string>)
    ensures imports == ImportNames(vs)
  {
    imports := [];
    var i := 0;
    while i < |vs|
      invariant i <= |vs|
      invariant imports == ImportNames(vs[..i])
    {
      assert vs[..i + 1][..i] == vs[..i];
      var v := vs[i];
      if |v| > 1 {
        imports := imports + [v[1]];
      }
      i := i + 1;
    }
    assert vs[..|vs|] == vs;
  }

  /** Every vector has at least two entries and a non-empty prefix shape: one name each, the last non-empty entry. */
  lemma {:induction false} ExportNamesOfPrefixVectors(vs: seq<seq<string>>)
    requires forall k :: 0 <= k < |vs| ==> |vs[k]| > 1 && vs[k][0] != "" && PopulatedPrefix(vs[k])
    ensures Selectable(vs)
    ensures |ExportNames(vs)| == |vs|
    ensures forall k :: 0 <= k < |vs| ==> ExportNames(vs)[k] == LastPopulated(vs[k])
  {
    if |vs| > 0 {
      ExportNamesOfPrefixVectors(vs[..|vs| - 1]);
    }
  }

  lemma {:induction false} ImportNamesOfVectors(vs: seq<seq<string>>)
    requires forall k :: 0 <= k < |vs| ==> |vs[k]| > 1
    ensures |ImportNames(vs)| == |vs|
    ensures forall k :: 0 <= k < |vs| ==> ImportNames(vs)[k] == vs[k][1]
  {
    if |vs| > 0 {
      ImportNamesOfVectors(vs[..|vs| - 1]);
    }
  }

  // ---------------------------------------------------------------------
  // The two extractors.
  // ---------------------------------------------------------------------

  /** The submatch vectors of a sequence of matches. */
  function Vectors(ms: seq<Match>): (vs: seq<seq<string>>)
    ensures |vs| == |ms| && forall k :: 0 <= k < |ms| ==> vs[k] == ms[k].groups
  {
    seq(|ms|, k requires 0 <= k < |ms| => ms[k].groups)
  }

  lemma ExportRecogniserAnchored()
    ensures Anchored(ExportPattern.MatchExport)
  {
  }

  lemma ImportRecogniserAnchored()
    ensures Anchored(ImportPattern.MatchImport)
  {
  }

  /** The matches of the export pattern in `text`, leftmost first. */
  function ExportMatches(text: string): (ms: seq<Match>)
    ensures LeftmostScan(ExportPattern.MatchExport, text, 0, ms)
  {
    ExportRecogniserAnchored();
    FindAll(ExportPattern.MatchExport, text)
  }

  /** The matches of the import pattern in `text`, leftmost first. */
  function ImportMatches(text: string): (ms: seq<Match>)
    ensures LeftmostScan(ImportPattern.MatchImport, text, 0, ms)
  {
    ImportRecogniserAnchored();
    FindAll(ImportPattern.MatchImport, text)
  }

  /**
   * Every submatch vector of the export pattern has its non-empty entries
   * first, and its last non-empty entry is a component name.
   */
  lemma ExportVectorShape(text: string, i: nat)
    requires ExportPattern.MatchExport(text, i).Some?
    ensures var g := ExportPattern.MatchExport(text, i).value.groups;
            |g| > 1 && g[0] != "" && PopulatedPrefix(g) && IsName(LastPopulated(g))
  {
    ExportPattern.ExportGroupsShape(text, i);
    var g := ExportPattern.MatchExport(text, i).value.groups;
    if g[3] == "" {
      var g3 := g[..3];
      var g2 := g3[..2];
      assert g3 == [g[0], g[1], g[2]] && g2 == [g[0], g[1]];
      assert LastPopulated(g2) == g[1];
      assert LastPopulated(g3) == LastPopulated(g2);
      assert LastPopulated(g) == LastPopulated(g3);
    } else {
      assert LastPopulated(g) == g[3];
    }
  }

  /**
   * extractExports on the text of a file: one name per match of the export
   * pattern, in text order; each is the last non-empty group of its match
   * and a component name.
   */
  function ExtractExports(text: string): (names: seq<string>)
    ensures |names| == |ExportMatches(text)|
    ensures forall k :: 0 <= k < |names| ==>
              names[k] == LastPopulated(ExportMatches(text)[k].groups) && IsName(names[k])
  {
    var ms := ExportMatches(text);
    var vs := Vectors(ms);
    forall k | 0 <= k < |vs|
      ensures |vs[k]| > 1 && vs[k][0] != "" && PopulatedPrefix(vs[k])
      ensures IsName(LastPopulated(vs[k]))
    {
      assert ExportPattern.MatchExport(text, ms[k].start) == Some(ms[k]);
      ExportVectorShape(text, ms[k].start);
    }
    ExportNamesOfPrefixVectors(vs);
    ExportNames(vs)
  }

  /**
   * extractImports on the text of a file: group 1 of every match of the
   * import pattern, in text order; each is a component name.
   */
  function ExtractImports(text: string): (names: seq<string>)
    ensures |names| == |ImportMatches(text)|
    ensures forall k :: 0 <= k < |names| ==>
              names[k] == ImportMatches(text)[k].groups[1] && IsName(names[k])
  {
    var ms := ImportMatches(text);
    var vs := Vectors(ms);
    forall k | 0 <= k < |vs|
      ensures |vs[k]| > 1 && IsName(vs[k][1])
    {
      assert ImportPattern.MatchImport(text, ms[k].start) == Some(ms[k]);
      ImportPattern.ImportNameShape(text, ms[k].start);
    }
    ImportNamesOfVectors(vs);
    ImportNames(vs)
  }

  /** A text without any match of the export pattern yields no names, and only such a text. */
  lemma ExportsEmptyIff(text: string)
    ensures ExtractExports(text) == [] <==> NoMatchIn(ExportPattern.MatchExport, text, 0, |text| + 1)
  {
    ExportRecogniserAnchored();
    FindAllEmptyIff(ExportPattern.MatchExport, text);
  }

  /** A text without any match of the import pattern yields no names, and only such a text. */
  lemma ImportsEmptyIff(text: string)
    ensures ExtractImports(text) == [] <==> NoMatchIn(ImportPattern.MatchImport, text, 0, |text| + 1)
  {
    ImportRecogniserAnchored();
    FindAllEmptyIff(ImportPattern.MatchImport, text);
  }
}
