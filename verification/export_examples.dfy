/**
 * The export pattern on whole statements: which declarations yield a
 * component name and which yield nothing. Each text is written as a
 * concatenation of its tokens; each `...At` lemma follows the recogniser
 * through the statement. The lemmas take the text as a parameter equal to
 * that concatenation rather than as a literal in the `ensures`, because a
 * literal makes the verifier unfold the recursive recogniser steps without
 * bound.
 */
module ExportExamples {
  import opened Wrappers
  import opened Lexical
  import opened Scanner
  import ExportPattern
  import Extract

  /** A text whose only export match is `m` yields the name that match selects. */
  lemma OneExport(s: string, m: Match)
    requires ExportPattern.MatchExport(s, m.start) == Some(m)
    requires NoMatchIn(ExportPattern.MatchExport, s, 0, m.start)
    requires NoMatchIn(ExportPattern.MatchExport, s, m.end, |s| + 1)
    ensures Extract.ExtractExports(s) == [Extract.LastPopulated(m.groups)]
  {
    Extract.ExportRecogniserAnchored();
    SingleMatch(ExportPattern.MatchExport, s, m);
  }

  /** A match of the export pattern starts with the letters `ex`. */
  lemma ExportStartsEx(s: string, q: nat)
    ensures ExportPattern.MatchExport(s, q).Some? ==> q + 6 <= |s| && s[q] == 'e' && s[q + 1] == 'x'
  {
    if ExportPattern.MatchExport(s, q).Some? {
      assert s[q..q + 6][0] == s[q] && s[q..q + 6][1] == s[q + 1];
    }
  }

  /** No export match starts where `ex` does not. */
  lemma NoExportFrom(s: string, from: nat)
    requires forall q :: from <= q && q + 6 <= |s| ==> s[q] != 'e' || s[q + 1] != 'x'
    ensures NoMatchIn(ExportPattern.MatchExport, s, from, |s| + 1)
  {
    forall q | from <= q <= |s|
      ensures ExportPattern.MatchExport(s, q).None?
    {
      ExportStartsEx(s, q);
    }
  }

  /** `export` and one space, then a character that is neither white space nor `d`: the head ends after the space. */
  lemma ExportHead(s: string)
    requires 7 < |s| && s[..7] == "export " && !InClass(s[7], Space) && s[7] != 'd'
    ensures ExportPattern.HeadEnd(s, 0) == Some(7)
  {
    assert s[..6] == s[..7][..6] && s[6] == s[..7][6];
    assert RunEnd(s, 7, Space) == 7;
    if Lit(s, 7, "default") {
      LitHead(s, 7, "default");
    }
  }

  /** `export default` and one space each, then a character that is not white space: the head ends there. */
  lemma ExportDefaultHead(s: string)
    requires 15 < |s| && s[..15] == "export default " && !InClass(s[15], Space)
    ensures ExportPattern.HeadEnd(s, 0) == Some(15)
  {
    assert s[..6] == s[..15][..6] && s[6] == s[..15][6];
    assert s[7..14] == s[..15][7..14] && s[14] == s[..15][14];
    assert RunEnd(s, 7, Space) == 7;
    assert RunEnd(s, 15, Space) == 15;
    assert RunEnd(s, 14, Space) == 15;
  }

  lemma DefaultFunctionBody(s: string)
    requires s == "export" + " " + "default" + " " + "function" + " " + "Foo" + "() {}"
    ensures ExportPattern.BodyEnd(s, 15) == Some((27, "function", "Foo"))
  {
    assert Lit(s, 15, "function");
    assert ExportPattern.KeywordEnd(s, 15) == Some(23);
    assert RunEnd(s, 23, Space) == 24;
    assert RunEnd(s, 27, Word) == 27 && RunEnd(s, 26, Word) == 27;
    assert RunEnd(s, 25, Word) == 27 && RunEnd(s, 24, Word) == 27;
    assert s[15..23] == "function" && s[24..27] == "Foo";
  }

  lemma DefaultFunctionAt(s: string)
    requires s == "export" + " " + "default" + " " + "function" + " " + "Foo" + "() {}"
    ensures ExportPattern.MatchExport(s, 0) == Some(Match(0, 27, [s[..27], s[15..27], "function", "Foo"]))
  {
    assert s[..15] == "export default " && s[15] == 'f';
    ExportDefaultHead(s);
    DefaultFunctionBody(s);
  }

  /** `export default function Foo() {}` yields `Foo`, taken from group 3. */
  lemma DefaultFunction(s: string)
    requires s == "export" + " " + "default" + " " + "function" + " " + "Foo" + "() {}"
    ensures Extract.ExtractExports(s) == ["Foo"]
  {
    DefaultFunctionAt(s);
    OneExport(s, Match(0, 27, [s[..27], s[15..27], "function", "Foo"]));
  }

  lemma PlainFunctionBody(s: string)
    requires s == "export" + " " + "function" + " " + "Foo" + "() {}"
    ensures ExportPattern.BodyEnd(s, 7) == Some((19, "function", "Foo"))
  {
    assert Lit(s, 7, "function");
    assert ExportPattern.KeywordEnd(s, 7) == Some(15);
    assert RunEnd(s, 15, Space) == 16;
    assert RunEnd(s, 19, Word) == 19 && RunEnd(s, 18, Word) == 19;
    assert RunEnd(s, 17, Word) == 19 && RunEnd(s, 16, Word) == 19;
    assert s[7..15] == "function" && s[16..19] == "Foo";
  }

  lemma PlainFunctionAt(s: string)
    requires s == "export" + " " + "function" + " " + "Foo" + "() {}"
    ensures ExportPattern.MatchExport(s, 0) == Some(Match(0, 19, [s[..19], s[7..19], "function", "Foo"]))
  {
    assert s[..7] == "export " && s[7] == 'f';
    ExportHead(s);
    PlainFunctionBody(s);
  }

  /** `export function Foo() {}` yields `Foo`. */
  lemma PlainFunction(s: string)
    requires s == "export" + " " + "function" + " " + "Foo" + "() {}"
    ensures Extract.ExtractExports(s) == ["Foo"]
  {
    PlainFunctionAt(s);
    OneExport(s, Match(0, 19, [s[..19], s[7..19], "function", "Foo"]));
  }

  lemma LowerCaseFunctionBody(s: string)
    requires s == "export" + " " + "function" + " " + "foo" + "() {}"
    ensures ExportPattern.BodyEnd(s, 7) == None
  {
    assert Lit(s, 7, "function");
    assert ExportPattern.KeywordEnd(s, 7) == Some(15);
    assert RunEnd(s, 15, Space) == 16;
    assert s[16] == 'f';
  }

  lemma LowerCaseFunctionAt(s: string)
    requires s == "export" + " " + "function" + " " + "foo" + "() {}"
    ensures ExportPattern.MatchExport(s, 0) == None
  {
    assert s[..7] == "export " && s[7] == 'f';
    ExportHead(s);
    LowerCaseFunctionBody(s);
  }

  lemma LowerCaseFunctionRest(s: string)
    requires s == "export" + " " + "function" + " " + "foo" + "() {}"
    ensures NoMatchIn(ExportPattern.MatchExport, s, 1, |s| + 1)
  {
    NoExportFrom(s, 1);
  }

  /** `export function foo() {}` yields nothing: group 3 needs an upper-case first letter. */
  lemma LowerCaseFunction(s: string)
    requires s == "export" + " " + "function" + " " + "foo" + "() {}"
    ensures Extract.ExtractExports(s) == []
  {
    LowerCaseFunctionAt(s);
    LowerCaseFunctionRest(s);
    Extract.ExportsEmptyIff(s);
  }

  lemma ConstArrowBody(s: string)
    requires s == "export" + " " + "const" + " " + "Foo" + " = () => {}"
    ensures ExportPattern.BodyEnd(s, 7) == Some((16, "const", "Foo"))
  {
    assert s[7] == 'c';
    assert Lit(s, 7, "const");
    assert ExportPattern.KeywordEnd(s, 7) == Some(12);
    assert RunEnd(s, 12, Space) == 13;
    assert RunEnd(s, 16, Word) == 16 && RunEnd(s, 15, Word) == 16;
    assert RunEnd(s, 14, Word) == 16 && RunEnd(s, 13, Word) == 16;
    assert s[7..12] == "const" && s[13..16] == "Foo";
  }

  lemma ConstArrowAt(s: string)
    requires s == "export" + " " + "const" + " " + "Foo" + " = () => {}"
    ensures ExportPattern.MatchExport(s, 0) == Some(Match(0, 16, [s[..16], s[7..16], "const", "Foo"]))
  {
    assert s[..7] == "export " && s[7] == 'c';
    ExportHead(s);
    ConstArrowBody(s);
  }

  lemma ConstArrowRest(s: string)
    requires s == "export" + " " + "const" + " " + "Foo" + " = () => {}"
    ensures NoMatchIn(ExportPattern.MatchExport, s, 16, |s| + 1)
  {
    NoExportFrom(s, 16);
  }

  /** `export const Foo = () => {}` yields `Foo`. */
  lemma ConstArrow(s: string)
    requires s == "export" + " " + "const" + " " + "Foo" + " = () => {}"
    ensures Extract.ExtractExports(s) == ["Foo"]
  {
    ConstArrowAt(s);
    ConstArrowRest(s);
    OneExport(s, Match(0, 16, [s[..16], s[7..16], "const", "Foo"]));
  }

  lemma DefaultNameBody(s: string)
    requires s == "export" + " " + "default" + " " + "Foo" + ";"
    ensures ExportPattern.BodyEnd(s, 15) == Some((18, "", ""))
  {
    assert RunEnd(s, 18, Word) == 18 && RunEnd(s, 17, Word) == 18 && RunEnd(s, 16, Word) == 18;
    assert s[15..18] == "Foo";
  }

  lemma DefaultNameAt(s: string)
    requires s == "export" + " " + "default" + " " + "Foo" + ";"
    ensures ExportPattern.MatchExport(s, 0) == Some(Match(0, 18, [s[..18], "Foo", "", ""]))
  {
    assert s[..15] == "export default " && s[15] == 'F';
    ExportDefaultHead(s);
    DefaultNameBody(s);
  }

  /** `export default Foo;` yields `Foo`, taken from group 1. */
  lemma DefaultName(s: string)
    requires s == "export" + " " + "default" + " " + "Foo" + ";"
    ensures Extract.ExtractExports(s) == ["Foo"]
  {
    DefaultNameAt(s);
    var g := [s[..18], "Foo", "", ""];
    OneExport(s, Match(0, 18, g));
    NameOnly(s[..18], "Foo");
  }

  /** A vector whose only non-empty entries are the whole match and the first group names that group. */
  lemma NameOnly(whole: string, name: string)
    requires name != ""
    ensures Extract.LastPopulated([whole, name, "", ""]) == name
  {
    var g := [whole, name, "", ""];
    assert g[..3] == [whole, name, ""];
    assert g[..3][..2] == [whole, name];
    assert Extract.LastPopulated(g[..3][..2]) == name;
    assert Extract.LastPopulated(g[..3]) == name;
  }

  lemma ClassDeclarationBody(s: string)
    requires s == "export" + " " + "class" + " " + "Foo" + " {}"
    ensures ExportPattern.KeywordEnd(s, 7) == None
  {
    assert s[7] == 'c' && s[8] == 'l';
  }

  lemma ClassDeclarationAt(s: string)
    requires s == "export" + " " + "class" + " " + "Foo" + " {}"
    ensures ExportPattern.MatchExport(s, 0) == None
  {
    assert s[..7] == "export " && s[7] == 'c';
    ExportHead(s);
    ClassDeclarationBody(s);
  }

  lemma ClassDeclarationRest(s: string)
    requires s == "export" + " " + "class" + " " + "Foo" + " {}"
    ensures NoMatchIn(ExportPattern.MatchExport, s, 1, |s| + 1)
  {
    NoExportFrom(s, 1);
  }

  /** `export class Foo {}` yields nothing: `class` is not one of the keywords of group 2. */
  lemma ClassDeclaration(s: string)
    requires s == "export" + " " + "class" + " " + "Foo" + " {}"
    ensures Extract.ExtractExports(s) == []
  {
    ClassDeclarationAt(s);
    ClassDeclarationRest(s);
    Extract.ExportsEmptyIff(s);
  }

  lemma LetDeclarationBody(s: string)
    requires s == "export" + " " + "let" + " " + "Foo" + " = 1"
    ensures ExportPattern.KeywordEnd(s, 7) == None
  {
    assert s[7] == 'l';
  }

  lemma LetDeclarationAt(s: string)
    requires s == "export" + " " + "let" + " " + "Foo" + " = 1"
    ensures ExportPattern.MatchExport(s, 0) == None
  {
    assert s[..7] == "export " && s[7] == 'l';
    ExportHead(s);
    LetDeclarationBody(s);
  }

  lemma LetDeclarationRest(s: string)
    requires s == "export" + " " + "let" + " " + "Foo" + " = 1"
    ensures NoMatchIn(ExportPattern.MatchExport, s, 1, |s| + 1)
  {
    NoExportFrom(s, 1);
  }

  /** `export let Foo = 1` yields nothing. */
  lemma LetDeclaration(s: string)
    requires s == "export" + " " + "let" + " " + "Foo" + " = 1"
    ensures Extract.ExtractExports(s) == []
  {
    LetDeclarationAt(s);
    LetDeclarationRest(s);
    Extract.ExportsEmptyIff(s);
  }
}
