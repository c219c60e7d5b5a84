/**
 * The import pattern on whole statements: which import declarations yield a
 * component name and which yield nothing. Each text is written as a
 * concatenation of its tokens. The lemmas take the text as a parameter equal
 * to that concatenation rather than as a literal in the `ensures`, because a
 * literal makes the verifier unfold the recursive recogniser steps without
 * bound.
 */
module ImportExamples {
  import opened Wrappers
  import opened Lexical
  import opened Scanner
  import ImportPattern
  import Extract

  /** A text whose only import match is `m` yields the name in its group 1. */
  lemma OneImport(s: string, m: Match)
    requires ImportPattern.MatchImport(s, m.start) == Some(m)
    requires NoMatchIn(ImportPattern.MatchImport, s, 0, m.start)
    requires NoMatchIn(ImportPattern.MatchImport, s, m.end, |s| + 1)
    ensures Extract.ExtractImports(s) == [m.groups[1]]
  {
    Extract.ImportRecogniserAnchored();
    SingleMatch(ImportPattern.MatchImport, s, m);
  }

  /** A match of the import pattern starts with the letters `im`. */
  lemma ImportStartsIm(s: string, q: nat)
    ensures ImportPattern.MatchImport(s, q).Some? ==> q + 6 <= |s| && s[q] == 'i' && s[q + 1] == 'm'
  {
    if ImportPattern.MatchImport(s, q).Some? {
      assert s[q..q + 6][0] == s[q] && s[q..q + 6][1] == s[q + 1];
    }
  }

  /** No import match starts where `im` does not. */
  lemma NoImportFrom(s: string, from: nat)
    requires forall q :: from <= q && q + 6 <= |s| ==> s[q] != 'i' || s[q + 1] != 'm'
    ensures NoMatchIn(ImportPattern.MatchImport, s, from, |s| + 1)
  {
    forall q | from <= q <= |s|
      ensures ImportPattern.MatchImport(s, q).None?
    {
      ImportStartsIm(s, q);
    }
  }

  // `import Widget from "`, the start the relative and the alias example share.

  lemma WidgetHead(s: string)
    requires 20 < |s| && s[..20] == "import Widget from \""
    ensures ImportPattern.HeadEnd(s, 0) == Some(7) && ImportPattern.NameEnd(s, 7) == Some(13)
    ensures s[7..13] == "Widget"
  {
    assert s[..6] == s[..20][..6] && s[6] == s[..20][6];
    assert s[7..13] == s[..20][7..13] && s[13] == s[..20][13];
    assert RunEnd(s, 7, Space) == 7;
    assert RunEnd(s, 6, Space) == 7;
    RunEndUnique(s, 7, 13, Word);
  }

  lemma WidgetTail(s: string)
    requires 20 < |s| && s[..20] == "import Widget from \""
    ensures ImportPattern.TailEnd(s, 13) == Some(19)
  {
    assert s[13] == s[..20][13] && s[14..18] == s[..20][14..18];
    assert s[18] == s[..20][18] && s[19] == s[..20][19];
    assert RunEnd(s, 14, Space) == 14;
    assert RunEnd(s, 13, Space) == 14;
    assert RunEnd(s, 19, Space) == 19;
    assert RunEnd(s, 18, Space) == 19;
  }

  // The specifier of `import Widget from "./components/Widget"`.

  lemma RelativePath(s: string)
    requires s == "import" + " " + "Widget" + " " + "from" + " " + "\"" + "./components/Widget" + "\""
    ensures RunEnd(s, 21, PathChar) == 39
  {
    RunEndUnique(s, 21, 39, PathChar);
  }

  lemma RelativeQuoted(s: string)
    requires s == "import" + " " + "Widget" + " " + "from" + " " + "\"" + "./components/Widget" + "\""
    ensures ImportPattern.SpecifierEnd(s, 19) == Some((21, 40))
  {
    RelativePath(s);
    assert Lit(s, 19, "\"");
    assert s[20] == '.' && s[21] == '/';
    assert RunEnd(s, 21, Dot) == 21;
    assert RunEnd(s, 20, Dot) == 21;
    assert Lit(s, 39, "\"");
  }

  /** `import Widget from "./components/Widget"` yields `Widget`. */
  lemma RelativeSpecifier(s: string)
    requires s == "import" + " " + "Widget" + " " + "from" + " " + "\"" + "./components/Widget" + "\""
    ensures Extract.ExtractImports(s) == ["Widget"]
  {
    assert s[..20] == "import Widget from \"";
    WidgetHead(s);
    WidgetTail(s);
    RelativeQuoted(s);
    ImportPattern.MatchImportOfSteps(s, 0, 7, 13, 19, 21, 40);
    var m := Match(0, 40, [s[..40], s[7..13], s[20..21]]);
    OneImport(s, m);
  }

  // The specifier of `import Widget from "@/components/Widget"`.

  lemma AliasPath(s: string)
    requires s == "import" + " " + "Widget" + " " + "from" + " " + "\"" + "@/components/Widget" + "\""
    ensures RunEnd(s, 22, PathChar) == 39
  {
    RunEndUnique(s, 22, 39, PathChar);
  }

  lemma AliasQuoted(s: string)
    requires s == "import" + " " + "Widget" + " " + "from" + " " + "\"" + "@/components/Widget" + "\""
    ensures ImportPattern.SpecifierEnd(s, 19) == Some((22, 40))
  {
    AliasPath(s);
    assert Lit(s, 19, "\"");
    assert s[20] == '@' && s[21] == '/';
    assert s[20..22] == "@/";
    assert Lit(s, 39, "\"");
  }

  /** `import Widget from "@/components/Widget"` yields `Widget`. */
  lemma AliasSpecifier(s: string)
    requires s == "import" + " " + "Widget" + " " + "from" + " " + "\"" + "@/components/Widget" + "\""
    ensures Extract.ExtractImports(s) == ["Widget"]
  {
    assert s[..20] == "import Widget from \"";
    WidgetHead(s);
    WidgetTail(s);
    AliasQuoted(s);
    ImportPattern.MatchImportOfSteps(s, 0, 7, 13, 19, 22, 40);
    var m := Match(0, 40, [s[..40], s[7..13], s[20..22]]);
    OneImport(s, m);
  }

  /** `import { ` before a character that is not white space: the head, brace included, ends there. */
  lemma OpenBrace(s: string)
    requires 9 < |s| && s[..9] == "import { " && !InClass(s[9], Space)
    ensures ImportPattern.HeadEnd(s, 0) == Some(9)
  {
    assert s[..6] == s[..9][..6] && s[6] == s[..9][6];
    assert s[7] == s[..9][7] && s[8] == s[..9][8];
    assert Lit(s, 7, "{");
    assert RunEnd(s, 7, Space) == 7;
    assert RunEnd(s, 6, Space) == 7;
    assert RunEnd(s, 9, Space) == 9;
    assert RunEnd(s, 8, Space) == 9;
  }

  // The steps of `import { Widget } from "./W"`: head and name, tail, specifier.

  lemma BracedHead(s: string)
    requires s == "import" + " " + "{" + " " + "Widget" + " " + "}" + " " + "from" + " " + "\"" + "./W" + "\""
    ensures ImportPattern.HeadEnd(s, 0) == Some(9) && ImportPattern.NameEnd(s, 9) == Some(15)
    ensures s[9..15] == "Widget"
  {
    assert s[..9] == "import { " && s[9] == 'W';
    OpenBrace(s);
    RunEndUnique(s, 9, 15, Word);
  }

  lemma BracedTail(s: string)
    requires s == "import" + " " + "{" + " " + "Widget" + " " + "}" + " " + "from" + " " + "\"" + "./W" + "\""
    ensures ImportPattern.TailEnd(s, 15) == Some(23)
  {
    assert RunEnd(s, 16, Space) == 16;
    assert RunEnd(s, 15, Space) == 16;
    assert s[16] == '}';
    assert RunEnd(s, 18, Space) == 18;
    assert RunEnd(s, 17, Space) == 18;
    assert Lit(s, 18, "from");
    assert RunEnd(s, 23, Space) == 23;
    assert RunEnd(s, 22, Space) == 23;
  }

  lemma BracedQuoted(s: string)
    requires s == "import" + " " + "{" + " " + "Widget" + " " + "}" + " " + "from" + " " + "\"" + "./W" + "\""
    ensures ImportPattern.SpecifierEnd(s, 23) == Some((25, 28))
  {
    assert Lit(s, 23, "\"");
    assert s[24] == '.' && s[25] == '/';
    assert RunEnd(s, 25, Dot) == 25;
    assert RunEnd(s, 24, Dot) == 25;
    assert RunEnd(s, 27, PathChar) == 27;
    assert RunEnd(s, 26, PathChar) == 27;
    assert RunEnd(s, 25, PathChar) == 27;
    assert Lit(s, 27, "\"");
  }

  /** `import { Widget } from "./W"` yields `Widget`. */
  lemma BracedName(s: string)
    requires s == "import" + " " + "{" + " " + "Widget" + " " + "}" + " " + "from" + " " + "\"" + "./W" + "\""
    ensures Extract.ExtractImports(s) == ["Widget"]
  {
    BracedHead(s);
    BracedTail(s);
    BracedQuoted(s);
    ImportPattern.MatchImportOfSteps(s, 0, 9, 15, 23, 25, 28);
    var m := Match(0, 28, [s[..28], s[9..15], s[24..25]]);
    OneImport(s, m);
  }

  // The steps of `import React from "react"`: head and name, tail, specifier.

  lemma PackageHead(s: string)
    requires s == "import" + " " + "React" + " " + "from" + " " + "\"" + "react" + "\""
    ensures ImportPattern.HeadEnd(s, 0) == Some(7) && ImportPattern.NameEnd(s, 7) == Some(12)
  {
    assert Lit(s, 0, "import");
    assert RunEnd(s, 7, Space) == 7;
    assert RunEnd(s, 6, Space) == 7;
    assert s[7] == 'R';
    RunEndUnique(s, 7, 12, Word);
  }

  lemma PackageTail(s: string)
    requires s == "import" + " " + "React" + " " + "from" + " " + "\"" + "react" + "\""
    ensures ImportPattern.TailEnd(s, 12) == Some(18)
  {
    assert RunEnd(s, 13, Space) == 13;
    assert RunEnd(s, 12, Space) == 13;
    assert s[13] == 'f';
    assert Lit(s, 13, "from");
    assert RunEnd(s, 18, Space) == 18;
    assert RunEnd(s, 17, Space) == 18;
  }

  lemma PackageQuoted(s: string)
    requires s == "import" + " " + "React" + " " + "from" + " " + "\"" + "react" + "\""
    ensures ImportPattern.SpecifierEnd(s, 18) == None
  {
    assert s[18] == '"' && s[19] == 'r';
    assert RunEnd(s, 19, Dot) == 19;
  }

  /** `import React from "react"` yields nothing: the specifier starts with neither `@/` nor `.`. */
  lemma PackageSpecifier(s: string)
    requires s == "import" + " " + "React" + " " + "from" + " " + "\"" + "react" + "\""
    ensures Extract.ExtractImports(s) == []
  {
    PackageAt(s);
    PackageRest(s);
    Extract.ImportsEmptyIff(s);
  }

  lemma PackageAt(s: string)
    requires s == "import" + " " + "React" + " " + "from" + " " + "\"" + "react" + "\""
    ensures ImportPattern.MatchImport(s, 0) == None
  {
    PackageHead(s);
    PackageTail(s);
    PackageQuoted(s);
  }

  lemma PackageRest(s: string)
    requires s == "import" + " " + "React" + " " + "from" + " " + "\"" + "react" + "\""
    ensures NoMatchIn(ImportPattern.MatchImport, s, 1, |s| + 1)
  {
    NoImportFrom(s, 1);
  }

  // The steps of `import Foo from "./Foo"`: head and name, tail, specifier.

  lemma SiblingHead(s: string)
    requires s == "import" + " " + "Foo" + " " + "from" + " " + "\"" + "./Foo" + "\""
    ensures ImportPattern.HeadEnd(s, 0) == Some(7) && ImportPattern.NameEnd(s, 7) == Some(10)
    ensures s[7..10] == "Foo"
  {
    assert Lit(s, 0, "import");
    assert RunEnd(s, 7, Space) == 7;
    assert RunEnd(s, 6, Space) == 7;
    assert s[7] == 'F';
    RunEndUnique(s, 7, 10, Word);
  }

  lemma SiblingTail(s: string)
    requires s == "import" + " " + "Foo" + " " + "from" + " " + "\"" + "./Foo" + "\""
    ensures ImportPattern.TailEnd(s, 10) == Some(16)
  {
    assert RunEnd(s, 11, Space) == 11;
    assert RunEnd(s, 10, Space) == 11;
    assert s[11] == 'f';
    assert Lit(s, 11, "from");
    assert RunEnd(s, 16, Space) == 16;
    assert RunEnd(s, 15, Space) == 16;
  }

  lemma SiblingQuoted(s: string)
    requires s == "import" + " " + "Foo" + " " + "from" + " " + "\"" + "./Foo" + "\""
    ensures ImportPattern.SpecifierEnd(s, 16) == Some((18, 23))
  {
    assert Lit(s, 16, "\"");
    assert s[17] == '.' && s[18] == '/';
    assert RunEnd(s, 18, Dot) == 18;
    assert RunEnd(s, 17, Dot) == 18;
    RunEndUnique(s, 18, 22, PathChar);
    assert Lit(s, 22, "\"");
  }

  /** `import Foo from "./Foo"` yields `Foo`. */
  lemma SiblingModule(s: string)
    requires s == "import" + " " + "Foo" + " " + "from" + " " + "\"" + "./Foo" + "\""
    ensures Extract.ExtractImports(s) == ["Foo"]
  {
    SiblingHead(s);
    SiblingTail(s);
    SiblingQuoted(s);
    ImportPattern.MatchImportOfSteps(s, 0, 7, 10, 16, 18, 23);
    var m := Match(0, 23, [s[..23], s[7..10], s[17..18]]);
    OneImport(s, m);
  }

  // The steps of `import { Alpha, Beta } from "./x"`: head and name, tail.

  lemma ListHead(s: string)
    requires s == "import" + " " + "{" + " " + "Alpha" + "," + " " + "Beta" + " " + "}" + " " + "from" + " " + "\"" + "./x" + "\""
    ensures ImportPattern.HeadEnd(s, 0) == Some(9) && ImportPattern.NameEnd(s, 9) == Some(14)
  {
    assert s[..9] == "import { " && s[9] == 'A';
    OpenBrace(s);
    RunEndUnique(s, 9, 14, Word);
  }

  lemma ListTail(s: string)
    requires s == "import" + " " + "{" + " " + "Alpha" + "," + " " + "Beta" + " " + "}" + " " + "from" + " " + "\"" + "./x" + "\""
    ensures ImportPattern.TailEnd(s, 14) == None
  {
    assert s[14] == ',';
    assert RunEnd(s, 14, Space) == 14;
  }

  lemma ListAt(s: string)
    requires s == "import" + " " + "{" + " " + "Alpha" + "," + " " + "Beta" + " " + "}" + " " + "from" + " " + "\"" + "./x" + "\""
    ensures ImportPattern.MatchImport(s, 0) == None
  {
    ListHead(s);
    ListTail(s);
  }

  lemma ListRest(s: string)
    requires s == "import" + " " + "{" + " " + "Alpha" + "," + " " + "Beta" + " " + "}" + " " + "from" + " " + "\"" + "./x" + "\""
    ensures NoMatchIn(ImportPattern.MatchImport, s, 1, |s| + 1)
  {
    NoImportFrom(s, 1);
  }

  /**
   * `import { Alpha, Beta } from "./x"` yields nothing: after the first name
   * the pattern needs white space, and a comma follows.
   */
  lemma BracedList(s: string)
    requires s == "import" + " " + "{" + " " + "Alpha" + "," + " " + "Beta" + " " + "}" + " " + "from" + " " + "\"" + "./x" + "\""
    ensures Extract.ExtractImports(s) == []
  {
    ListAt(s);
    ListRest(s);
    Extract.ImportsEmptyIff(s);
  }
}
