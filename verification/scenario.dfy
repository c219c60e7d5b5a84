/**
 * The program as a whole on small inputs: the extension filter on single
 * paths, the aggregation policy on per-file results, and one run over a
 * directory holding a component and a file that imports it.
 */
module Scenario {
  import opened Wrappers
  import opened Locator
  import opened Aggregate
  import Extract
  import ExportExamples
  import ImportExamples

  /** `filepath.Ext` takes the last dot, so `a.test.js` is a candidate. */
  lemma DoubleExtension()
    ensures Ext("a.test.js") == ".js" && IsCandidate("a.test.js")
  {
    var s := "a.test.js";
    assert s[6..] == ".js";
    ExtUnique(s, ".js");
  }

  /** Extensions that merely resemble the accepted ones are rejected. */
  lemma LookalikeExtensions()
    ensures !IsCandidate("App.jsx") && !IsCandidate("x.ts") && !IsCandidate("m.mjs")
  {
    var a := "App.jsx";
    assert a[4..][0] == 'j' && a[3..][1] == 'j';
    var b := "x.ts";
    assert b[1..][2] == 's' && b[0..][0] == 'x';
    var c := "m.mjs";
    assert c[2..][0] == 'm' && c[1..][1] == 'm';
  }

  /** A file whose extractor returns no names is left out of the map. */
  lemma EmptyResultOmitted()
    ensures ComponentMap([FileResult("A.tsx", Success(["A"])), FileResult("B.tsx", Success([]))])
            == map["A.tsx" := ["A"]]
  {
    var e := [FileResult("A.tsx", Success(["A"])), FileResult("B.tsx", Success([]))];
    assert e[..1] == [e[0]];
    assert e[..1][..0] == [];
  }

  /** A file that cannot be read does not keep the next file out of the map. */
  lemma ReadFailureSkipped()
    ensures ComponentMap([FileResult("A.tsx", Failure(ReadError("permission denied"))), FileResult("B.tsx", Success(["B"]))])
            == map["B.tsx" := ["B"]]
  {
    var e := [FileResult("A.tsx", Failure(ReadError("permission denied"))), FileResult("B.tsx", Success(["B"]))];
    assert e[..1] == [e[0]];
    assert e[..1][..0] == [];
  }

  /**
   * The walk of a directory `root` holding `Foo.tsx` and `Bar.js`, in the
   * lexical order `filepath.Walk` visits a directory's entries.
   */
  function Walk(): seq<WalkEvent> {
    [Visit("root", true), Visit("root/Bar.js", false), Visit("root/Foo.tsx", false)]
  }

  /** The contents of the two files; any other path cannot be read. */
  function Contents(path: string): Result<string, ReadError> {
    if path == "root/Foo.tsx" then
      Success("export" + " " + "default" + " " + "function" + " " + "Foo" + "() {}")
    else if path == "root/Bar.js" then
      Success("import" + " " + "Foo" + " " + "from" + " " + "\"" + "./Foo" + "\"")
    else
      Failure(ReadError("no such file"))
  }

  /** The walk finds both files, in walk order, and skips the directory. */
  lemma WalkFindsBoth()
    ensures FindFiles(Walk()) == Success(["root/Bar.js", "root/Foo.tsx"])
  {
    var foo := "root/Foo.tsx";
    var bar := "root/Bar.js";
    assert foo[8..] == ".tsx";
    assert IsCandidate(foo);
    assert bar[8..] == ".js";
    assert IsCandidate(bar);
    var w := Walk();
    assert w[1..][1..][1..] == [];
    assert FindFiles(w[1..][1..][1..]) == Success([]);
    assert w[1..][1..] == [Visit(foo, false)];
    assert [foo] + [] == [foo];
    assert FindFiles(w[1..][1..]) == Success([foo]);
    assert w[1..] == [Visit(bar, false), Visit(foo, false)];
    assert [bar] + [foo] == [bar, foo];
    assert FindFiles(w[1..]) == Success([bar, foo]);
    assert [] + [bar, foo] == [bar, foo];
  }

  /** The component file holds no import. */
  lemma ComponentImportsNothing()
    ensures Extract.ExtractImports(Contents("root/Foo.tsx").value) == []
  {
    var foo := "export" + " " + "default" + " " + "function" + " " + "Foo" + "() {}";
    assert Contents("root/Foo.tsx").value == foo;
    ImportExamples.NoImportFrom(foo, 0);
    Extract.ImportsEmptyIff(foo);
  }

  /** The importing file holds no export. */
  lemma ImporterExportsNothing()
    ensures Extract.ExtractExports(Contents("root/Bar.js").value) == []
  {
    var bar := "import" + " " + "Foo" + " " + "from" + " " + "\"" + "./Foo" + "\"";
    assert Contents("root/Bar.js").value == bar;
    ExportExamples.NoExportFrom(bar, 0);
    Extract.ExportsEmptyIff(bar);
  }

  /** What each extractor returns for each of the two files. */
  lemma FileResults()
    ensures ExtractFile(ExportMode, Contents, "root/Foo.tsx") == Success(["Foo"])
    ensures ExtractFile(ExportMode, Contents, "root/Bar.js") == Success([])
    ensures ExtractFile(ImportMode, Contents, "root/Foo.tsx") == Success([])
    ensures ExtractFile(ImportMode, Contents, "root/Bar.js") == Success(["Foo"])
  {
    ExportExamples.DefaultFunction(Contents("root/Foo.tsx").value);
    ImporterExportsNothing();
    ComponentImportsNothing();
    ImportExamples.SiblingModule(Contents("root/Bar.js").value);
  }

  /** A file with names followed by a file without: only the first is mapped. */
  lemma NamesThenNone(a: string, b: string, names: seq<string>)
    requires |names| > 0
    ensures ComponentMap([FileResult(a, Success(names)), FileResult(b, Success([]))]) == map[a := names]
  {
    var rs := [FileResult(a, Success(names)), FileResult(b, Success([]))];
    assert rs[..1] == [rs[0]];
    assert rs[..1][..0] == [];
  }

  /** A file without names followed by a file with: only the second is mapped. */
  lemma NoneThenNames(a: string, b: string, names: seq<string>)
    requires |names| > 0
    ensures ComponentMap([FileResult(b, Success([])), FileResult(a, Success(names))]) == map[a := names]
  {
    var rs := [FileResult(b, Success([])), FileResult(a, Success(names))];
    assert rs[..1] == [rs[0]];
    assert rs[..1][..0] == [];
  }

  /** The map of a list of files is the map of their results. */
  lemma MapOfResults(mode: Mode, read: string -> Result<string, ReadError>, files: seq<string>)
    ensures MapFiles(mode, read, files) == ComponentMap(ResultsOf(mode, read, files))
  {
  }

  /** The results of two files, in order. */
  lemma ResultsOfTwo(mode: Mode, read: string -> Result<string, ReadError>, a: string, b: string)
    ensures ResultsOf(mode, read, [a, b]) == [FileResult(a, ExtractFile(mode, read, a)), FileResult(b, ExtractFile(mode, read, b))]
  {
    var files := [a, b];
    var rs := ResultsOf(mode, read, files);
    assert rs[0] == FileResult(files[0], ExtractFile(mode, read, files[0]));
    assert rs[1] == FileResult(files[1], ExtractFile(mode, read, files[1]));
  }

  /** Export mode over the directory maps the component file to `Foo`. */
  lemma ExportRun()
    ensures Run(ExportMode, Walk(), Contents) == Success(map["root/Foo.tsx" := ["Foo"]])
  {
    WalkFindsBoth();
    FileResults();
    MapOfResults(ExportMode, Contents, ["root/Bar.js", "root/Foo.tsx"]);
    ResultsOfTwo(ExportMode, Contents, "root/Bar.js", "root/Foo.tsx");
    NoneThenNames("root/Foo.tsx", "root/Bar.js", ["Foo"]);
  }

  /** Import mode over the directory maps the importing file to `Foo`. */
  lemma ImportRun()
    ensures Run(ImportMode, Walk(), Contents) == Success(map["root/Bar.js" := ["Foo"]])
  {
    WalkFindsBoth();
    FileResults();
    MapOfResults(ImportMode, Contents, ["root/Bar.js", "root/Foo.tsx"]);
    ResultsOfTwo(ImportMode, Contents, "root/Bar.js", "root/Foo.tsx");
    NamesThenNone("root/Bar.js", "root/Foo.tsx", ["Foo"]);
  }
}
