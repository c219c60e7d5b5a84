/**
 * `mapExportedComponents` and `mapImportedComponents` of main.go: run an
 * extractor over every file and collect the non-empty results in a map from
 * path to names. A file that cannot be read is reported and skipped; a file
 * without names is left out of the map.
 */
module Aggregate {
  import opened Wrappers
  import opened Locator
  import Extract

  /** The error `os.ReadFile` returns; its content is never inspected. */
  datatype ReadError = ReadError(reason: string)

  /** One file and what its extractor returned for it. */
  datatype FileResult = FileResult(path: string, result: Result<seq<string>, ReadError>)

  /** The aggregator stores this result: it is a success with at least one name. */
  predicate Recorded(e: FileResult) {
    e.result.Success? && |e.result.value| > 0
  }

  /**
   * The loop of both aggregators: each recorded result is stored under its
   * path, later ones overwriting earlier ones.
   */
  function ComponentMap(entries: seq<FileResult>): (m: map<string, seq<string>>)
    ensures forall p :: p in m <==> exists k :: 0 <= k < |entries| && entries[k].path == p && Recorded(entries[k])
    ensures forall p :: p in m ==> |m[p]| > 0
  {
    if |entries| == 0 then map[]
    else
      var m := ComponentMap(entries[..|entries| - 1]);
      var e := entries[|entries| - 1];
      assert forall k :: 0 <= k < |entries| - 1 ==> entries[..|entries| - 1][k] == entries[k];
      if Recorded(e) then m[e.path := e.result.value] else m
  }

  /** The aggregation loop, statement by statement. */
  method MapComponents(entries: seq<FileResult>) returns (m: map<string, seq<string>>)
    ensures m == ComponentMap(entries)
  {
    m := map[];
    var i := 0;
    while i < |entries|
      invariant i <= |entries|
      invariant m == ComponentMap(entries[..i])
    {
      assert entries[..i + 1][..i] == entries[..i];
      var e := entries[i];
      if e.result.Failure? {
        // reported to the console and skipped
      } else if |e.result.value| == 0 {
        // nothing to record
      } else {
        m := m[e.path := e.result.value];
      }
      i := i + 1;
    }
    assert entries[..|entries|] == entries;
  }

  /** The value stored under a path is the result of the last entry recorded for it. */
  lemma {:induction false} LastRecordedWins(entries: seq<FileResult>, p: string)
    requires p in ComponentMap(entries)
    ensures exists k :: && 0 <= k < |entries| && entries[k].path == p && Recorded(entries[k])
                        && ComponentMap(entries)[p] == entries[k].result.value
                        && forall l :: k < l < |entries| && entries[l].path == p ==> !Recorded(entries[l])
  {
    var n := |entries| - 1;
    var e := entries[n];
    var init := entries[..n];
    if Recorded(e) && e.path == p {
      assert ComponentMap(entries)[p] == e.result.value;
    } else {
      assert ComponentMap(entries)[p] == ComponentMap(init)[p];
      LastRecordedWins(init, p);
      var k :| && 0 <= k < |init| && init[k].path == p && Recorded(init[k])
               && ComponentMap(init)[p] == init[k].result.value
               && forall l :: k < l < |init| && init[l].path == p ==> !Recorded(init[l]);
      assert entries[k] == init[k];
      forall l | k < l < |entries| && entries[l].path == p
        ensures !Recorded(entries[l])
      {
        if l < n {
          assert entries[l] == init[l];
        }
      }
    }
  }

  /** All paths distinct. */
  ghost predicate DistinctPaths(entries: seq<FileResult>) {
    forall k, l :: 0 <= k < l < |entries| ==> entries[k].path != entries[l].path
  }

  /** With distinct paths, every recorded result is stored unchanged under its path. */
  lemma RecordedStoredUnchanged(entries: seq<FileResult>, k: nat)
    requires DistinctPaths(entries)
    requires k < |entries| && Recorded(entries[k])
    ensures entries[k].path in ComponentMap(entries)
    ensures ComponentMap(entries)[entries[k].path] == entries[k].result.value
  {
    var p := entries[k].path;
    LastRecordedWins(entries, p);
    var j :| && 0 <= j < |entries| && entries[j].path == p && Recorded(entries[j])
             && ComponentMap(entries)[p] == entries[j].result.value
             && forall l :: j < l < |entries| && entries[l].path == p ==> !Recorded(entries[l]);
    assert j == k;
  }

  /**
   * An entry that is not recorded (a read failure or an empty result) has no
   * effect on the map, wherever it stands among the others.
   */
  lemma {:induction false} SkippedEntryInvisible(a: seq<FileResult>, e: FileResult, b: seq<FileResult>)
    requires !Recorded(e)
    ensures ComponentMap(a + [e] + b) == ComponentMap(a + b)
    decreases |b|
  {
    if |b| == 0 {
      assert a + [e] + b == a + [e];
      assert (a + [e])[..|a|] == a;
      assert a + b == a;
    } else {
      var b' := b[..|b| - 1];
      var x := b[|b| - 1];
      assert a + [e] + b == (a + [e] + b') + [x];
      assert (a + [e] + b' + [x])[..|a + [e] + b'|] == a + [e] + b';
      assert a + b == (a + b') + [x];
      assert (a + b' + [x])[..|a + b'|] == a + b';
      SkippedEntryInvisible(a, e, b');
    }
  }

  // ---------------------------------------------------------------------
  // The two aggregators over files and a reader.
  // ---------------------------------------------------------------------

  /** Which map to build. */
  datatype Mode = ExportMode | ImportMode

  /**
   * extractExports or extractImports on one path: a read failure is passed
   * on, otherwise the names extracted from the text.
   */
  function ExtractFile(mode: Mode, read: string -> Result<string, ReadError>, path: string): (r: Result<seq<string>, ReadError>)
    ensures read(path).Failure? <==> r.Failure?
  {
    match read(path)
    case Failure(err) => Failure(err)
    case Success(text) =>
      match mode
      case ExportMode => Success(Extract.ExtractExports(text))
      case ImportMode => Success(Extract.ExtractImports(text))
  }

  /** The extractor applied to every file in order. */
  function ResultsOf(mode: Mode, read: string -> Result<string, ReadError>, files: seq<string>): (rs: seq<FileResult>)
    ensures |rs| == |files|
    ensures forall k :: 0 <= k < |files| ==> rs[k] == FileResult(files[k], ExtractFile(mode, read, files[k]))
  {
    seq(|files|, k requires 0 <= k < |files| => FileResult(files[k], ExtractFile(mode, read, files[k])))
  }

  /**
   * mapExportedComponents (mode ExportMode) and mapImportedComponents (mode
   * ImportMode): a path is a key exactly when it is one of the files, it can
   * be read, and its text yields at least one name; its value is those names.
   */
  function MapFiles(mode: Mode, read: string -> Result<string, ReadError>, files: seq<string>): (m: map<string, seq<string>>)
    ensures forall p :: p in m <==> p in files && ExtractFile(mode, read, p).Success?
                                               && |ExtractFile(mode, read, p).value| > 0
    ensures forall p :: p in m ==> m[p] == ExtractFile(mode, read, p).value
  {
    var rs := ResultsOf(mode, read, files);
    forall p | p in ComponentMap(rs)
      ensures p in files && ComponentMap(rs)[p] == ExtractFile(mode, read, p).value
    {
      LastRecordedWins(rs, p);
    }
    forall p | p in files && ExtractFile(mode, read, p).Success? && |ExtractFile(mode, read, p).value| > 0
      ensures p in ComponentMap(rs)
    {
      var k :| 0 <= k < |files| && files[k] == p;
      assert Recorded(rs[k]);
    }
    ComponentMap(rs)
  }

  /**
   * The engine behind main: find the files, then build the map the mode
   * selects. A failed walk fails the whole run; otherwise a path is a key
   * exactly when the walk visited it as a candidate file, it can be read and
   * it yields names, and its value is those names.
   */
  function Run(mode: Mode, events: seq<WalkEvent>, read: string -> Result<string, ReadError>): (r: Result<map<string, seq<string>>, string>)
    ensures r.Failure? <==> WalkFails(events)
    ensures r.Success? ==> forall p :: p in r.value <==>
                                         Visit(p, false) in events && IsCandidate(p)
                                         && ExtractFile(mode, read, p).Success?
                                         && |ExtractFile(mode, read, p).value| > 0
    ensures r.Success? ==> forall p :: p in r.value ==> r.value[p] == ExtractFile(mode, read, p).value
  {
    match FindFiles(events)
    case Failure(err) => Failure(err)
    case Success(files) => Success(MapFiles(mode, read, files))
  }
}
