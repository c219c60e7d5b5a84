/**
 * `findFiles` of main.go: walk a directory tree and keep the files whose
 * extension, as Go's `filepath.Ext` computes it, is `.tsx` or `.js`.
 * The walk itself is file-system I/O; it is given here as the sequence of
 * events it produces.
 */
module Locator {
  import opened Wrappers

  /** `x` is a suffix of `s`. */
  predicate EndsWith(s: string, x: string) {
    |x| <= |s| && s[|s| - |x|..] == x
  }

  /**
   * What `filepath.Ext` promises: either the empty string, when no `.` follows
   * the last `/`, or the suffix that starts at the last `.` of the final
   * path element.
   */
  ghost predicate IsExtension(path: string, e: string) {
    if e == "" then
      forall k :: 0 <= k < |path| && path[k] == '.' ==> '/' in path[k + 1..]
    else
      && e[0] == '.'
      && EndsWith(path, e)
      && forall k :: 1 <= k < |e| ==> e[k] != '.' && e[k] != '/'
  }

  /** The loop of `filepath.Ext`, scanning backwards from position `i`. */
  function ExtFrom(path: string, i: nat): (e: string)
    requires i <= |path|
    requires forall k :: i <= k < |path| ==> path[k] != '.' && path[k] != '/'
    ensures IsExtension(path, e)
  {
    if i == 0 then ""
    else if path[i - 1] == '/' then
      assert forall k :: 0 <= k < i - 1 && path[k] == '.' ==> path[k + 1..][i - 2 - k] == '/';
      ""
    else if path[i - 1] == '.' then path[i - 1..]
    else ExtFrom(path, i - 1)
  }

  /** Go's `filepath.Ext` with `/` as the path separator. */
  function Ext(path: string): (e: string)
    ensures IsExtension(path, e)
  {
    ExtFrom(path, |path|)
  }

  /** `filepath.Ext` is the only string with the properties of an extension. */
  lemma ExtUnique(path: string, e: string)
    requires IsExtension(path, e)
    ensures Ext(path) == e
  {
  }

  /**
   * The extension test of main.go:18: a path is a candidate script when its
   * extension is `.tsx` or `.js`, that is, exactly when it ends in one of them.
   */
  predicate IsCandidate(path: string)
    ensures IsCandidate(path) <==> EndsWith(path, ".tsx") || EndsWith(path, ".js")
  {
    assert EndsWith(path, ".tsx") ==> Ext(path) == ".tsx" by {
      if EndsWith(path, ".tsx") {
        ExtUnique(path, ".tsx");
      }
    }
    assert EndsWith(path, ".js") ==> Ext(path) == ".js" by {
      if EndsWith(path, ".js") {
        ExtUnique(path, ".js");
      }
    }
    Ext(path) == ".tsx" || Ext(path) == ".js"
  }

  /** One call of the walk function: a visited entry, or the error reported for a path. */
  datatype WalkEvent =
    | Visit(path: string, isDir: bool)
    | Failed(path: string)

  /** The walk reports an error somewhere. */
  predicate WalkFails(events: seq<WalkEvent>) {
    exists k :: 0 <= k < |events| && events[k].Failed?
  }

  /**
   * findFiles over the events of one walk: the first error stops the walk and
   * is returned; otherwise the non-directory candidates, in walk order.
   */
  function FindFiles(events: seq<WalkEvent>): (r: Result<seq<string>, string>)
    ensures r.Failure? <==> WalkFails(events)
    ensures r.Failure? ==> exists k :: 0 <= k < |events| && events[k] == Failed(r.error)
                                       && forall l :: 0 <= l < k ==> events[l].Visit?
    ensures r.Success? ==> forall x :: x in r.value <==> Visit(x, false) in events && IsCandidate(x)
  {
    if |events| == 0 then Success([])
    else
      var rest := FindFiles(events[1..]);
      assert forall k :: 0 < k < |events| ==> events[k] == events[1..][k - 1];
      match events[0]
      case Failed(p) => Failure(p)
      case Visit(p, isDir) =>
        if rest.Failure? then
          var k :| 0 <= k < |events[1..]| && events[1..][k] == Failed(rest.error)
                   && forall l :: 0 <= l < k ==> events[1..][l].Visit?;
          assert events[k + 1] == Failed(rest.error);
          rest
        else
          Success((if !isDir && IsCandidate(p) then [p] else []) + rest.value)
  }

  /** Two walk segments without errors make a walk without errors. */
  lemma NoFailureConcat(a: seq<WalkEvent>, b: seq<WalkEvent>)
    requires !WalkFails(a) && !WalkFails(b)
    ensures !WalkFails(a + b)
  {
    forall k | 0 <= k < |a + b|
      ensures (a + b)[k].Visit?
    {
      if k < |a| {
        assert (a + b)[k] == a[k];
      } else {
        assert (a + b)[k] == b[k - |a|];
      }
    }
  }

  /** Dropping the first event of a walk without errors leaves one without errors. */
  lemma NoFailureTail(a: seq<WalkEvent>)
    requires |a| > 0 && !WalkFails(a)
    ensures !WalkFails(a[1..])
  {
    forall k | 0 <= k < |a[1..]|
      ensures a[1..][k].Visit?
    {
      assert a[1..][k] == a[k + 1];
    }
  }

  /** The files found in two walk segments without errors are found in order. */
  lemma {:induction false} FindFilesConcat(a: seq<WalkEvent>, b: seq<WalkEvent>)
    requires !WalkFails(a) && !WalkFails(b)
    ensures FindFiles(a + b).Success?
    ensures FindFiles(a + b).value == FindFiles(a).value + FindFiles(b).value
  {
    NoFailureConcat(a, b);
    if |a| > 0 {
      assert (a + b)[1..] == a[1..] + b;
      NoFailureTail(a);
      FindFilesConcat(a[1..], b);
      assert (a + b)[0] == a[0];
    } else {
      assert a + b == b;
    }
  }
}
