/**
 * `FindAllStringSubmatch(text, -1)` over a recogniser that reports the match
 * starting at a given position: the leftmost match, then the leftmost match
 * at or after its end, and so on. The matches of both patterns in main.go are
 * never empty, so the search always resumes exactly at the end of the
 * previous match, and Go's special case for empty matches never applies.
 */
module Scanner {
  import opened Wrappers
  import opened Lexical

  /** Reports the match that starts at the given position of the text, if any. */
  type Recogniser = (string, nat) -> Option<Match>

  /** Every match a recogniser reports starts where it was asked and is non-empty. */
  ghost predicate Anchored(rec: Recogniser) {
    forall s, i: nat :: rec(s, i).Some? ==> rec(s, i).value.start == i && i < rec(s, i).value.end <= |s|
  }

  /** No match starts at a position in `[a, b)` (positions run up to `|s|`). */
  ghost predicate NoMatchIn(rec: Recogniser, s: string, a: nat, b: nat) {
    forall q :: a <= q < b && q <= |s| ==> rec(s, q).None?
  }

  /** The leftmost match starting at or after `pos`. */
  function FirstMatchFrom(rec: Recogniser, s: string, pos: nat): (r: Option<Match>)
    requires Anchored(rec)
    requires pos <= |s|
    ensures r.Some? ==> pos <= r.value.start < r.value.end <= |s| && rec(s, r.value.start) == r
    ensures r.Some? ==> NoMatchIn(rec, s, pos, r.value.start)
    ensures r.None? ==> NoMatchIn(rec, s, pos, |s| + 1)
    decreases |s| - pos
  {
    var m := rec(s, pos);
    if m.Some? then m
    else if pos == |s| then None
    else FirstMatchFrom(rec, s, pos + 1)
  }

  /** Where the gap after the `k`-th match ends: the next match's start, or past the text. */
  function GapEnd(s: string, ms: seq<Match>, k: nat): nat
    requires k < |ms|
  {
    if k + 1 < |ms| then ms[k + 1].start else |s| + 1
  }

  /** Where the gap before the first match ends. */
  function FirstStart(s: string, ms: seq<Match>): nat {
    if |ms| > 0 then ms[0].start else |s| + 1
  }

  /**
   * `ms` is the sequence of leftmost non-overlapping matches in `s` from `pos`
   * on: each entry is the match reported at its start, consecutive entries
   * do not overlap, and no match starts before the first entry, between two
   * entries or after the last one.
   */
  ghost predicate LeftmostScan(rec: Recogniser, s: string, pos: nat, ms: seq<Match>) {
    && (forall k :: 0 <= k < |ms| ==> pos <= ms[k].start && rec(s, ms[k].start) == Some(ms[k]))
    && (forall k :: 0 <= k < |ms| - 1 ==> ms[k].end <= ms[k + 1].start)
    && NoMatchIn(rec, s, pos, FirstStart(s, ms))
    && (forall k :: 0 <= k < |ms| ==> NoMatchIn(rec, s, ms[k].end, GapEnd(s, ms, k)))
  }

  /** All matches from `pos` on, in text order. */
  function FindAllFrom(rec: Recogniser, s: string, pos: nat): (ms: seq<Match>)
    requires Anchored(rec)
    requires pos <= |s|
    ensures LeftmostScan(rec, s, pos, ms)
    decreases |s| - pos
  {
    match FirstMatchFrom(rec, s, pos)
    case None => []
    case Some(m) =>
      var rest := FindAllFrom(rec, s, m.end);
      LeftmostScanCons(rec, s, pos, m, rest);
      [m] + rest
  }

  /** A leftmost scan extended at the front by the leftmost match before it. */
  lemma LeftmostScanCons(rec: Recogniser, s: string, pos: nat, m: Match, rest: seq<Match>)
    requires pos <= m.start < m.end && rec(s, m.start) == Some(m)
    requires NoMatchIn(rec, s, pos, m.start)
    requires LeftmostScan(rec, s, m.end, rest)
    ensures LeftmostScan(rec, s, pos, [m] + rest)
  {
    var ms := [m] + rest;
    ConsEntries(rec, s, pos, m, rest, ms);
    ConsOrdered(rec, s, m, rest, ms);
    ConsGaps(rec, s, m, rest, ms);
    assert FirstStart(s, ms) == m.start;
  }

  /** Every entry of the extended scan is the match reported at its start. */
  lemma ConsEntries(rec: Recogniser, s: string, pos: nat, m: Match, rest: seq<Match>, ms: seq<Match>)
    requires ms == [m] + rest
    requires pos <= m.start < m.end && rec(s, m.start) == Some(m)
    requires LeftmostScan(rec, s, m.end, rest)
    ensures forall k :: 0 <= k < |ms| ==> pos <= ms[k].start && rec(s, ms[k].start) == Some(ms[k])
  {
    forall k | 0 <= k < |ms|
      ensures pos <= ms[k].start && rec(s, ms[k].start) == Some(ms[k])
    {
      if k > 0 {
        assert ms[k] == rest[k - 1];
      }
    }
  }

  /** The extended scan's entries do not overlap. */
  lemma ConsOrdered(rec: Recogniser, s: string, m: Match, rest: seq<Match>, ms: seq<Match>)
    requires ms == [m] + rest
    requires LeftmostScan(rec, s, m.end, rest)
    ensures forall k :: 0 <= k < |ms| - 1 ==> ms[k].end <= ms[k + 1].start
  {
    forall k | 0 <= k < |ms| - 1
      ensures ms[k].end <= ms[k + 1].start
    {
      assert ms[k + 1] == rest[k];
      if k > 0 {
        assert ms[k] == rest[k - 1];
      }
    }
  }

  /** No match starts in the gap after any entry of the extended scan. */
  lemma ConsGaps(rec: Recogniser, s: string, m: Match, rest: seq<Match>, ms: seq<Match>)
    requires ms == [m] + rest
    requires LeftmostScan(rec, s, m.end, rest)
    ensures forall k :: 0 <= k < |ms| ==> NoMatchIn(rec, s, ms[k].end, GapEnd(s, ms, k))
  {
    forall k | 0 <= k < |ms|
      ensures NoMatchIn(rec, s, ms[k].end, GapEnd(s, ms, k))
    {
      if k == 0 {
        assert GapEnd(s, ms, 0) == FirstStart(s, rest);
      } else {
        assert ms[k] == rest[k - 1] && GapEnd(s, ms, k) == GapEnd(s, rest, k - 1);
      }
    }
  }

  /** All matches in `s`: `FindAllStringSubmatch(s, -1)`. */
  function FindAll(rec: Recogniser, s: string): (ms: seq<Match>)
    requires Anchored(rec)
    ensures LeftmostScan(rec, s, 0, ms)
  {
    FindAllFrom(rec, s, 0)
  }

  /** In a leftmost scan, matches start strictly later the further they are in the sequence. */
  lemma {:induction false} ScanOrdered(rec: Recogniser, s: string, pos: nat, ms: seq<Match>, k: nat, l: nat)
    requires Anchored(rec)
    requires LeftmostScan(rec, s, pos, ms)
    requires k < l < |ms|
    ensures ms[k].end <= ms[l].start
    decreases l - k
  {
    if k + 1 < l {
      ScanOrdered(rec, s, pos, ms, k + 1, l);
      assert rec(s, ms[k + 1].start) == Some(ms[k + 1]);
    }
  }

  /** A leftmost scan begins with the leftmost match. */
  lemma ScanHead(rec: Recogniser, s: string, pos: nat, ms: seq<Match>)
    requires Anchored(rec)
    requires pos <= |s|
    requires LeftmostScan(rec, s, pos, ms)
    ensures FirstMatchFrom(rec, s, pos) == if |ms| == 0 then None else Some(ms[0])
  {
    if |ms| != 0 {
      assert rec(s, ms[0].start) == Some(ms[0]);
    }
  }

  /** What follows the first match of a leftmost scan is the leftmost scan after it. */
  lemma ScanTail(rec: Recogniser, s: string, pos: nat, ms: seq<Match>)
    requires Anchored(rec)
    requires LeftmostScan(rec, s, pos, ms)
    requires |ms| > 0
    ensures LeftmostScan(rec, s, ms[0].end, ms[1..])
  {
    var m := ms[0];
    var rest := ms[1..];
    forall k | 0 <= k < |rest|
      ensures rest[k] == ms[k + 1] && GapEnd(s, rest, k) == GapEnd(s, ms, k + 1)
      ensures m.end <= rest[k].start
    {
      ScanOrdered(rec, s, pos, ms, 0, k + 1);
    }
    assert FirstStart(s, rest) == GapEnd(s, ms, 0);
  }

  /**
   * The leftmost scan is unique: any sequence of matches with the
   * properties of `LeftmostScan` is the one the search produces.
   */
  lemma {:induction false} LeftmostScanUnique(rec: Recogniser, s: string, pos: nat, ms: seq<Match>)
    requires Anchored(rec)
    requires pos <= |s|
    requires LeftmostScan(rec, s, pos, ms)
    ensures ms == FindAllFrom(rec, s, pos)
    decreases |s| - pos
  {
    ScanHead(rec, s, pos, ms);
    if |ms| > 0 {
      ScanTail(rec, s, pos, ms);
      LeftmostScanUnique(rec, s, ms[0].end, ms[1..]);
      assert ms == [ms[0]] + ms[1..];
    }
  }

  /** The search finds nothing exactly when no match starts anywhere in the text. */
  lemma FindAllEmptyIff(rec: Recogniser, s: string)
    requires Anchored(rec)
    ensures FindAll(rec, s) == [] <==> NoMatchIn(rec, s, 0, |s| + 1)
  {
    var ms := FindAll(rec, s);
    if ms != [] {
      assert rec(s, ms[0].start).Some?;
    }
  }

  /** A text with exactly one match: the scan finds that match and nothing else. */
  lemma SingleMatch(rec: Recogniser, s: string, m: Match)
    requires Anchored(rec)
    requires rec(s, m.start) == Some(m)
    requires NoMatchIn(rec, s, 0, m.start)
    requires NoMatchIn(rec, s, m.end, |s| + 1)
    ensures FindAll(rec, s) == [m]
  {
    assert LeftmostScan(rec, s, 0, [m]);
    LeftmostScanUnique(rec, s, 0, [m]);
  }
}
