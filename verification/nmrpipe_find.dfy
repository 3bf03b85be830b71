/**
 * _find_nth (transcoders/nmrpipe/nmrpipe_lib.py): the offset of the n-th
 * non-overlapping occurrence of a needle in a line, used to put a caret
 * under a value that could not be converted.
 */
module NmrPipeFind {

  /** needle occurs in haystack starting at offset i. */
  predicate OccursAt(haystack: string, needle: string, i: int) {
    0 <= i && i + |needle| <= |haystack| && haystack[i..i + |needle|] == needle
  }

  /** str.find(needle, start): the lowest offset at or after start where needle
      occurs, or -1. */
  function Find(haystack: string, needle: string, start: nat): (r: int)
    ensures r == -1 || start <= r
    decreases |haystack| - start
  {
    if start + |needle| > |haystack| then -1
    else if haystack[start..start + |needle|] == needle then start
    else Find(haystack, needle, start + 1)
  }

  /** Find gives -1 when the needle does not occur at or after start, and
      otherwise the first offset from start where it occurs. */
  lemma {:induction false} FindIsFirstOccurrence(haystack: string, needle: string, start: nat)
    ensures var r := Find(haystack, needle, start);
      && (r == -1 || OccursAt(haystack, needle, r))
      && (r >= 0 ==> forall i | start <= i < r :: !OccursAt(haystack, needle, i))
      && (r == -1 ==> forall i | start <= i :: !OccursAt(haystack, needle, i))
    decreases |haystack| - start
  {
    if start + |needle| <= |haystack| && haystack[start..start + |needle|] != needle {
      FindIsFirstOccurrence(haystack, needle, start + 1);
    }
  }

  /** The greedy left-to-right list of non-overlapping occurrences at or after
      start: each search resumes where the previous match ended. */
  function Occurrences(haystack: string, needle: string, start: nat): seq<nat>
    requires |needle| > 0
    decreases |haystack| + 1 - start
  {
    var p := Find(haystack, needle, start);
    if p < 0 then [] else [p] + Occurrences(haystack, needle, p + |needle|)
  }

  /** Every listed offset is an occurrence at or after start, and each one
      starts after the previous one ends. */
  lemma {:induction false} OccurrencesAreOrdered(haystack: string, needle: string, start: nat)
    requires |needle| > 0
    ensures forall k | 0 <= k < |Occurrences(haystack, needle, start)| ::
      start <= Occurrences(haystack, needle, start)[k] &&
      OccursAt(haystack, needle, Occurrences(haystack, needle, start)[k])
    ensures forall k | 0 <= k < |Occurrences(haystack, needle, start)| - 1 ::
      Occurrences(haystack, needle, start)[k] + |needle| <= Occurrences(haystack, needle, start)[k + 1]
    decreases |haystack| + 1 - start
  {
    var p := Find(haystack, needle, start);
    if p >= 0 {
      var r := Occurrences(haystack, needle, start);
      var rest := Occurrences(haystack, needle, p + |needle|);
      FindIsFirstOccurrence(haystack, needle, start);
      OccurrencesAreOrdered(haystack, needle, p + |needle|);
      assert r == [p] + rest;
      forall k | 0 <= k < |r| ensures start <= r[k] && OccursAt(haystack, needle, r[k]) {
        if k > 0 {
          assert r[k] == rest[k - 1];
        }
      }
      forall k | 0 <= k < |r| - 1 ensures r[k] + |needle| <= r[k + 1] {
        assert r[k + 1] == rest[k];
        if k > 0 {
          assert r[k] == rest[k - 1];
        }
      }
    }
  }

  /** What _find_nth returns: the n-th entry of Occurrences (the first when
      n <= 1), or -1 when there are fewer; 0 for an empty needle, which
      str.find always finds at the search start. */
  function NthOccurrence(haystack: string, needle: string, n: int): int {
    if |needle| == 0 then 0
    else
      var occ := Occurrences(haystack, needle, 0);
      var k := if n < 1 then 1 else n;
      if k <= |occ| then occ[k - 1] else -1
  }

  /** The n-th occurrence is -1 or an occurrence; for n <= 1 it is the first. */
  lemma NthOccurrenceOccurs(haystack: string, needle: string, n: int)
    ensures var r := NthOccurrence(haystack, needle, n);
      && (r == -1 || OccursAt(haystack, needle, r))
      && (n <= 1 ==> r == Find(haystack, needle, 0))
  {
    if |needle| == 0 {
      assert haystack[0..0] == needle;
    } else {
      OccurrencesAreOrdered(haystack, needle, 0);
      OccurrencesUnfold(haystack, needle, 0);
    }
  }

  /** _find_nth(haystack, needle, n) */
  method FindNth(haystack: string, needle: string, n: int) returns (start: int)
    ensures start == NthOccurrence(haystack, needle, n)
  {
    start := Find(haystack, needle, 0);
    var m := n;
    ghost var j := 0;
    if |needle| > 0 {
      OccurrencesUnfold(haystack, needle, 0);
    }
    while start >= 0 && m > 1
      invariant start >= -1
      invariant n <= 1 ==> m == n && j == 0
      invariant n > 1 ==> m == n - j && m >= 1
      invariant |needle| == 0 ==> start == 0
      invariant |needle| > 0 ==> Scanned(haystack, needle, j, start)
      decreases m
    {
      ghost var previous := start;
      start := Find(haystack, needle, start + |needle|);
      if |needle| > 0 {
        ScanStep(haystack, needle, j, previous);
      }
      m := m - 1;
      j := j + 1;
    }
    if |needle| > 0 {
      NthOccurrenceOf(haystack, needle, n, j, start);
    }
  }

  /** After j further searches the scan stands at start: the j-th entry of the
      occurrence list (0-based), or past its end when start is -1. */
  ghost predicate Scanned(haystack: string, needle: string, j: nat, start: int)
    requires |needle| > 0
  {
    var occ := Occurrences(haystack, needle, 0);
    && (start >= 0 ==> j < |occ| && occ[j] == start && occ[j + 1..] == Occurrences(haystack, needle, start + |needle|))
    && (start < 0 ==> |occ| <= j)
  }

  lemma ScanStep(haystack: string, needle: string, j: nat, start: nat)
    requires |needle| > 0 && Scanned(haystack, needle, j, start)
    ensures Scanned(haystack, needle, j + 1, Find(haystack, needle, start + |needle|))
  {
    var occ := Occurrences(haystack, needle, 0);
    var rest := Occurrences(haystack, needle, start + |needle|);
    OccurrencesUnfold(haystack, needle, start + |needle|);
    SuffixStep(occ, rest, j);
  }

  /** The suffix after entry j, one entry further on. */
  lemma SuffixStep(occ: seq<nat>, rest: seq<nat>, j: nat)
    requires j < |occ| && occ[j + 1..] == rest
    ensures rest == [] ==> |occ| <= j + 1
    ensures rest != [] ==> j + 1 < |occ| && occ[j + 1] == rest[0] && occ[j + 2..] == rest[1..]
  {
    if rest != [] {
      assert occ[j + 1] == occ[j + 1..][0];
      assert occ[j + 2..] == occ[j + 1..][1..];
    }
  }

  lemma OccurrencesUnfold(haystack: string, needle: string, start: nat)
    requires |needle| > 0
    ensures var p := Find(haystack, needle, start);
      Occurrences(haystack, needle, start) ==
        if p < 0 then [] else [p] + Occurrences(haystack, needle, p + |needle|)
  {
  }

  lemma NthOccurrenceOf(haystack: string, needle: string, n: int, j: nat, start: int)
    requires |needle| > 0 && start >= -1 && Scanned(haystack, needle, j, start)
    requires n <= 1 ==> j == 0
    requires n > 1 ==> j <= n - 1 && (start >= 0 ==> j == n - 1)
    ensures start == NthOccurrence(haystack, needle, n)
  {
  }

  /** Every occurrence at or after start is either listed or overlaps a listed
      one that begins before it: the list is the greedy non-overlapping scan. */
  lemma {:induction false} OccurrencesAreGreedy(haystack: string, needle: string, start: nat, p: int)
    requires |needle| > 0
    requires start <= p && OccursAt(haystack, needle, p)
    ensures exists k | 0 <= k < |Occurrences(haystack, needle, start)| ::
      Occurrences(haystack, needle, start)[k] <= p < Occurrences(haystack, needle, start)[k] + |needle|
    decreases |haystack| + 1 - start
  {
    var occ := Occurrences(haystack, needle, start);
    var q := Find(haystack, needle, start);
    FindIsFirstOccurrence(haystack, needle, start);
    assert q >= 0;
    assert occ[0] == q;
    if p >= q + |needle| {
      OccurrencesAreGreedy(haystack, needle, q + |needle|, p);
      var rest := Occurrences(haystack, needle, q + |needle|);
      var k :| 0 <= k < |rest| && rest[k] <= p < rest[k] + |needle|;
      assert occ[k + 1] == rest[k];
    }
  }

  /** The caret of a later occurrence lies strictly after that of an earlier one. */
  lemma NthOccurrenceIncreases(haystack: string, needle: string, n: int)
    requires |needle| > 0 && n >= 1
    requires NthOccurrence(haystack, needle, n + 1) >= 0
    ensures 0 <= NthOccurrence(haystack, needle, n)
    ensures NthOccurrence(haystack, needle, n) + |needle| <= NthOccurrence(haystack, needle, n + 1)
  {
    var occ := Occurrences(haystack, needle, 0);
    OccurrencesAreOrdered(haystack, needle, 0);
    assert n + 1 <= |occ|;
    assert occ[n - 1] + |needle| <= occ[n];
  }
}
