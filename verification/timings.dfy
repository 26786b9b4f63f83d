/**
 * Discarding the best and worst timing samples before the statistics in
 * `main` of experiments/evaluate.py: with the flag set and at least three
 * runs, each list of execution times is sorted and loses its first and last
 * element (Python `sort()` then `[1:-1]`).
 *
 * Execution times are floats in the source; only their order matters here,
 * so they are modelled as `real` (no NaN, no rounding).
 */
module Timings {

  predicate Sorted(s: seq<real>) {
    forall i, j :: 0 <= i < j < |s| ==> s[i] <= s[j]
  }

  /** Insert `x` into a sorted list, keeping it sorted. */
  function Insert(x: real, s: seq<real>): (r: seq<real>)
    requires Sorted(s)
    ensures Sorted(r)
    ensures multiset(r) == multiset(s) + multiset{x}
  {
    if s == [] || x <= s[0] then [x] + s
    else
      var rest := Insert(x, s[1..]);
      InsertStep(x, s, rest);
      [s[0]] + rest
  }

  /** Putting the head back in front of the insertion into the tail. */
  lemma InsertStep(x: real, s: seq<real>, rest: seq<real>)
    requires Sorted(s) && s != [] && s[0] < x
    requires Sorted(rest) && multiset(rest) == multiset(s[1..]) + multiset{x}
    ensures Sorted([s[0]] + rest)
    ensures multiset([s[0]] + rest) == multiset(s) + multiset{x}
  {
    forall k | 0 <= k < |rest| ensures s[0] <= rest[k] {
      assert rest[k] in multiset(rest);
      if rest[k] != x {
        assert rest[k] in multiset(s[1..]);
        var i :| 0 <= i < |s[1..]| && s[1..][i] == rest[k];
        assert s[i + 1] == rest[k];
      }
    }
    var r := [s[0]] + rest;
    forall i, j | 0 <= i < j < |r| ensures r[i] <= r[j] {
      assert r[j] == rest[j - 1];
      if i > 0 {
        assert r[i] == rest[i - 1];
      }
    }
    assert s == [s[0]] + s[1..];
  }

  /** `list.sort()`: the ascending permutation of `s`. */
  function Sort(s: seq<real>): (r: seq<real>)
    ensures Sorted(r)
    ensures multiset(r) == multiset(s)
  {
    if s == [] then []
    else
      assert s == [s[0]] + s[1..];
      Insert(s[0], Sort(s[1..]))
  }

  /**
   * A list has only one sorted arrangement: any two sorted lists with the
   * same elements are equal. So `Sort` agrees with Python's `sort()`,
   * whatever algorithm either uses.
   */
  lemma {:induction false} SortedUnique(a: seq<real>, b: seq<real>)
    requires Sorted(a) && Sorted(b) && multiset(a) == multiset(b)
    ensures a == b
    decreases |a|
  {
    assert |a| == |multiset(a)| == |multiset(b)| == |b|;
    if a != [] {
      SameTail(a, b);
      SortedUnique(a[1..], b[1..]);
      assert a == [a[0]] + a[1..] && b == [b[0]] + b[1..];
    }
  }

  /** Removing the common head of two sorted permutations leaves two more. */
  lemma SameTail(a: seq<real>, b: seq<real>)
    requires Sorted(a) && Sorted(b) && multiset(a) == multiset(b) && a != [] && b != []
    ensures a[0] == b[0]
    ensures Sorted(a[1..]) && Sorted(b[1..])
    ensures multiset(a[1..]) == multiset(b[1..])
  {
    SameHead(a, b);
    SplitHead(a);
    SplitHead(b);
    SortedTail(a);
    SortedTail(b);
    assert multiset(a[1..]) == multiset(a) - multiset{a[0]};
    assert multiset(b[1..]) == multiset(b) - multiset{b[0]};
  }

  /** Two sorted lists with the same elements start with the same element. */
  lemma SameHead(a: seq<real>, b: seq<real>)
    requires Sorted(a) && Sorted(b) && multiset(a) == multiset(b) && a != [] && b != []
    ensures a[0] == b[0]
  {
    assert a[0] in multiset(a) && b[0] in multiset(b);
    HeadIsLeast(a, b[0]);
    HeadIsLeast(b, a[0]);
  }

  lemma SortedTail(s: seq<real>)
    requires Sorted(s) && s != []
    ensures Sorted(s[1..])
  {
    assert forall i :: 0 <= i < |s| - 1 ==> s[1..][i] == s[i + 1];
  }

  /** The head of a sorted list is at most any of its elements. */
  lemma HeadIsLeast(s: seq<real>, x: real)
    requires Sorted(s) && s != [] && x in multiset(s)
    ensures s[0] <= x
  {
    var k :| 0 <= k < |s| && s[k] == x;
  }

  lemma SplitHead(s: seq<real>)
    requires s != []
    ensures multiset(s) == multiset{s[0]} + multiset(s[1..])
  {
    assert s == [s[0]] + s[1..];
  }

  /** Python's `s[1:-1]`: everything but the first and the last element. */
  function DropEnds(s: seq<real>): (r: seq<real>)
    ensures |r| == if |s| >= 2 then |s| - 2 else 0
    ensures |s| >= 2 ==> s == [s[0]] + r + [s[|s| - 1]]
    ensures |s| < 2 ==> r == []
  {
    if |s| >= 2 then s[1..|s| - 1] else []
  }

  function Min(s: seq<real>): (m: real)
    requires |s| > 0
    ensures m in s
    ensures forall k :: 0 <= k < |s| ==> m <= s[k]
  {
    if |s| == 1 then s[0]
    else
      var m := Min(s[1..]);
      assert forall k :: 1 <= k < |s| ==> s[k] == s[1..][k - 1];
      if s[0] <= m then s[0] else m
  }

  function Max(s: seq<real>): (m: real)
    requires |s| > 0
    ensures m in s
    ensures forall k :: 0 <= k < |s| ==> s[k] <= m
  {
    if |s| == 1 then s[0]
    else
      var m := Max(s[1..]);
      assert forall k :: 1 <= k < |s| ==> s[k] == s[1..][k - 1];
      if m <= s[0] then s[0] else m
  }

  /**
   * The statistics prelude of `main`: with `discard_best_worst` set and
   * `num_runs >= 3` the list is replaced by its sorted version without its
   * first and last element; otherwise it is used as it is.
   */
  function Trim(times: seq<real>, numRuns: int, discardBestWorst: bool): (r: seq<real>)
    ensures !discardBestWorst || numRuns < 3 ==> r == times
    ensures discardBestWorst && numRuns >= 3 ==> Sorted(r)
    ensures discardBestWorst && numRuns >= 3 && |times| == numRuns ==> |r| == numRuns - 2
  {
    if discardBestWorst && numRuns >= 3 then
      var sorted := Sort(times);
      assert |sorted| == |multiset(sorted)| == |times|;
      DropEnds(sorted)
    else times
  }

  /**
   * Trimming removes exactly one smallest and one largest sample: the
   * trimmed list plus the original minimum and maximum is the original list,
   * as a multiset, so every kept sample lies between the two.
   */
  lemma {:induction false} TrimRemovesMinAndMax(times: seq<real>, numRuns: int)
    requires numRuns >= 3 && |times| == numRuns
    ensures multiset(Trim(times, numRuns, true)) + multiset{Min(times), Max(times)} == multiset(times)
    ensures multiset(Trim(times, numRuns, true)) <= multiset(times)
    ensures forall x :: x in Trim(times, numRuns, true) ==> Min(times) <= x <= Max(times)
  {
    var s := Sort(times);
    assert |s| == |multiset(s)| == |times|;
    InnerOfSorted(s, times, Trim(times, numRuns, true));
  }

  /** What `TrimRemovesMinAndMax` says, for any sorted permutation `s` of `t`. */
  lemma {:induction false} InnerOfSorted(s: seq<real>, t: seq<real>, mid: seq<real>)
    requires Sorted(s) && |s| >= 2 && |t| >= 2 && multiset(s) == multiset(t)
    requires mid == s[1..|s| - 1]
    ensures multiset(mid) + multiset{Min(t), Max(t)} == multiset(t)
    ensures multiset(mid) <= multiset(t)
    ensures forall x :: x in mid ==> Min(t) <= x <= Max(t)
  {
    SortedEnds(s, t);
    SplitEnds(s);
    BetweenEnds(s, mid);
  }

  /** The inner elements of a sorted list lie between its ends. */
  lemma BetweenEnds(s: seq<real>, mid: seq<real>)
    requires Sorted(s) && |s| >= 2 && mid == s[1..|s| - 1]
    ensures forall x :: x in mid ==> s[0] <= x <= s[|s| - 1]
  {
    forall x | x in mid ensures s[0] <= x <= s[|s| - 1] {
      var k :| 0 <= k < |mid| && mid[k] == x;
      assert x == s[k + 1];
    }
  }

  /** The ends of a sorted permutation are the minimum and the maximum. */
  lemma SortedEnds(s: seq<real>, t: seq<real>)
    requires Sorted(s) && |s| > 0 && |t| > 0 && multiset(s) == multiset(t)
    ensures s[0] == Min(t) && s[|s| - 1] == Max(t)
  {
    SortedHeadIsMin(s, t);
    SortedLastIsMax(s, t);
  }

  lemma SortedHeadIsMin(s: seq<real>, t: seq<real>)
    requires Sorted(s) && |s| > 0 && |t| > 0 && multiset(s) == multiset(t)
    ensures s[0] == Min(t)
  {
    var m := Min(t);
    assert m in multiset(s);
    var i :| 0 <= i < |s| && s[i] == m;
    assert s[0] in multiset(t);
    var j :| 0 <= j < |t| && t[j] == s[0];
  }

  lemma SortedLastIsMax(s: seq<real>, t: seq<real>)
    requires Sorted(s) && |s| > 0 && |t| > 0 && multiset(s) == multiset(t)
    ensures s[|s| - 1] == Max(t)
  {
    var m := Max(t);
    assert m in multiset(s);
    var i :| 0 <= i < |s| && s[i] == m;
    assert s[|s| - 1] in multiset(t);
    var j :| 0 <= j < |t| && t[j] == s[|s| - 1];
  }

  lemma SplitEnds(s: seq<real>)
    requires |s| >= 2
    ensures multiset(s) == multiset{s[0]} + multiset(s[1..|s| - 1]) + multiset{s[|s| - 1]}
  {
    assert s == [s[0]] + s[1..|s| - 1] + [s[|s| - 1]];
  }
}
