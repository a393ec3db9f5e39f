/** Ordered maximal runs of a set of offsets inside a window.

    Page reads, cache reads and gap filling all report their data as a list of
    (start, length) pairs; this module says what such a list has to be. */
module Runs {

  type Run = (int, int)

  predicate InRun(r: Run, i: int) {
    r.0 <= i < r.0 + r.1
  }

  ghost predicate Covered(runs: seq<Run>, i: int) {
    exists k :: 0 <= k < |runs| && InRun(runs[k], i)
  }

  /** `runs` are non-empty, inside [lo, hi), ascending, and no two of them touch. */
  ghost predicate Separated(lo: int, hi: int, runs: seq<Run>) {
    && (forall k :: 0 <= k < |runs| ==> lo <= runs[k].0 && 0 < runs[k].1 && runs[k].0 + runs[k].1 <= hi)
    && (forall j, k :: 0 <= j < k < |runs| ==> runs[j].0 + runs[j].1 < runs[k].0)
  }

  /** `runs` are exactly the maximal runs of `s` inside [lo, hi): they cover the members of `s`
      and nothing else, and because no two touch, none of them can be extended. */
  ghost predicate IsRuns(s: set<int>, lo: int, hi: int, runs: seq<Run>) {
    && Separated(lo, hi, runs)
    && (forall i :: lo <= i < hi ==> (i in s <==> Covered(runs, i)))
  }

  /** A run list with the last run dropped describes the window that ends before that run. */
  lemma RunsDropLast(s: set<int>, lo: int, hi: int, runs: seq<Run>)
    requires IsRuns(s, lo, hi, runs) && |runs| > 0
    ensures IsRuns(s, lo, runs[|runs| - 1].0, runs[..|runs| - 1])
  {
    var n := |runs| - 1;
    var short := runs[..n];
    var mid := runs[n].0;
    forall k | 0 <= k < |short| ensures short[k].0 + short[k].1 <= mid {
      assert short[k] == runs[k];
    }
    forall i | lo <= i < mid ensures i in s <==> Covered(short, i) {
      if i in s {
        var k :| 0 <= k < |runs| && InRun(runs[k], i);
        assert InRun(short[k], i);
      } else {
        assert forall k :: 0 <= k < |short| ==> short[k] == runs[k] && !InRun(runs[k], i);
      }
    }
  }

  /** The last member of `s` in the window is the last position of the last run. */
  lemma LastRunEnds(s: set<int>, lo: int, hi: int, runs: seq<Run>, i: int)
    requires IsRuns(s, lo, hi, runs) && lo <= i < hi && i in s
    ensures |runs| > 0 && i < runs[|runs| - 1].0 + runs[|runs| - 1].1
  {
    var k :| 0 <= k < |runs| && InRun(runs[k], i);
  }

  /** The run list of a window is unique, so the predicate pins the answer of every scan. */
  lemma {:induction false} RunsUnique(s: set<int>, lo: int, hi: int, a: seq<Run>, b: seq<Run>)
    requires IsRuns(s, lo, hi, a) && IsRuns(s, lo, hi, b)
    ensures a == b
    decreases |a|
  {
    assert |a| > 0 ==> InRun(a[0], a[0].0) && Covered(b, a[0].0);
    assert |b| > 0 ==> InRun(b[0], b[0].0) && Covered(a, b[0].0);
    if |a| > 0 && |b| > 0 {
      LastRunSame(s, lo, hi, a, b);
      RunsDropLast(s, lo, hi, a);
      RunsDropLast(s, lo, hi, b);
      RunsUnique(s, lo, a[|a| - 1].0, a[..|a| - 1], b[..|b| - 1]);
      assert a == a[..|a| - 1] + [a[|a| - 1]];
      assert b == b[..|b| - 1] + [b[|b| - 1]];
    }
  }

  lemma LastRunSame(s: set<int>, lo: int, hi: int, a: seq<Run>, b: seq<Run>)
    requires IsRuns(s, lo, hi, a) && IsRuns(s, lo, hi, b) && |a| > 0 && |b| > 0
    ensures a[|a| - 1] == b[|b| - 1]
  {
    var x, y := a[|a| - 1], b[|b| - 1];
    assert InRun(x, x.0 + x.1 - 1);
    LastRunEnds(s, lo, hi, b, x.0 + x.1 - 1);
    assert InRun(y, y.0 + y.1 - 1);
    LastRunEnds(s, lo, hi, a, y.0 + y.1 - 1);
    RunStartsAtEdge(s, lo, hi, a, |a| - 1);
    RunStartsAtEdge(s, lo, hi, b, |b| - 1);
    assert InRun(x, y.0 - 1) ==> Covered(a, y.0 - 1);
    assert InRun(y, x.0 - 1) ==> Covered(b, x.0 - 1);
  }

  /** Maximality: the position before a run is outside the window or not in the set. */
  lemma RunStartsAtEdge(s: set<int>, lo: int, hi: int, runs: seq<Run>, n: int)
    requires IsRuns(s, lo, hi, runs) && 0 <= n < |runs|
    ensures runs[n].0 == lo || runs[n].0 - 1 !in s
  {
    var p := runs[n].0 - 1;
    assert forall k :: 0 <= k < |runs| ==> !InRun(runs[k], p);
  }

  /** Scanning on: a block of members after a non-member (or at the window start) is one new run. */
  lemma AppendRun(s: set<int>, lo: int, mid: int, hi: int, runs: seq<Run>)
    requires IsRuns(s, lo, mid, runs) && lo <= mid < hi
    requires forall i :: mid <= i < hi ==> i in s
    requires mid == lo || mid - 1 !in s
    ensures IsRuns(s, lo, hi, runs + [(mid, hi - mid)])
  {
    var longer := runs + [(mid, hi - mid)];
    assert |runs| > 0 ==> InRun(runs[|runs| - 1], runs[|runs| - 1].0 + runs[|runs| - 1].1 - 1);
    assert |runs| > 0 ==> runs[|runs| - 1].0 + runs[|runs| - 1].1 < mid;
    forall i | lo <= i < hi ensures i in s <==> Covered(longer, i) {
      if i < mid {
        assert forall k :: 0 <= k < |runs| ==> longer[k] == runs[k];
        if i in s {
          var k :| 0 <= k < |runs| && InRun(runs[k], i);
          assert InRun(longer[k], i);
        }
      } else {
        assert InRun(longer[|runs|], i);
      }
    }
  }

  /** Scanning on: a block without members adds no run. */
  lemma AppendGap(s: set<int>, lo: int, mid: int, hi: int, runs: seq<Run>)
    requires IsRuns(s, lo, mid, runs) && lo <= mid <= hi
    requires forall i :: mid <= i < hi ==> i !in s
    ensures IsRuns(s, lo, hi, runs)
  {
    forall i | mid <= i < hi ensures !Covered(runs, i) {
      assert forall k :: 0 <= k < |runs| ==> !InRun(runs[k], i);
    }
  }

  /** Scanning on, with merging: a block of members extends the last run when it touches it. */
  function Joined(runs: seq<Run>, q: int, n: int): seq<Run> {
    if |runs| > 0 && runs[|runs| - 1].0 + runs[|runs| - 1].1 == q
    then runs[|runs| - 1 := (runs[|runs| - 1].0, runs[|runs| - 1].1 + n)]
    else runs + [(q, n)]
  }

  lemma JoinRun(s: set<int>, q: int, n: int, runs: seq<Run>)
    requires IsRuns(s, 0, q, runs) && 0 <= q && 0 < n
    requires forall i :: q <= i < q + n ==> i in s
    ensures IsRuns(s, 0, q + n, Joined(runs, q, n))
  {
    hide IsRuns;
    if |runs| > 0 && runs[|runs| - 1].0 + runs[|runs| - 1].1 == q {
      ExtendLast(s, q, n, runs);
    } else {
      NewRun(s, q, n, runs);
    }
  }

  lemma ExtendLast(s: set<int>, q: int, n: int, runs: seq<Run>)
    requires IsRuns(s, 0, q, runs) && 0 <= q && 0 < n && |runs| > 0 && runs[|runs| - 1].0 + runs[|runs| - 1].1 == q
    requires forall i :: q <= i < q + n ==> i in s
    ensures IsRuns(s, 0, q + n, runs[..|runs| - 1] + [(runs[|runs| - 1].0, runs[|runs| - 1].1 + n)])
    ensures runs[..|runs| - 1] + [(runs[|runs| - 1].0, runs[|runs| - 1].1 + n)] == runs[|runs| - 1 := (runs[|runs| - 1].0, runs[|runs| - 1].1 + n)]
  {
    var k, last := |runs| - 1, runs[|runs| - 1];
    RunsDropLast(s, 0, q, runs);
    RunStartsAtEdge(s, 0, q, runs, k);
    forall i | last.0 <= i < q + n ensures i in s {
      if i < q { assert InRun(runs[k], i); }
    }
    AppendRun(s, 0, last.0, q + n, runs[..k]);
    assert q + n - last.0 == last.1 + n;
  }

  lemma NewRun(s: set<int>, q: int, n: int, runs: seq<Run>)
    requires IsRuns(s, 0, q, runs) && 0 <= q && 0 < n && !(|runs| > 0 && runs[|runs| - 1].0 + runs[|runs| - 1].1 == q)
    requires forall i :: q <= i < q + n ==> i in s
    ensures IsRuns(s, 0, q + n, runs + [(q, n)])
  {
    if q > 0 && q - 1 in s { LastRunEnds(s, 0, q, runs, q - 1); }
    AppendRun(s, 0, q, q + n, runs);
  }

  ghost predicate MemberAt(s: set<int>, mid: int, j: int) {
    mid + j in s
  }

  /** The window of length `n` at `mid` of `s`, counted from its start, is `t`. */
  ghost predicate Shifted(s: set<int>, mid: int, n: int, t: set<int>) {
    forall j :: 0 <= j < n ==> (j in t <==> MemberAt(s, mid, j))
  }

  // ---- pieces: like runs, but neighbours may touch ----

  ghost predicate IsPieces(s: set<int>, lo: int, hi: int, runs: seq<Run>) {
    && (forall k :: 0 <= k < |runs| ==> lo <= runs[k].0 && 0 < runs[k].1 && runs[k].0 + runs[k].1 <= hi)
    && (forall j, k :: 0 <= j < k < |runs| ==> runs[j].0 + runs[j].1 <= runs[k].0)
    && (forall i :: lo <= i < hi ==> (i in s <==> Covered(runs, i)))
  }

  lemma CoveredConcat(a: seq<Run>, b: seq<Run>, i: int)
    ensures Covered(a + b, i) <==> Covered(a, i) || Covered(b, i)
  {
    var all := a + b;
    if Covered(a, i) {
      var k :| 0 <= k < |a| && InRun(a[k], i);
      assert InRun(all[k], i);
    }
    if Covered(b, i) {
      var k :| 0 <= k < |b| && InRun(b[k], i);
      assert InRun(all[|a| + k], i);
    }
  }

  lemma CoveredMoved(step: seq<Run>, moved: seq<Run>, mid: int, i: int)
    requires |moved| == |step| && forall k :: 0 <= k < |step| ==> moved[k] == (step[k].0 + mid, step[k].1)
    ensures Covered(moved, i) <==> Covered(step, i - mid)
  {
    if Covered(step, i - mid) {
      var k :| 0 <= k < |step| && InRun(step[k], i - mid);
      assert InRun(moved[k], i);
    }
    if Covered(moved, i) {
      var k :| 0 <= k < |moved| && InRun(moved[k], i);
      assert InRun(step[k], i - mid);
    }
  }

  /** The runs of the next window, moved to where that window starts, continue the pieces. */
  lemma AppendPieces(s: set<int>, mid: int, n: int, runs: seq<Run>, t: set<int>, step: seq<Run>, moved: seq<Run>)
    requires 0 <= mid && 0 <= n
    requires IsPieces(s, 0, mid, runs) && IsRuns(t, 0, n, step)
    requires Shifted(s, mid, n, t)
    requires |moved| == |step| && forall k :: 0 <= k < |step| ==> moved[k] == (step[k].0 + mid, step[k].1)
    ensures IsPieces(s, 0, mid + n, runs + moved)
  {
    forall i | 0 <= i < mid + n ensures i in s <==> Covered(runs + moved, i) {
      CoveredConcat(runs, moved, i);
      CoveredMoved(step, moved, mid, i);
      if i >= mid { assert (i - mid) in t <==> MemberAt(s, mid, i - mid); }
    }
  }

  /** Between two neighbouring runs, before the first and after the last there is no member. */
  lemma NoMemberBetween(t: set<int>, n: int, step: seq<Run>, k: int, j: int)
    requires IsRuns(t, 0, n, step) && 0 <= k <= |step|
    requires (if k == 0 then 0 else step[k - 1].0 + step[k - 1].1) <= j < (if k == |step| then n else step[k].0)
    ensures j !in t
  {
    assert forall i :: 0 <= i < |step| ==> !InRun(step[i], j);
  }
}
