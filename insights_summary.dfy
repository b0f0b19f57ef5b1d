/**
 * The two computations of `InsightsSummary`
 * (src/components/InsightsSummary.tsx): the baseline, which is the value at
 * index `floor(n / 2)` of the anomalies' values sorted ascending (0 when
 * there are none), and the `+` prefix of the percent change against it.
 */
module InsightsSummary {
  import opened Numbers
  import opened Sequences
  import opened AnomalyDetector

  // --- Sorting the copied values ---------------------------------------------

  ghost predicate Ascending(s: seq<real>) {
    forall i, j :: 0 <= i < j < |s| ==> s[i] <= s[j]
  }

  /** The prefix `a[..i]` is sorted, except that `a[j]` may be out of place; `a[j]` is below everything after it up to `i`. */
  ghost predicate SiftingDown(a: seq<real>, i: int, j: int)
    requires 0 <= j <= i < |a|
  {
    && (forall k, l :: 0 <= k < l <= i && k != j && l != j ==> a[k] <= a[l])
    && (forall l :: j < l <= i ==> a[j] <= a[l])
  }

  /**
   * The numeric sort of the copied values: the array is sorted in place,
   * ascending, by insertion with adjacent swaps.
   */
  method SortAscending(a: array<real>)
    modifies a
    ensures Ascending(a[..])
    ensures multiset(a[..]) == multiset(old(a[..]))
  {
    if a.Length == 0 {
      return;
    }
    for i := 1 to a.Length
      invariant Ascending(a[..i])
      invariant multiset(a[..]) == multiset(old(a[..]))
    {
      SiftDown(a, i);
    }
    assert a[..] == a[..a.Length];
  }

  /** Moves `a[i]` left past every larger element, so that `a[..i + 1]` becomes sorted. */
  method SiftDown(a: array<real>, i: int)
    requires 0 < i < a.Length && Ascending(a[..i])
    modifies a
    ensures Ascending(a[..i + 1])
    ensures multiset(a[..]) == multiset(old(a[..]))
  {
    var j := i;
    SiftStart(a[..], i);
    while j > 0 && a[j - 1] > a[j]
      invariant 0 <= j <= i
      invariant SiftingDown(a[..], i, j)
      invariant multiset(a[..]) == multiset(old(a[..]))
      decreases j
    {
      ghost var before := a[..];
      a[j - 1], a[j] := a[j], a[j - 1];
      assert a[..] == before[j - 1 := before[j]][j := before[j - 1]];
      SwapStep(before, i, j);
      SwapKeepsMultiset(before, j - 1, j);
      j := j - 1;
    }
    SiftDone(a[..], i, j);
  }

  lemma SiftStart(s: seq<real>, i: int)
    requires 0 < i < |s| && Ascending(s[..i])
    ensures SiftingDown(s, i, i)
  {
    forall k, l | 0 <= k < l <= i && k != i && l != i ensures s[k] <= s[l] {
      assert s[k] == s[..i][k] && s[l] == s[..i][l];
    }
  }

  lemma SwapStep(s: seq<real>, i: int, j: int)
    requires 0 < j <= i < |s| && SiftingDown(s, i, j) && s[j - 1] > s[j]
    ensures SiftingDown(s[j - 1 := s[j]][j := s[j - 1]], i, j - 1)
  {
  }

  lemma SwapKeepsMultiset(s: seq<real>, x: int, y: int)
    requires 0 <= x < |s| && 0 <= y < |s|
    ensures multiset(s[x := s[y]][y := s[x]]) == multiset(s)
  {
  }

  lemma SiftDone(s: seq<real>, i: int, j: int)
    requires 0 <= j <= i < |s| && SiftingDown(s, i, j)
    requires j == 0 || s[j - 1] <= s[j]
    ensures Ascending(s[..i + 1])
  {
    forall k, l | 0 <= k < l <= i ensures s[k] <= s[l] {
      if l == j && k < j - 1 {
        assert s[k] <= s[j - 1];
      }
    }
  }

  /** Two ascending sequences with the same elements are equal. */
  lemma {:induction false} AscendingUnique(s: seq<real>, t: seq<real>)
    requires Ascending(s) && Ascending(t)
    requires multiset(s) == multiset(t)
    ensures s == t
  {
    assert |s| == |multiset(s)| == |multiset(t)| == |t|;
    if |s| > 0 {
      LeastFirst(s, t);
      LeastFirst(t, s);
      RemoveFirst(s);
      RemoveFirst(t);
      AscendingUnique(s[1..], t[1..]);
      assert s == [s[0]] + s[1..] && t == [t[0]] + t[1..];
    }
  }

  /** The first element of an ascending sequence is at most every element of a permutation of it. */
  lemma LeastFirst(s: seq<real>, t: seq<real>)
    requires Ascending(s) && |t| > 0 && multiset(s) == multiset(t)
    ensures |s| > 0 && s[0] <= t[0]
  {
    assert t[0] in multiset(s);
    var j :| 0 <= j < |s| && s[j] == t[0];
  }

  lemma RemoveFirst(s: seq<real>)
    requires Ascending(s) && |s| > 0
    ensures Ascending(s[1..])
    ensures multiset(s[1..]) == multiset(s) - multiset{s[0]}
  {
    assert s == [s[0]] + s[1..];
  }

  // --- The baseline ----------------------------------------------------------

  function Id(x: real): real {
    x
  }

  /** The value of each anomaly, in order. */
  function AnomalyValues(anomalies: seq<DataPoint>): (vs: seq<real>)
    ensures |vs| == |anomalies|
    ensures forall i :: 0 <= i < |anomalies| ==> vs[i] == anomalies[i].value
  {
    Values(Observations(anomalies))
  }

  /** The values sorted ascending. */
  function Sorted(values: seq<real>): (r: seq<real>)
    ensures Ascending(r) && multiset(r) == multiset(values)
  {
    SortBy(values, Id)
  }

  /** The median-like baseline: the upper middle of the sorted values, 0 for none. */
  function Baseline(values: seq<real>): real {
    if |values| == 0 then 0.0 else Sorted(values)[|values| / 2]
  }

  /**
   * Lines 22-25 as written: map the anomalies to a fresh array, sort that
   * copy, and read index `floor(n / 2)`. The anomalies themselves are a
   * value and cannot be reordered.
   */
  method ComputeBaseline(anomalies: seq<DataPoint>) returns (b: real)
    ensures b == Baseline(AnomalyValues(anomalies))
  {
    var n := |anomalies|;
    if n == 0 {
      return 0.0;
    }
    var allValues := new real[n](i requires 0 <= i < n => anomalies[i].value);
    assert allValues[..] == AnomalyValues(anomalies);
    SortAscending(allValues);
    AscendingUnique(allValues[..], Sorted(AnomalyValues(anomalies)));
    b := allValues[n / 2];
  }

  /** The baseline depends only on which values occur how often, not on their order. */
  lemma BaselineIgnoresOrder(s: seq<real>, t: seq<real>)
    requires multiset(s) == multiset(t)
    ensures Baseline(s) == Baseline(t)
  {
    assert |s| == |multiset(s)| == |multiset(t)| == |t|;
    AscendingUnique(Sorted(s), Sorted(t));
  }

  /** `p` holds at positions `lo` to `hi - 1`, so it holds at least `hi - lo` times. */
  lemma {:induction false} CountRun(s: seq<real>, p: real -> bool, lo: nat, hi: nat)
    requires lo <= hi <= |s|
    requires forall i :: lo <= i < hi ==> p(s[i])
    ensures Count(s, p) >= hi - lo
  {
    if lo < hi {
      if lo > 0 {
        CountRun(s[1..], p, lo - 1, hi - 1);
      } else {
        CountRun(s[1..], p, 0, hi - 1);
      }
    }
  }

  /** The test `x <= b`. */
  function NotAbove(b: real): real -> bool {
    x => x <= b
  }

  /** The test `x >= b`. */
  function NotBelow(b: real): real -> bool {
    x => x >= b
  }

  /**
   * With some values, the baseline is one of them, at least `floor(n / 2) + 1`
   * values are at most it and at least `n - floor(n / 2)` at least it.
   */
  lemma BaselineIsMedian(values: seq<real>)
    requires |values| > 0
    ensures Baseline(values) in values
    ensures Count(values, NotAbove(Baseline(values))) >= |values| / 2 + 1
    ensures Count(values, NotBelow(Baseline(values))) >= |values| - |values| / 2
  {
    var r, n := Sorted(values), |values|;
    var b := r[n / 2];
    assert b == Baseline(values);
    assert b in multiset(r);
    AscendingCounts(r, n / 2);
    CountPermutation(r, values, NotAbove(b));
    CountPermutation(r, values, NotBelow(b));
  }

  /** In an ascending sequence, the element at `m` has `m + 1` elements at most it and `|r| - m` at least it. */
  lemma AscendingCounts(r: seq<real>, m: nat)
    requires Ascending(r) && m < |r|
    ensures Count(r, NotAbove(r[m])) >= m + 1
    ensures Count(r, NotBelow(r[m])) >= |r| - m
  {
    var b := r[m];
    forall i | 0 <= i < m + 1 ensures NotAbove(b)(r[i]) {
      assert r[i] <= b;
    }
    forall i | m <= i < |r| ensures NotBelow(b)(r[i]) {
      assert r[i] >= b;
    }
    CountRun(r, NotAbove(b), 0, m + 1);
    CountRun(r, NotBelow(b), m, |r|);
  }

  // --- The percent change ----------------------------------------------------

  /** The change against the baseline, relative to it, in percent, with JavaScript's division by zero. */
  function PercentChange(value: real, baseline: real): Number {
    Scale(Divide(value - baseline, baseline), 100.0)
  }

  /**
   * The change as text: a `+` before strictly positive changes, then the
   * digits that `fixed` (standing for `toFixed(1)`, not modelled) gives, then `%`.
   */
  function PercentLabel(value: real, baseline: real, fixed: Number -> string): (text: string)
    ensures |text| > 0 && text[|text| - 1] == '%'
  {
    var change := PercentChange(value, baseline);
    (if GreaterThan(change, 0.0) then "+" else "") + fixed(change) + "%"
  }

  /**
   * The label carries a `+` exactly when the change is strictly positive:
   * the value is above a non-negative baseline (a zero baseline gives
   * `Infinity`), or below a negative one.
   */
  lemma PlusPrefix(value: real, baseline: real, fixed: Number -> string)
    requires forall n :: fixed(n) == "" || fixed(n)[0] != '+'
    ensures var text := PercentLabel(value, baseline, fixed);
            text[0] == '+' <==> (value > baseline && baseline >= 0.0) || (value < baseline && baseline < 0.0)
  {
    var q := Divide(value - baseline, baseline);
    DividePositive(value - baseline, baseline);
    ScalePositive(q, 100.0);
    var change := PercentChange(value, baseline);
    if !GreaterThan(change, 0.0) {
      var f := fixed(change);
      assert PercentLabel(value, baseline, fixed) == f + "%";
      if |f| == 0 {
        assert PercentLabel(value, baseline, fixed) == "%";
      }
    }
  }

  /** A value equal to a non-zero baseline is a change of exactly 0%. */
  lemma NoChangeAtBaseline(baseline: real)
    requires baseline != 0.0
    ensures PercentChange(baseline, baseline) == Finite(0.0)
  {
  }

  /** The baseline of no anomalies is 0, so every change against it is infinite or `NaN`. */
  lemma EmptyBaselineIsZero(value: real)
    ensures Baseline(AnomalyValues([])) == 0.0
    ensures !PercentChange(value, Baseline(AnomalyValues([]))).Finite?
  {
  }
}
