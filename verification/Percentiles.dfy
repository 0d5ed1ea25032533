/**
 * internal/perf percentiles: the nearest-rank percentile of a sample set, and how the percentile
 * of a merged set relates to those of its parts.
 */
module Percentiles {
  predicate Sorted(s: seq<int>) {
    forall i, j :: 0 <= i < j < |s| ==> s[i] <= s[j]
  }

  function Insert(s: seq<int>, x: int): (r: seq<int>)
    requires Sorted(s)
    ensures Sorted(r) && multiset(r) == multiset(s) + multiset{x}
  {
    if s == [] then [x]
    else if x <= s[0] then [x] + s
    else
      var rest := Insert(s[1..], x);
      BoundedBelow(s[1..], rest, x, s[0]);
      assert s == [s[0]] + s[1..];
      [s[0]] + rest
  }

  lemma BoundedBelow(s: seq<int>, r: seq<int>, x: int, low: int)
    requires multiset(r) == multiset(s) + multiset{x} && low <= x
    requires forall i :: 0 <= i < |s| ==> low <= s[i]
    ensures forall i :: 0 <= i < |r| ==> low <= r[i]
  {
    forall i | 0 <= i < |r| ensures low <= r[i] {
      assert r[i] in multiset(r);
      assert r[i] in multiset(s) ==> r[i] in s;
    }
  }

  /** sort.Slice by value: the one sorted arrangement of the samples. */
  function Sort(s: seq<int>): (r: seq<int>)
    ensures Sorted(r) && multiset(r) == multiset(s) && |r| == |s|
  {
    if s == [] then []
    else
      assert s == s[..|s| - 1] + [s[|s| - 1]];
      var r := Insert(Sort(s[..|s| - 1]), s[|s| - 1]);
      assert |multiset(r)| == |multiset(s)|;
      r
  }

  function Ceil(x: real): int {
    -((-x).Floor)
  }

  /** ceil(q * n), with the clamps the code has. */
  function Rank(quantile: real, n: nat): (rank: nat)
    requires n > 0
    ensures 1 <= rank <= n
  {
    var exact := Ceil(quantile * n as real);
    var atLeastOne := if exact < 1 then 1 else exact;
    if atLeastOne > n then n else atLeastOne
  }

  /** percentile: the sample of that rank. */
  function Percentile(sorted: seq<int>, quantile: real): int {
    if sorted == [] then 0
    else if quantile <= 0.0 then sorted[0]
    else if quantile >= 1.0 then sorted[|sorted| - 1]
    else sorted[Rank(quantile, |sorted|) - 1]
  }

  function PercentileOf(samples: seq<int>, quantile: real): int {
    Percentile(Sort(samples), quantile)
  }

  /** How many samples are at most `x`. */
  function AtMost(s: seq<int>, x: int): (n: nat)
    ensures n <= |s|
  {
    if s == [] then 0 else (if s[0] <= x then 1 else 0) + AtMost(s[1..], x)
  }

  lemma {:induction false} AtMostConcat(a: seq<int>, b: seq<int>, x: int)
    ensures AtMost(a + b, x) == AtMost(a, x) + AtMost(b, x)
  {
    if a == [] {
      assert a + b == b;
    } else {
      assert (a + b)[1..] == a[1..] + b;
      AtMostConcat(a[1..], b, x);
    }
  }

  lemma {:induction false} AtMostOfSame(a: seq<int>, b: seq<int>, x: int)
    requires multiset(a) == multiset(b)
    ensures AtMost(a, x) == AtMost(b, x)
    decreases |a|
  {
    if a == [] {
      assert |multiset(b)| == 0;
    } else {
      assert a[0] in multiset(a);
      var i :| 0 <= i < |b| && b[i] == a[0];
      var before, after := b[..i], b[i + 1..];
      SameWithout(a, b, i);
      AtMostOfSame(a[1..], before + after, x);
      AtMostConcat(before, [b[i]] + after, x);
      AtMostConcat([b[i]], after, x);
      AtMostConcat(before, after, x);
      assert b == before + ([b[i]] + after);
    }
  }

  lemma SameWithout(a: seq<int>, b: seq<int>, i: nat)
    requires a != [] && i < |b| && b[i] == a[0] && multiset(a) == multiset(b)
    ensures multiset(a[1..]) == multiset(b[..i] + b[i + 1..])
  {
    assert a == [a[0]] + a[1..];
    assert b == b[..i] + [b[i]] + b[i + 1..];
    assert multiset(a[1..]) == multiset(a) - multiset{a[0]};
    assert multiset(b[..i] + b[i + 1..]) == multiset(b) - multiset{b[i]};
  }

  lemma {:induction false} SortedAtMost(s: seq<int>, x: int, k: nat)
    requires Sorted(s) && k < |s|
    ensures s[k] <= x <==> AtMost(s, x) > k
  {
    if s[0] > x {
      NoneAtMost(s, x);
    } else if k > 0 {
      SortedAtMost(s[1..], x, k - 1);
    }
  }

  lemma {:induction false} NoneAtMost(s: seq<int>, x: int)
    requires forall i :: 0 <= i < |s| ==> s[i] > x
    ensures AtMost(s, x) == 0
  {
    if s != [] {
      NoneAtMost(s[1..], x);
    }
  }

  /** The share `q` of `n` samples, added up one sample at a time. */
  function Share(q: real, n: nat): real {
    if n == 0 then 0.0 else Share(q, n - 1) + q
  }

  lemma {:induction false} ShareIsProduct(q: real, n: nat)
    ensures Share(q, n) == q * n as real
  {
    if n > 0 {
      ShareIsProduct(q, n - 1);
      assert q * n as real == q * (n - 1) as real + q;
    }
  }

  lemma {:induction false} ShareOfSum(q: real, a: nat, b: nat)
    ensures Share(q, a + b) == Share(q, a) + Share(q, b)
  {
    if b > 0 {
      ShareOfSum(q, a, b - 1);
    }
  }

  lemma {:induction false} ShareInRange(q: real, n: nat)
    requires n > 0 && 0.0 < q <= 1.0
    ensures 0.0 < Share(q, n) <= n as real
  {
    if n > 1 {
      ShareInRange(q, n - 1);
    }
  }

  /** At least the share `q` of the samples is within `x`. */
  predicate Reaches(samples: seq<int>, q: real, x: int) {
    AtMost(samples, x) as real >= Share(q, |samples|)
  }

  lemma {:induction false} RankOf(q: real, n: nat, count: nat)
    requires n > 0 && 0.0 < q <= 1.0
    ensures count >= Rank(q, n) <==> count as real >= Share(q, n)
  {
    ShareInRange(q, n);
    ShareIsProduct(q, n);
  }

  lemma SortedPercentileIsLeast(sorted: seq<int>, q: real, x: int)
    requires Sorted(sorted) && sorted != [] && 0.0 < q <= 1.0
    ensures Percentile(sorted, q) <= x <==> Reaches(sorted, q, x)
  {
    RankOf(q, |sorted|, AtMost(sorted, x));
    SortedAtMost(sorted, x, Rank(q, |sorted|) - 1);
  }

  /** The percentile is the least latency that at least a share `q` of the samples stays within. */
  lemma PercentileIsLeast(samples: seq<int>, q: real, x: int)
    requires samples != [] && 0.0 < q <= 1.0
    ensures PercentileOf(samples, q) <= x <==> Reaches(samples, q, x)
  {
    SortedPercentileIsLeast(Sort(samples), q, x);
    AtMostOfSame(samples, Sort(samples), x);
  }

  /** The shares outside the scale give the least and the greatest sample, and no samples give zero. */
  lemma PercentileEnds(samples: seq<int>, q: real)
    ensures samples == [] ==> PercentileOf(samples, q) == 0
    ensures samples != [] && q <= 0.0 ==>
              PercentileOf(samples, q) in samples && forall x :: x in samples ==> PercentileOf(samples, q) <= x
    ensures samples != [] && q >= 1.0 ==>
              PercentileOf(samples, q) in samples && forall x :: x in samples ==> x <= PercentileOf(samples, q)
  {
    var sorted := Sort(samples);
    if samples != [] {
      SortKeepsMembers(samples, sorted[0]);
      SortKeepsMembers(samples, sorted[|sorted| - 1]);
      forall x | x in samples ensures sorted[0] <= x <= sorted[|sorted| - 1] {
        SortKeepsMembers(samples, x);
        var i :| 0 <= i < |sorted| && sorted[i] == x;
      }
    }
  }

  lemma {:induction false} SortKeepsMembers(samples: seq<int>, x: int)
    ensures x in Sort(samples) <==> x in samples
  {
    assert x in multiset(Sort(samples)) <==> x in multiset(samples);
  }

  function Merged(groups: seq<seq<int>>): seq<int> {
    if groups == [] then [] else groups[0] + Merged(groups[1..])
  }

  lemma {:induction false} SharesReached(groups: seq<seq<int>>, q: real, x: int)
    requires forall g :: g in groups ==> Reaches(g, q, x)
    ensures Reaches(Merged(groups), q, x)
  {
    if groups != [] {
      var rest := Merged(groups[1..]);
      assert Reaches(groups[0], q, x);
      SharesReached(groups[1..], q, x);
      AtMostConcat(groups[0], rest, x);
      ShareOfSum(q, |groups[0]|, |rest|);
    }
  }

  lemma {:induction false} SharesMissed(groups: seq<seq<int>>, q: real, x: int)
    requires groups != [] && forall g :: g in groups ==> !Reaches(g, q, x)
    ensures !Reaches(Merged(groups), q, x)
  {
    var rest := Merged(groups[1..]);
    assert !Reaches(groups[0], q, x);
    if |groups| > 1 {
      SharesMissed(groups[1..], q, x);
    }
    AtMostConcat(groups[0], rest, x);
    ShareOfSum(q, |groups[0]|, |rest|);
  }

  /**
   * The percentile of merged samples lies between the smallest and the largest percentile of the
   * groups: it respects every bound that all of them respect.
   */
  lemma {:induction false} MergedPercentileBetween(
      samples: seq<int>, groups: seq<seq<int>>, q: real, low: int, high: int)
    requires 0.0 < q <= 1.0 && groups != [] && forall g :: g in groups ==> g != []
    requires multiset(samples) == multiset(Merged(groups))
    requires forall g :: g in groups ==> low <= PercentileOf(g, q) <= high
    ensures low <= PercentileOf(samples, q) <= high
  {
    var merged := Merged(groups);
    assert |samples| == |multiset(samples)| == |multiset(merged)| == |merged|;
    assert groups[0] in groups && groups[0] != [];
    MergedReaches(groups, q, low, high);
    AtMostOfSame(samples, merged, high);
    AtMostOfSame(samples, merged, low - 1);
    PercentileIsLeast(samples, q, high);
    PercentileIsLeast(samples, q, low - 1);
  }

  lemma {:induction false} MergedReaches(groups: seq<seq<int>>, q: real, low: int, high: int)
    requires 0.0 < q <= 1.0 && groups != [] && forall g :: g in groups ==> g != []
    requires forall g :: g in groups ==> low <= PercentileOf(g, q) <= high
    ensures Reaches(Merged(groups), q, high) && !Reaches(Merged(groups), q, low - 1)
  {
    forall g | g in groups ensures Reaches(g, q, high) && !Reaches(g, q, low - 1) {
      PercentileIsLeast(g, q, high);
      PercentileIsLeast(g, q, low - 1);
    }
    SharesReached(groups, q, high);
    SharesMissed(groups, q, low - 1);
  }
}
