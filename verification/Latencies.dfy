/** The latency statistics of trace/backend/internal/store/store.go, over exact numbers. */
module Latencies {
  import opened Sorting

  predicate RealLe(x: real, y: real) {
    x <= y
  }

  /** int(x): truncation towards zero. */
  function Truncate(x: real): int {
    if x >= 0.0 then x.Floor else -(-x).Floor
  }

  /** The index percentile picks among n samples, after clamping. */
  function Rank(n: nat, pct: real): nat
    requires n > 0
  {
    var idx := Truncate((n - 1) as real * pct);
    if idx < 0 then 0 else if idx >= n then n - 1 else idx
  }

  function PercentileOf(values: seq<real>, pct: real): real {
    if values == [] then 0.0
    else
      SortMultiset(values, RealLe);
      Sort(values, RealLe)[Rank(|values|, pct)]
  }

  /** percentile: sorts a copy and picks by rank. */
  method Percentile(values: seq<real>, pct: real) returns (r: real)
    ensures r == PercentileOf(values, pct)
  {
    if |values| == 0 {
      return 0.0;
    }
    var cp := Sort(values, RealLe);
    SortMultiset(values, RealLe);
    var idx := Truncate((|cp| - 1) as real * pct);
    if idx < 0 {
      idx := 0;
    }
    if idx >= |cp| {
      idx := |cp| - 1;
    }
    return cp[idx];
  }

  method MinSlice(values: seq<real>) returns (min: real)
    ensures values == [] ==> min == 0.0
    ensures values != [] ==> min in values && forall v :: v in values ==> min <= v
  {
    if |values| == 0 {
      return 0.0;
    }
    min := values[0];
    for i := 1 to |values|
      invariant min in values && forall j :: 0 <= j < i ==> min <= values[j]
    {
      if values[i] < min {
        min := values[i];
      }
    }
  }

  method MaxSlice(values: seq<real>) returns (max: real)
    ensures values == [] ==> max == 0.0
    ensures values != [] ==> max in values && forall v :: v in values ==> v <= max
  {
    if |values| == 0 {
      return 0.0;
    }
    max := values[0];
    for i := 1 to |values|
      invariant max in values && forall j :: 0 <= j < i ==> values[j] <= max
    {
      if values[i] > max {
        max := values[i];
      }
    }
  }

  function Sum(values: seq<real>): real {
    if values == [] then 0.0 else Sum(values[..|values| - 1]) + values[|values| - 1]
  }

  /** avgSlice: the mean. */
  method AvgSlice(values: seq<real>) returns (avg: real)
    ensures values == [] ==> avg == 0.0
    ensures avg * |values| as real == Sum(values)
  {
    if |values| == 0 {
      return 0.0;
    }
    var sum := 0.0;
    for i := 0 to |values|
      invariant sum == Sum(values[..i])
    {
      assert values[..i + 1][..i] == values[..i];
      sum := sum + values[i];
    }
    assert values[..|values|] == values;
    avg := sum / |values| as real;
  }

  ghost predicate Within(values: seq<real>, lo: real, hi: real) {
    forall i :: 0 <= i < |values| ==> lo <= values[i] <= hi
  }

  lemma {:induction false} SumBounds(values: seq<real>, lo: real, hi: real)
    requires Within(values, lo, hi)
    ensures lo * |values| as real <= Sum(values) <= hi * |values| as real
  {
    if values != [] {
      var head, last := values[..|values| - 1], values[|values| - 1];
      SumBounds(head, lo, hi);
      var n := |head| as real;
      assert |values| as real == n + 1.0;
      OneMore(lo, n);
      OneMore(hi, n);
    }
  }

  lemma OneMore(x: real, n: real)
    ensures x * (n + 1.0) == x * n + x
  {
  }

  /** The mean of non-empty samples lies between their minimum and maximum. */
  lemma AverageWithin(values: seq<real>, min: real, max: real, avg: real)
    requires values != [] && Within(values, min, max)
    requires avg * |values| as real == Sum(values)
    ensures min <= avg <= max
  {
    SumBounds(values, min, max);
    QuotientBounds(Sum(values), |values| as real, min, max, avg);
  }

  lemma QuotientBounds(sum: real, n: real, lo: real, hi: real, q: real)
    requires n > 0.0 && lo * n <= sum && sum <= hi * n && q * n == sum
    ensures lo <= q <= hi
  {
    ScaledOrder(lo, q, n);
    ScaledOrder(q, hi, n);
  }

  lemma ScaledOrder(x: real, y: real, n: real)
    requires n > 0.0 && x * n <= y * n
    ensures x <= y
  {
  }

  // ---- What the picked sample is ----

  lemma RealOrder()
    ensures TotalOrder(RealLe)
  {
  }

  function CountIf(values: seq<real>, f: real -> bool): nat {
    if values == [] then 0 else (if f(values[0]) then 1 else 0) + CountIf(values[1..], f)
  }

  function NotAbove(r: real): real -> bool {
    v => v <= r
  }

  function NotBelow(r: real): real -> bool {
    v => v >= r
  }

  lemma {:induction false} CountWithout(values: seq<real>, i: nat, f: real -> bool)
    requires i < |values|
    ensures CountIf(values, f) == CountIf(values[..i] + values[i + 1..], f) + if f(values[i]) then 1 else 0
  {
    var rest := values[..i] + values[i + 1..];
    if i > 0 {
      CountWithout(values[1..], i - 1, f);
      assert rest[1..] == values[1..][..i - 1] + values[1..][i..];
      assert values[1..][i - 1 + 1..] == values[i + 1..];
    } else {
      assert rest == values[1..];
    }
  }

  lemma WithoutOne(values: seq<real>, i: nat)
    requires i < |values|
    ensures multiset(values[..i] + values[i + 1..]) == multiset(values) - multiset{values[i]}
  {
    assert values == values[..i] + [values[i]] + values[i + 1..];
  }

  lemma CountFirstOne(values: seq<real>, f: real -> bool)
    requires values != []
    ensures CountIf(values, f) == (if f(values[0]) then 1 else 0) + CountIf(values[1..], f)
  {
  }

  /** Counting does not depend on the order of the samples. */
  lemma {:induction false} CountPermuted(a: seq<real>, b: seq<real>, f: real -> bool)
    requires multiset(a) == multiset(b)
    ensures CountIf(a, f) == CountIf(b, f)
  {
    if a == [] {
      assert |multiset(b)| == |b|;
    } else {
      assert a[0] in multiset(b);
      var i :| 0 <= i < |b| && b[i] == a[0];
      var rest := b[..i] + b[i + 1..];
      CountWithout(b, i, f);
      TailMultiset(a);
      WithoutOne(b, i);
      hide CountIf;
      CountPermuted(a[1..], rest, f);
      CountFirstOne(a, f);
    }
  }

  lemma {:induction false} CountFirst(s: seq<real>, k: nat, f: real -> bool)
    requires k <= |s| && forall i :: 0 <= i < k ==> f(s[i])
    ensures CountIf(s, f) >= k
  {
    if k > 0 {
      CountFirst(s[1..], k - 1, f);
    }
  }

  lemma {:induction false} CountLast(s: seq<real>, k: nat, f: real -> bool)
    requires k <= |s| && forall i :: k <= i < |s| ==> f(s[i])
    ensures CountIf(s, f) >= |s| - k
  {
    if s != [] {
      CountLast(s[1..], if k > 0 then k - 1 else 0, f);
    }
  }

  lemma RankInRange(n: nat, pct: real)
    requires n > 0 && 0.0 <= pct <= 1.0
    ensures Rank(n, pct) == ((n - 1) as real * pct).Floor && Rank(n, pct) < n
  {
    var m := (n - 1) as real;
    Fraction(m, pct);
    assert (m * pct).Floor <= n - 1;
  }

  lemma Fraction(m: real, pct: real)
    requires 0.0 <= m && 0.0 <= pct <= 1.0
    ensures 0.0 <= m * pct <= m
  {
  }

  /** The sample at position `k` of the sorted samples has k + 1 samples not above it and
      all but k not below it. */
  lemma SampleAtRank(values: seq<real>, k: nat)
    requires k < |values|
    ensures |Sort(values, RealLe)| == |values|
    ensures var r := Sort(values, RealLe)[k];
            r in values && CountIf(values, NotAbove(r)) >= k + 1 && CountIf(values, NotBelow(r)) >= |values| - k
  {
    var s := Sort(values, RealLe);
    RealOrder();
    SortIsSorted(values, RealLe);
    SortMultiset(values, RealLe);
    var r := s[k];
    assert r in multiset(s) && r in multiset(values);
    SortedSplit(s, k);
    CountFirst(s, k + 1, NotAbove(r));
    CountLast(s, k, NotBelow(r));
    CountPermuted(s, values, NotAbove(r));
    CountPermuted(s, values, NotBelow(r));
  }

  lemma SortedSplit(s: seq<real>, k: nat)
    requires Sorted(s, RealLe) && k < |s|
    ensures forall i :: 0 <= i < k + 1 ==> NotAbove(s[k])(s[i])
    ensures forall i :: k <= i < |s| ==> NotBelow(s[k])(s[i])
  {
    forall i | 0 <= i < k ensures s[i] <= s[k] {
      assert RealLe(s[i], s[k]);
    }
    forall i | k < i < |s| ensures s[i] >= s[k] {
      assert RealLe(s[k], s[i]);
    }
  }

  /** Rank guarantee: for n samples and 0 <= p <= 1, the result is a sample with at least
      floor((n-1)p) + 1 samples not above it and n - floor((n-1)p) not below it. */
  lemma PercentileRank(values: seq<real>, pct: real)
    requires values != [] && 0.0 <= pct <= 1.0
    ensures var r := PercentileOf(values, pct);
            var k := ((|values| - 1) as real * pct).Floor;
            && r in values
            && CountIf(values, NotAbove(r)) >= k + 1
            && CountIf(values, NotBelow(r)) >= |values| - k
  {
    hide Rank, Sort, CountIf, NotAbove, NotBelow;
    RankInRange(|values|, pct);
    SampleAtRank(values, Rank(|values|, pct));
  }

  /** The order in which samples arrived does not matter. */
  lemma PercentilePermuted(a: seq<real>, b: seq<real>, pct: real)
    requires multiset(a) == multiset(b)
    ensures PercentileOf(a, pct) == PercentileOf(b, pct)
  {
    RealOrder();
    SortIsSorted(a, RealLe);
    SortIsSorted(b, RealLe);
    SortMultiset(a, RealLe);
    SortMultiset(b, RealLe);
    SortedIsUnique(Sort(a, RealLe), Sort(b, RealLe), RealLe);
    assert |multiset(a)| == |a| && |multiset(b)| == |b|;
  }

  lemma RankMonotone(n: nat, p: real, q: real)
    requires n > 0 && p <= q
    ensures Rank(n, p) <= Rank(n, q)
  {
    var m := (n - 1) as real;
    Scaled(m, p, q);
    TruncateMonotone(m * p, m * q);
  }

  lemma Scaled(m: real, p: real, q: real)
    requires m >= 0.0 && p <= q
    ensures m * p <= m * q
  {
  }

  lemma TruncateMonotone(x: real, y: real)
    requires x <= y
    ensures Truncate(x) <= Truncate(y)
  {
    if x < 0.0 && 0.0 <= y {
      assert (-x).Floor >= 0;
    }
  }

  /** A higher percentile is never lower, for any two percentages, in range or not. */
  lemma PercentileMonotone(values: seq<real>, p: real, q: real)
    requires p <= q
    ensures PercentileOf(values, p) <= PercentileOf(values, q)
  {
    if values != [] {
      RealOrder();
      SortIsSorted(values, RealLe);
      SortMultiset(values, RealLe);
      RankMonotone(|values|, p, q);
      var s := Sort(values, RealLe);
      assert Rank(|s|, p) < Rank(|s|, q) ==> RealLe(s[Rank(|s|, p)], s[Rank(|s|, q)]);
    }
  }

  /** The result is a sample; at or below zero a least one, at or above one a greatest one. */
  lemma PercentileEnds(values: seq<real>, pct: real)
    requires values != []
    ensures PercentileOf(values, pct) in values
    ensures pct <= 0.0 ==> forall v :: v in values ==> PercentileOf(values, pct) <= v
    ensures pct >= 1.0 ==> forall v :: v in values ==> v <= PercentileOf(values, pct)
  {
    var n, s := |values|, Sort(values, RealLe);
    SortedMembers(values);
    RankEnds(n, pct);
    hide Rank, Sort;
    forall v | v in values ensures s[0] <= v <= s[n - 1] {
      SortedEnds(s, v);
    }
  }

  lemma SortedMembers(values: seq<real>)
    ensures var s := Sort(values, RealLe);
            |s| == |values| && Sorted(s, RealLe) && forall v :: v in s <==> v in values
  {
    RealOrder();
    SortIsSorted(values, RealLe);
    SortMultiset(values, RealLe);
    forall v ensures v in Sort(values, RealLe) <==> v in values {
      assert v in multiset(Sort(values, RealLe)) <==> v in multiset(values);
    }
  }

  lemma SortedEnds(s: seq<real>, v: real)
    requires Sorted(s, RealLe) && v in s
    ensures s[0] <= v <= s[|s| - 1]
  {
    var i :| 0 <= i < |s| && s[i] == v;
    assert i > 0 ==> RealLe(s[0], s[i]);
    assert i < |s| - 1 ==> RealLe(s[i], s[|s| - 1]);
  }

  lemma RankEnds(n: nat, pct: real)
    requires n > 0
    ensures pct <= 0.0 ==> Rank(n, pct) == 0
    ensures pct >= 1.0 ==> Rank(n, pct) == n - 1
  {
    var m := (n - 1) as real;
    if pct <= 0.0 {
      Scaled(m, pct, 0.0);
      TruncateMonotone(m * pct, 0.0);
    }
    if pct >= 1.0 {
      Scaled(m, 1.0, pct);
      TruncateMonotone(m, m * pct);
    }
  }
}
