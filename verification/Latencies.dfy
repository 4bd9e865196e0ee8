/** Interpolated latency percentiles over a ring's entries. Floats are modelled as reals. */
module Latencies {
  import opened Wrappers
  import opened Ring
  import opened Sorting

  datatype Latency = Latency(p50: real, p90: real, p95: real, p99: real)

  predicate Eligible(e: Entry) {
    e.success && !e.infraError
  }

  function Durations(entries: seq<Entry>): seq<real> {
    if entries == [] then []
    else Durations(entries[..|entries| - 1]) +
         (if Eligible(entries[|entries| - 1]) then [entries[|entries| - 1].durationMs] else [])
  }

  predicate RealLeq(a: real, b: real) {
    a <= b
  }

  ghost predicate Ascending(s: seq<real>) {
    SortedBy(s, RealLeq)
  }

  lemma RealLeqIsTotalPreorder()
    ensures TotalPreorder(RealLeq)
  {
  }

  function Index(n: nat, p: real): real {
    p * (n - 1) as real
  }

  function Percentile(sorted: seq<real>, p: real): real
    requires |sorted| >= 1 && 0.0 <= p <= 1.0
  {
    IndexBounds(|sorted|, p);
    var idx := Index(|sorted|, p);
    var lower := idx.Floor;
    var upper := lower + 1;
    if upper >= |sorted| then sorted[|sorted| - 1]
    else
      var frac := idx - lower as real;
      sorted[lower] * (1.0 - frac) + sorted[upper] * frac
  }

  lemma IndexBounds(n: nat, p: real)
    requires n >= 1 && 0.0 <= p <= 1.0
    ensures 0.0 <= Index(n, p) <= (n - 1) as real
    ensures 0 <= Index(n, p).Floor <= n - 1
  {
    FractionOf(p, (n - 1) as real);
  }

  lemma FractionOf(p: real, m: real)
    requires 0.0 <= p <= 1.0 && 0.0 <= m
    ensures 0.0 <= p * m <= m
  {
    assert (1.0 - p) * m >= 0.0;
  }

  lemma IndexMonotone(n: nat, p: real, q: real)
    requires n >= 1 && p <= q
    ensures Index(n, p) <= Index(n, q)
  {
    var m := (n - 1) as real;
    assert 0.0 <= (q - p) * m;
  }

  /** Linear interpolation between neighbours k and k + 1 at position x. */
  function Interpolate(sorted: seq<real>, k: nat, x: real): real
    requires k + 1 < |sorted|
  {
    sorted[k] + (x - k as real) * (sorted[k + 1] - sorted[k])
  }

  /**
   The percentile is the piecewise linear curve through the points (k, sorted[k]): every segment
   whose closed interval holds the index gives the same value, so the curve has no jumps.
   */
  lemma PercentileInterpolates(sorted: seq<real>, p: real, k: nat)
    requires 0.0 <= p <= 1.0 && k + 1 < |sorted|
    requires k as real <= Index(|sorted|, p) <= (k + 1) as real
    ensures Percentile(sorted, p) == Interpolate(sorted, k, Index(|sorted|, p))
  {
    IndexBounds(|sorted|, p);
    var idx := Index(|sorted|, p);
    if idx == (k + 1) as real {
      assert idx.Floor == k + 1;
      assert Interpolate(sorted, k, idx) == sorted[k + 1];
    } else {
      assert idx.Floor == k;
      var frac := idx - k as real;
      assert sorted[k] * (1.0 - frac) == sorted[k] - sorted[k] * frac;
      assert frac * (sorted[k + 1] - sorted[k]) == frac * sorted[k + 1] - frac * sorted[k];
    }
  }

  /** The segment that holds the index of p. */
  lemma Segment(n: nat, p: real) returns (k: nat)
    requires n >= 2 && 0.0 <= p <= 1.0
    ensures k + 1 < n && k as real <= Index(n, p) <= (k + 1) as real
    ensures k == Index(n, p).Floor || (k + 1 == Index(n, p).Floor == n - 1)
  {
    IndexBounds(n, p);
    var f := Index(n, p).Floor;
    k := if f == n - 1 then n - 2 else f;
  }

  lemma InterpolateBetween(sorted: seq<real>, k: nat, x: real)
    requires k + 1 < |sorted| && sorted[k] <= sorted[k + 1]
    requires k as real <= x <= (k + 1) as real
    ensures sorted[k] <= Interpolate(sorted, k, x) <= sorted[k + 1]
  {
    var t, d := x - k as real, sorted[k + 1] - sorted[k];
    assert 0.0 <= t * d;
    assert 0.0 <= (1.0 - t) * d;
    assert (1.0 - t) * d == d - t * d;
  }

  lemma InterpolateMonotone(sorted: seq<real>, k: nat, x: real, y: real)
    requires k + 1 < |sorted| && sorted[k] <= sorted[k + 1] && x <= y
    ensures Interpolate(sorted, k, x) <= Interpolate(sorted, k, y)
  {
    var d := sorted[k + 1] - sorted[k];
    assert 0.0 <= (y - x) * d;
    assert (y - x) * d == (y - k as real) * d - (x - k as real) * d;
  }

  lemma AscendingAt(sorted: seq<real>, i: nat, j: nat)
    requires Ascending(sorted) && i <= j < |sorted|
    ensures sorted[i] <= sorted[j]
  {
    if i < j {
      assert RealLeq(sorted[i], sorted[j]);
    }
  }

  /** A higher percentile is never lower, also across segment boundaries. */
  lemma PercentileMonotone(sorted: seq<real>, p: real, q: real)
    requires Ascending(sorted) && |sorted| >= 2
    requires 0.0 <= p <= q <= 1.0
    ensures Percentile(sorted, p) <= Percentile(sorted, q)
  {
    var n := |sorted|;
    var k := Segment(n, p);
    var l := Segment(n, q);
    IndexMonotone(n, p, q);
    PercentileInterpolates(sorted, p, k);
    PercentileInterpolates(sorted, q, l);
    AscendingAt(sorted, k, k + 1);
    AscendingAt(sorted, l, l + 1);
    if k == l {
      InterpolateMonotone(sorted, k, Index(n, p), Index(n, q));
    } else {
      assert k < l;
      InterpolateBetween(sorted, k, Index(n, p));
      InterpolateBetween(sorted, l, Index(n, q));
      AscendingAt(sorted, k + 1, l);
    }
  }

  lemma PercentileBounds(sorted: seq<real>, p: real)
    requires Ascending(sorted) && |sorted| >= 2 && 0.0 <= p <= 1.0
    ensures sorted[0] <= Percentile(sorted, p) <= sorted[|sorted| - 1]
  {
    var k := Segment(|sorted|, p);
    PercentileInterpolates(sorted, p, k);
    AscendingAt(sorted, k, k + 1);
    InterpolateBetween(sorted, k, Index(|sorted|, p));
    AscendingAt(sorted, 0, k);
    AscendingAt(sorted, k + 1, |sorted| - 1);
  }

  function LatencyOf(durations: seq<real>): Option<Latency> {
    if |durations| < 2 then None
    else
      RealLeqIsTotalPreorder();
      SortSorts(durations, RealLeq);
      var sorted := Sort(durations, RealLeq);
      Some(Latency(Percentile(sorted, 0.50), Percentile(sorted, 0.90),
                   Percentile(sorted, 0.95), Percentile(sorted, 0.99)))
  }

  method ComputeLatency(entries: seq<Entry>) returns (r: Option<Latency>)
    ensures r == LatencyOf(Durations(entries))
  {
    var durations: seq<real> := [];
    for i := 0 to |entries|
      invariant durations == Durations(entries[..i])
    {
      var e := entries[i];
      assert entries[..i + 1][..i] == entries[..i];
      if e.success && !e.infraError {
        durations := durations + [e.durationMs];
      }
    }
    assert entries[..|entries|] == entries;
    r := LatencyOf(durations);
  }

  /**
   v is the p-quantile of the values by linear interpolation between closest ranks: put the n values in
   ascending order; at rank position p (n - 1), between neighbours k and k + 1, v lies on the line
   through them.
   */
  ghost predicate IsQuantile(v: real, p: real, values: multiset<real>) {
    forall sorted: seq<real>, k: nat ::
      multiset(sorted) == values && Ascending(sorted) && k + 1 < |sorted| &&
      k as real <= p * (|sorted| - 1) as real <= (k + 1) as real ==>
        v == sorted[k] + (p * (|sorted| - 1) as real - k as real) * (sorted[k + 1] - sorted[k])
  }

  lemma PercentileIsQuantile(durations: seq<real>, sorted: seq<real>, p: real)
    requires Ascending(sorted) && multiset(sorted) == multiset(durations) && |sorted| >= 2 && 0.0 <= p <= 1.0
    ensures IsQuantile(Percentile(sorted, p), p, multiset(durations))
  {
    forall other: seq<real>, k: nat |
      multiset(other) == multiset(durations) && Ascending(other) && k + 1 < |other| &&
      k as real <= p * (|other| - 1) as real <= (k + 1) as real
      ensures
        Percentile(sorted, p) ==
        other[k] + (p * (|other| - 1) as real - k as real) * (other[k + 1] - other[k])
    {
      SortedIsUnique(other, sorted, RealLeq);
      PercentileInterpolates(sorted, p, k);
    }
  }

  /** Latency is there iff two durations are eligible, and holds their 50, 90, 95 and 99 percent quantiles. */
  lemma LatencyMeaning(entries: seq<Entry>)
    ensures LatencyOf(Durations(entries)).Some? <==> |Durations(entries)| >= 2
    ensures
      LatencyOf(Durations(entries)).Some? ==>
        var l, ds := LatencyOf(Durations(entries)).value, multiset(Durations(entries));
        && IsQuantile(l.p50, 0.50, ds) && IsQuantile(l.p90, 0.90, ds)
        && IsQuantile(l.p95, 0.95, ds) && IsQuantile(l.p99, 0.99, ds)
  {
    var ds := Durations(entries);
    if |ds| >= 2 {
      RealLeqIsTotalPreorder();
      SortSorts(ds, RealLeq);
      var sorted := Sort(ds, RealLeq);
      PercentileIsQuantile(ds, sorted, 0.50);
      PercentileIsQuantile(ds, sorted, 0.90);
      PercentileIsQuantile(ds, sorted, 0.95);
      PercentileIsQuantile(ds, sorted, 0.99);
    }
  }

  /**
   The four percentiles are ordered and lie between the smallest and the largest eligible
   duration, for every entry list with at least two eligible entries.
   */
  lemma LatencyIsOrdered(entries: seq<Entry>, lo: real, hi: real)
    requires |Durations(entries)| >= 2
    requires forall d :: d in Durations(entries) ==> lo <= d <= hi
    ensures LatencyOf(Durations(entries)).Some?
    ensures
      var l := LatencyOf(Durations(entries)).value;
      lo <= l.p50 <= l.p90 <= l.p95 <= l.p99 <= hi
  {
    RealLeqIsTotalPreorder();
    var ds := Durations(entries);
    SortSorts(ds, RealLeq);
    var sorted := Sort(ds, RealLeq);
    PercentileBounds(sorted, 0.50);
    PercentileMonotone(sorted, 0.50, 0.90);
    PercentileMonotone(sorted, 0.90, 0.95);
    PercentileMonotone(sorted, 0.95, 0.99);
    PercentileBounds(sorted, 0.99);
    assert sorted[0] in multiset(sorted) && sorted[|sorted| - 1] in multiset(sorted);
    assert sorted[0] in ds && sorted[|sorted| - 1] in ds;
  }

  /** Entries that arrive in another order give the same percentiles. */
  lemma LatencyIgnoresOrder(a: seq<Entry>, b: seq<Entry>)
    requires multiset(a) == multiset(b)
    ensures LatencyOf(Durations(a)) == LatencyOf(Durations(b))
  {
    DurationsIgnoreOrder(a, b);
    var ds, es := Durations(a), Durations(b);
    assert |multiset(ds)| == |multiset(es)|;
    RealLeqIsTotalPreorder();
    SortSorts(ds, RealLeq);
    SortSorts(es, RealLeq);
    SortedIsUnique(Sort(ds, RealLeq), Sort(es, RealLeq), RealLeq);
  }

  lemma {:induction false} DurationsConcat(a: seq<Entry>, b: seq<Entry>)
    ensures Durations(a + b) == Durations(a) + Durations(b)
  {
    if b == [] {
      assert a + b == a;
    } else {
      var n := |b| - 1;
      DurationsConcat(a, b[..n]);
      assert (a + b)[..|a + b| - 1] == a + b[..n];
    }
  }

  lemma MiddleOut(x: seq<real>, y: seq<real>, z: seq<real>)
    ensures multiset(x + y + z) == multiset(x + z) + multiset(y)
  {
  }

  lemma DurationsRemove(a: seq<Entry>, e: Entry, b: seq<Entry>)
    ensures multiset(Durations(a + [e] + b)) == multiset(Durations(a + b)) + multiset(Durations([e]))
  {
    DurationsConcat(a + [e], b);
    DurationsConcat(a, [e]);
    DurationsConcat(a, b);
    MiddleOut(Durations(a), Durations([e]), Durations(b));
  }

  lemma {:induction false} DurationsIgnoreOrder(a: seq<Entry>, b: seq<Entry>)
    requires multiset(a) == multiset(b)
    ensures multiset(Durations(a)) == multiset(Durations(b))
    decreases |a|
  {
    assert |multiset(a)| == |multiset(b)|;
    if a == [] {
    } else {
      var n := |a| - 1;
      assert a[n] in multiset(b);
      var i :| 0 <= i < |b| && b[i] == a[n];
      assert a == a[..n] + [a[n]];
      assert b == b[..i] + [b[i]] + b[i + 1..];
      assert multiset(b[..i] + b[i + 1..]) == multiset(b) - multiset{b[i]};
      assert multiset(a[..n]) == multiset(a) - multiset{a[n]};
      DurationsIgnoreOrder(a[..n], b[..i] + b[i + 1..]);
      DurationsRemove(b[..i], b[i], b[i + 1..]);
      DurationsConcat(a[..n], [a[n]]);
    }
  }
}
