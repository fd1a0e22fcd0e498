/**
  What a cumulative histogram stands for: the observations it counts.  Bucket
  bounds are inclusive (Prometheus text exposition format, section "Histograms
  and summaries"), so a bucket counts the observations at most its bound.
*/
module Observations {
  import opened Basics
  import opened Histogram

  predicate Within(v: real, le: Bound) {
    le.Inf? || v <= le.value
  }

  function CountLe(obs: seq<real>, le: Bound): (n: nat)
    ensures n <= |obs|
  {
    if |obs| == 0 then 0 else (if Within(obs[0], le) then 1 else 0) + CountLe(obs[1..], le)
  }

  function Sum(xs: seq<real>): real {
    if |xs| == 0 then 0.0 else xs[0] + Sum(xs[1..])
  }

  function HistogramOf(bounds: seq<Bound>, obs: seq<real>): seq<Bucket> {
    seq(|bounds|, i requires 0 <= i < |bounds| => Bucket(bounds[i], CountLe(obs, bounds[i]) as real))
  }

  ghost predicate Ascending(bounds: seq<Bound>) {
    forall i, j :: 0 <= i < j < |bounds| ==> bounds[i].Less(bounds[j])
  }

  ghost predicate WellFormedBounds(bounds: seq<Bound>) {
    |bounds| > 0 && bounds[0].Fin? && bounds[0].value > 0.0 && Ascending(bounds)
  }

  // ---- Counting ----

  lemma {:induction false} CountAppend(a: seq<real>, b: seq<real>, le: Bound)
    ensures CountLe(a + b, le) == CountLe(a, le) + CountLe(b, le)
  {
    if |a| == 0 {
      assert a + b == b;
    } else {
      assert (a + b)[1..] == a[1..] + b;
      CountAppend(a[1..], b, le);
    }
  }

  lemma {:induction false} SumAppend(a: seq<real>, b: seq<real>)
    ensures Sum(a + b) == Sum(a) + Sum(b)
  {
    if |a| == 0 {
      assert a + b == b;
    } else {
      assert (a + b)[1..] == a[1..] + b;
      SumAppend(a[1..], b);
    }
  }

  lemma EmptySum()
    ensures Sum([]) == 0.0
  {
  }

  lemma {:induction false} SumNonNegative(obs: seq<real>)
    requires forall v :: v in obs ==> v >= 0.0
    ensures Sum(obs) >= 0.0
  {
    if |obs| > 0 {
      assert obs[0] in obs && forall v :: v in obs[1..] ==> v in obs;
      SumNonNegative(obs[1..]);
    }
  }

  lemma {:induction false} CountMonotone(obs: seq<real>, x: Bound, y: Bound)
    requires x == y || x.Less(y)
    ensures CountLe(obs, x) <= CountLe(obs, y)
  {
    if |obs| > 0 {
      CountMonotone(obs[1..], x, y);
    }
  }

  lemma {:induction false} CountAll(obs: seq<real>)
    ensures CountLe(obs, Inf) == |obs|
  {
    if |obs| > 0 {
      CountAll(obs[1..]);
    }
  }

  /** Counting and summing do not see the order of the observations. */
  lemma {:induction false} OrderDoesNotMatter(a: seq<real>, b: seq<real>, le: Bound)
    requires multiset(a) == multiset(b)
    ensures CountLe(a, le) == CountLe(b, le) && Sum(a) == Sum(b) && |a| == |b|
  {
    if |a| == 0 {
      assert |multiset(b)| == 0;
    } else {
      var i := HeadOfPermutation(a, b);
      var rest := Without(b, i);
      OrderDoesNotMatter(a[1..], rest, le);
      CountAppend(b[..i], b[i + 1..], le);
      CountAppend(b[..i], [b[i]] + b[i + 1..], le);
      SumAppend(b[..i], b[i + 1..]);
      SumAppend(b[..i], [b[i]] + b[i + 1..]);
      assert ([b[i]] + b[i + 1..])[1..] == b[i + 1..];
    }
  }

  ghost predicate Sorted(s: seq<real>) {
    forall i, j :: 0 <= i < j < |s| ==> s[i] <= s[j]
  }

  /** In sorted order, the observations within a bound come first. */
  lemma {:induction false} SortedCount(s: seq<real>, le: Bound, j: nat)
    requires Sorted(s) && j < |s|
    ensures Within(s[j], le) <==> j < CountLe(s, le)
  {
    if j > 0 {
      SortedCount(s[1..], le, j - 1);
    } else if !Within(s[0], le) {
      NoneWithin(s, le);
    }
  }

  lemma {:induction false} NoneWithin(s: seq<real>, le: Bound)
    requires forall v :: v in s ==> !Within(v, le)
    ensures CountLe(s, le) == 0
  {
    if |s| > 0 {
      assert s[0] in s;
      NoneWithin(s[1..], le);
    }
  }

  lemma HistogramIsWellFormed(bounds: seq<Bound>, obs: seq<real>)
    requires WellFormedBounds(bounds)
    requires CountLe(obs, bounds[|bounds| - 1]) > 0
    ensures WellFormed(HistogramOf(bounds, obs))
  {
    var b := HistogramOf(bounds, obs);
    forall i, j | 0 <= i < j < |b| ensures b[i].le.Less(b[j].le) && b[i].count <= b[j].count {
      CountMonotone(obs, bounds[i], bounds[j]);
    }
  }

  // ---- Accuracy ----

  /** `k` is the rank of the true quantile: `q * n` rounded up. */
  ghost predicate IsRank(k: int, q: real, n: nat) {
    (k - 1) as real < Times(n as real, q) <= k as real
  }

  lemma RankInRange(k: int, q: real, n: nat)
    requires n > 0 && 0.0 < q <= 1.0 && IsRank(k, q, n)
    ensures 0 < k <= n
  {
    ShareIsOrdered(0.0, q, n as real);
  }

  lemma {:induction false} AllWithin(obs: seq<real>, le: Bound)
    requires forall v :: v in obs ==> Within(v, le)
    ensures CountLe(obs, le) == |obs|
  {
    if |obs| > 0 {
      assert obs[0] in obs;
      AllWithin(obs[1..], le);
    }
  }

  /** A bucket reaches the target of `q` exactly when the observation of the
      rank of `q` is within its bound. */
  lemma TargetIsRank(bounds: seq<Bound>, obs: seq<real>, sorted: seq<real>, q: real, k: int, j: nat)
    requires j < |bounds| && CountLe(obs, bounds[|bounds| - 1]) == |obs|
    requires multiset(sorted) == multiset(obs) && Sorted(sorted)
    requires IsRank(k, q, |obs|) && 0 < k <= |sorted|
    ensures var b := HistogramOf(bounds, obs);
      b[j].count >= Target(b, q) <==> Within(sorted[k - 1], bounds[j])
  {
    hide Times, CountLe;
    OrderDoesNotMatter(obs, sorted, bounds[j]);
    SortedCount(sorted, bounds[j], k - 1);
  }

  /** The true quantile, the observation of rank `k`, lies in the very bucket
      the percentile is read from, so the two are at most that bucket's width
      apart; past the last finite bound the percentile is that bound and the
      true quantile exceeds it. */
  lemma PercentileIsAccurate(bounds: seq<Bound>, obs: seq<real>, sorted: seq<real>, q: real, k: int)
    requires WellFormedBounds(bounds) && |obs| > 0 && 0.0 < q <= 1.0
    requires forall v :: v in obs ==> v >= 0.0 && Within(v, bounds[|bounds| - 1])
    requires multiset(sorted) == multiset(obs) && Sorted(sorted)
    requires IsRank(k, q, |obs|)
    ensures 0 < k <= |sorted| && WellFormed(HistogramOf(bounds, obs))
    ensures Percentile(HistogramOf(bounds, obs), q).Some?
    ensures var b, truth := HistogramOf(bounds, obs), sorted[k - 1];
      var i, p := Reached(b, q), Percentile(b, q).value;
      && (i < Finite(b) ==>
           && Lo(b, i) <= truth <= b[i].le.value
           && Lo(b, i) < p <= b[i].le.value
           && (i > 0 ==> Lo(b, i) < truth)
           && -(b[i].le.value - Lo(b, i)) < p - truth <= b[i].le.value - Lo(b, i))
      && (i >= Finite(b) ==> p == b[Finite(b) - 1].le.value < truth)
  {
    hide Line, Times, Percentile, CountLe;
    AllWithin(obs, bounds[|bounds| - 1]);
    HistogramIsWellFormed(bounds, obs);
    RankInRange(k, q, |obs|);
    OrderDoesNotMatter(obs, sorted, Inf);
    var b := HistogramOf(bounds, obs);
    assert sorted[k - 1] in multiset(obs) && sorted[k - 1] in obs;
    var i := Reached(b, q);
    PercentileInBucket(b, q);
    TargetIsRank(bounds, obs, sorted, q, k, i);
    if 0 < i {
      TargetIsRank(bounds, obs, sorted, q, k, if i < Finite(b) then i - 1 else Finite(b) - 1);
    }
  }

  /** The share of observations that are at most `t`. */
  ghost function TrueShare(obs: seq<real>, t: real): real
    requires |obs| > 0
  {
    Share(CountLe(obs, Fin(t)) as real, |obs| as real)
  }

  /** Goodput at `t` against the truth: both lie between the shares at the two
      ends of the bucket that `t` falls in, and so differ by at most that
      bucket's share; at a bound they are equal; past the last finite bound
      goodput is the share up to there, and at most the truth. */
  ghost predicate GoodputFits(b: seq<Bucket>, obs: seq<real>, t: real)
    requires WellFormed(b) && |obs| > 0
  {
    var n, s := |obs| as real, Segment(b, t, 0);
    && FractionLe(b, t).Some?
    && var g, truth := FractionLe(b, t).value, TrueShare(obs, t);
    && (s < Finite(b) ==>
         && (s > 0 ==> Lo(b, s) < t) && t <= b[s].le.value
         && var low, high := Share(LoCum(b, s), n), Share(b[s].count, n);
         low <= g <= high && low <= truth <= high && low - high <= g - truth <= high - low)
    && (s < Finite(b) && t == b[s].le.value ==> g == truth)
    && (s == Finite(b) ==> b[s - 1].le.value < t && g == Share(FiniteMass(b), n) <= truth)
  }

  lemma MassInSegment(b: seq<Bucket>, t: real)
    requires WellFormed(b)
    ensures var s := Segment(b, t, 0);
      && LoCum(b, s) <= Mass(b, t) <= (if s < Finite(b) then b[s].count else FiniteMass(b))
      && (s < Finite(b) && t == b[s].le.value ==> Mass(b, t) == b[s].count)
  {
    hide Line, Mass;
    var s := Segment(b, t, 0);
    MassBracket(b, t, if s > 0 then s - 1 else 0);
    if s < Finite(b) {
      MassBracket(b, t, s);
      MassBracket(b, t, if s + 1 < Finite(b) then s + 1 else s);
    }
  }

  /** The observations at most `t`, among those at most the bounds about it. */
  lemma CountInSegment(bounds: seq<Bound>, obs: seq<real>, t: real)
    requires WellFormed(HistogramOf(bounds, obs))
    ensures var b := HistogramOf(bounds, obs);
      var s := Segment(b, t, 0);
      && LoCum(b, s) <= CountLe(obs, Fin(t)) as real
      && (s < Finite(b) ==> CountLe(obs, Fin(t)) as real <= b[s].count)
      && (s < Finite(b) && t == b[s].le.value ==> CountLe(obs, Fin(t)) as real == b[s].count)
  {
    hide CountLe;
    var b := HistogramOf(bounds, obs);
    var s := Segment(b, t, 0);
    if s > 0 {
      assert b[s - 1].le == bounds[s - 1] && b[s - 1].le.Fin?;
      CountMonotone(obs, bounds[s - 1], Fin(t));
    }
    if s < Finite(b) {
      assert b[s].le == bounds[s] && b[s].le.Fin?;
      CountMonotone(obs, Fin(t), bounds[s]);
    }
  }

  /** Goodput errs by at most the share of the bucket that the threshold is in,
      is exact at every finite bound, and never exceeds the truth past them. */
  lemma GoodputIsAccurate(bounds: seq<Bound>, obs: seq<real>, t: real)
    requires WellFormedBounds(bounds) && |obs| > 0
    requires forall v :: v in obs ==> Within(v, bounds[|bounds| - 1])
    ensures WellFormed(HistogramOf(bounds, obs)) && GoodputFits(HistogramOf(bounds, obs), obs, t)
  {
    hide Line, Times, Share, FractionLe, CountLe, Mass;
    AllWithin(obs, bounds[|bounds| - 1]);
    HistogramIsWellFormed(bounds, obs);
    var b, n := HistogramOf(bounds, obs), |obs| as real;
    var s, mass, count := Segment(b, t, 0), Mass(b, t), CountLe(obs, Fin(t)) as real;
    FractionIsMass(b, t);
    MassInSegment(b, t);
    CountInSegment(bounds, obs, t);
    ShareIsMonotone(LoCum(b, s), mass, n);
    ShareIsMonotone(LoCum(b, s), count, n);
    if s < Finite(b) {
      ShareIsMonotone(mass, b[s].count, n);
      ShareIsMonotone(count, b[s].count, n);
    }
  }

  // ---- Nothing observed ----

  lemma {:induction false} NoneCounted(obs: seq<real>, le: Bound)
    ensures CountLe(obs, le) == 0 <==> forall v :: v in obs ==> !Within(v, le)
  {
    if obs != [] {
      assert obs == [obs[0]] + obs[1..];
      NoneCounted(obs[1..], le);
    }
  }

  /** There is no percentile and no goodput exactly where nothing was observed
      under the last bound, or no such share is asked for. */
  lemma ReadingsAreNoneExactly(bounds: seq<Bound>, obs: seq<real>, q: real, t: real)
    requires WellFormedBounds(bounds)
    ensures var b, last := HistogramOf(bounds, obs), bounds[|bounds| - 1];
      && (Percentile(b, q).None? <==> (forall v :: v in obs ==> !Within(v, last)) || !(0.0 <= q <= 1.0))
      && (FractionLe(b, t).None? <==> forall v :: v in obs ==> !Within(v, last))
  {
    var b, last := HistogramOf(bounds, obs), bounds[|bounds| - 1];
    NoneCounted(obs, last);
    FractionIsShare(b, t);
    hide CountLe, FractionLe, Line, Times;
    if CountLe(obs, last) > 0 && 0.0 <= q <= 1.0 {
      HistogramIsWellFormed(bounds, obs);
      hide Percentile;
      GoodputOfPercentile(b, q);
    }
  }
}
