/**
  Percentiles and goodput from cumulative Prometheus histogram buckets
  (src/engines/histogram.rs).  A bound is a finite `real` or `+Inf`, a count is
  a `real`: the original's `f64` without rounding, NaN and negative infinity.
*/
module Histogram {
  import opened Basics

  datatype Bound = Fin(value: real) | Inf {
    predicate Less(other: Bound) {
      Fin? && (other.Inf? || value < other.value)
    }
  }

  datatype Bucket = Bucket(le: Bound, count: real)

  // ---- Arithmetic, kept behind names so that proofs can hide it ----

  /** The line through (x0, y0) and (x1, y1), at x. */
  function Line(x0: real, y0: real, x1: real, y1: real, x: real): real
    requires x0 < x1
  {
    y0 + (x - x0) / (x1 - x0) * (y1 - y0)
  }

  function Clamp01(x: real): real {
    if x < 0.0 then 0.0 else if x > 1.0 then 1.0 else x
  }

  /** `part` of `whole`, as a fraction in [0, 1]. */
  function Share(part: real, whole: real): real
    requires whole > 0.0
  {
    Clamp01(part / whole)
  }

  function Times(x: real, y: real): real {
    x * y
  }

  lemma LineMonotone(x0: real, y0: real, x1: real, y1: real, x: real, x': real)
    requires x0 < x1 && y0 <= y1 && x <= x'
    ensures Line(x0, y0, x1, y1, x) <= Line(x0, y0, x1, y1, x')
    ensures y0 < y1 && x < x' ==> Line(x0, y0, x1, y1, x) < Line(x0, y0, x1, y1, x')
  {
    var w := x1 - x0;
    var d := (x' - x) / w;
    assert d * w == x' - x;
    assert (x' - x0) / w == (x - x0) / w + d;
    assert d >= 0.0 && (x < x' ==> d > 0.0);
    assert d * (y1 - y0) >= 0.0;
    assert Line(x0, y0, x1, y1, x') == Line(x0, y0, x1, y1, x) + d * (y1 - y0);
  }

  lemma LineEnds(x0: real, y0: real, x1: real, y1: real)
    requires x0 < x1
    ensures Line(x0, y0, x1, y1, x0) == y0 && Line(x0, y0, x1, y1, x1) == y1
  {
  }

  lemma LineInverse(x0: real, y0: real, x1: real, y1: real, y: real)
    requires x0 < x1 && y0 < y1
    ensures Line(x0, y0, x1, y1, Line(y0, x0, y1, x1, y)) == y
  {
    var f := (y - y0) / (y1 - y0);
    assert f * (y1 - y0) == y - y0;
    assert (f * (x1 - x0)) / (x1 - x0) == f;
  }

  lemma SignOf(x: real, whole: real)
    requires whole > 0.0 && x * whole >= 0.0
    ensures x >= 0.0
  {
  }

  lemma ShareIsQuotient(part: real, whole: real)
    requires whole > 0.0 && 0.0 <= part <= whole
    ensures 0.0 <= Share(part, whole) == part / whole <= 1.0
    ensures Times(whole, Share(part, whole)) == part
  {
    var f := part / whole;
    assert f * whole == part;
    SignOf(f, whole);
    assert (1.0 - f) * whole == whole - part;
    SignOf(1.0 - f, whole);
  }

  lemma ShareOfAll(whole: real)
    requires whole > 0.0
    ensures Share(whole, whole) == 1.0
  {
    var f := whole / whole;
    assert f * whole == whole && (f - 1.0) * whole == 0.0;
    SignOf(f - 1.0, whole);
    SignOf(1.0 - f, whole);
  }

  lemma TimesIsStrict(whole: real, q: real, q': real)
    requires whole > 0.0 && q < q'
    ensures Times(whole, q) < Times(whole, q')
  {
    var d := q' - q;
    assert whole * d > 0.0;
    assert whole * q' == whole * q + whole * d;
  }

  lemma TimesEnds(whole: real)
    ensures Times(whole, 0.0) == 0.0 && Times(whole, 1.0) == whole
  {
  }

  /** Inside the histogram a share is an exact fraction: `q` is the share of its
      own target, and shares order as their parts do. */
  lemma ShareIsOrdered(part: real, q: real, whole: real)
    requires whole > 0.0 && 0.0 <= part <= whole && 0.0 <= q <= 1.0
    ensures 0.0 <= Share(part, whole) == part / whole <= 1.0
    ensures Times(whole, q) <= part <==> q <= Share(part, whole)
    ensures Times(whole, q) == part <==> q == Share(part, whole)
    ensures 0.0 <= Times(whole, q) <= whole && (q > 0.0 ==> Times(whole, q) > 0.0)
    ensures q == 0.0 ==> Times(whole, q) == 0.0
  {
    hide Times, Share;
    ShareIsQuotient(part, whole);
    TimesEnds(whole);
    TimesIsMonotone(whole, q, 1.0);
    if q > 0.0 {
      TimesIsStrict(whole, 0.0, q);
    }
    var f := Share(part, whole);
    if q < f {
      TimesIsStrict(whole, q, f);
    } else if f < q {
      TimesIsStrict(whole, f, q);
    }
  }

  lemma ShareIsMonotone(x: real, y: real, whole: real)
    requires whole > 0.0 && x <= y
    ensures Share(x, whole) <= Share(y, whole)
  {
    assert x / whole * whole == x && y / whole * whole == y;
  }

  lemma TimesIsMonotone(whole: real, q: real, q': real)
    requires whole >= 0.0 && q <= q'
    ensures Times(whole, q) <= Times(whole, q')
  {
    var d := q' - q;
    assert whole * d >= 0.0;
    assert whole * q' == whole * q + whole * d;
  }

  // ---- The two readings of a histogram, as the code computes them ----

  /** The index of the first bucket from `i` on whose count reaches `target`. */
  function Position(b: seq<Bucket>, target: real, i: nat): (r: Option<nat>)
    requires i <= |b|
    ensures r.Some? ==>
      && i <= r.value < |b| && b[r.value].count >= target
      && forall j :: i <= j < r.value ==> b[j].count < target
    ensures r.None? ==> forall j :: i <= j < |b| ==> b[j].count < target
    decreases |b| - i
  {
    if i == |b| then None
    else if b[i].count >= target then Some(i)
    else Position(b, target, i + 1)
  }

  /** The last finite bound, searched from the end. */
  function LastFinite(b: seq<Bucket>): Option<real> {
    if |b| == 0 then None
    else if b[|b| - 1].le.Fin? then Some(b[|b| - 1].le.value)
    else LastFinite(b[..|b| - 1])
  }

  function Percentile(b: seq<Bucket>, q: real): Option<real> {
    if |b| == 0 || !(0.0 <= q <= 1.0) then None else
    var total := b[|b| - 1].count;
    if total <= 0.0 then None else
    var target := Times(total, q);
    match Position(b, target, 0)
    case None => None
    case Some(idx) =>
      if b[idx].le.Inf? then LastFinite(b[..idx]) else
      var le, cum := b[idx].le.value, b[idx].count;
      var lower := if idx == 0 then Bucket(Fin(0.0), 0.0) else b[idx - 1];
      // An infinite lower bound makes the width negative, not a number.
      if lower.le.Inf? || cum - lower.count <= 0.0 || le - lower.le.value <= 0.0 then Some(le)
      else
        Some(Line(lower.count, lower.le.value, cum, le, target))
  }

  /** The walk over the buckets from index `i`, after a bucket (prevLe, prevCum). */
  function Walk(b: seq<Bucket>, t: real, total: real, i: nat, prevLe: real, prevCum: real): real
    requires i <= |b| && total > 0.0
    decreases |b| - i
  {
    if i == |b| then 1.0
    else if b[i].le.Inf? then Share(prevCum, total)
    else if b[i].le.value >= t then
      if b[i].le.value <= prevLe || b[i].count <= prevCum then Share(prevCum, total)
      else Share(Line(prevLe, prevCum, b[i].le.value, b[i].count, t), total)
    else Walk(b, t, total, i + 1, b[i].le.value, b[i].count)
  }

  function FractionLe(b: seq<Bucket>, t: real): Option<real> {
    if |b| == 0 || b[|b| - 1].count <= 0.0 then None else
    var total := b[|b| - 1].count;
    if b[0].le.Fin? && t <= b[0].le.value then
      if b[0].le.value <= 0.0 then Some(0.0)
      else Some(Share(Times(b[0].count, Share(t, b[0].le.value)), total))
    else Some(Walk(b, t, total, 0, 0.0, 0.0))
  }

  /** Goodput as the code computes it, walking the buckets in a loop. */
  method ComputeFractionLe(b: seq<Bucket>, t: real) returns (r: Option<real>)
    ensures r == FractionLe(b, t)
  {
    hide Share, Line, Times;
    if |b| == 0 {
      return None;
    }
    var total := b[|b| - 1].count;
    if total <= 0.0 {
      return None;
    }
    var first := b[0];
    if first.le.Fin? && t <= first.le.value {
      if first.le.value <= 0.0 {
        return Some(0.0);
      }
      var frac := Share(t, first.le.value);
      return Some(Share(Times(first.count, frac), total));
    }
    var prevLe, prevCum := 0.0, 0.0;
    for i := 0 to |b|
      invariant Walk(b, t, total, 0, 0.0, 0.0) == Walk(b, t, total, i, prevLe, prevCum)
    {
      var le, cum := b[i].le, b[i].count;
      if le.Inf? {
        return Some(Share(prevCum, total));
      }
      if le.value >= t {
        if le.value - prevLe <= 0.0 || cum - prevCum <= 0.0 {
          return Some(Share(prevCum, total));
        }
        var interp := Line(prevLe, prevCum, le.value, cum, t);
        return Some(Share(interp, total));
      }
      prevLe, prevCum := le.value, cum;
    }
    return Some(1.0);
  }

  // ---- Well-formed buckets ----

  /** A cumulative histogram as the exposition format defines one: ascending
      bounds starting at a positive one, nondecreasing counts, not all zero. */
  ghost predicate WellFormed(b: seq<Bucket>) {
    && |b| > 0
    && b[0].le.Fin? && b[0].le.value > 0.0 && b[0].count >= 0.0
    && (forall i, j :: 0 <= i < j < |b| ==> b[i].le.Less(b[j].le) && b[i].count <= b[j].count)
    && b[|b| - 1].count > 0.0
  }

  ghost function Total(b: seq<Bucket>): real
    requires |b| > 0
  {
    b[|b| - 1].count
  }

  /** The number of finite bounds of well-formed buckets: all, or all but `+Inf`. */
  ghost function Finite(b: seq<Bucket>): (n: nat)
    requires WellFormed(b)
    ensures 0 < n <= |b|
    ensures forall i :: 0 <= i < |b| ==> (b[i].le.Fin? <==> i < n)
  {
    if b[|b| - 1].le.Fin? then |b| else |b| - 1
  }

  /** The cumulative count at the last finite bound. */
  ghost function FiniteMass(b: seq<Bucket>): real
    requires WellFormed(b)
  {
    b[Finite(b) - 1].count
  }

  /** Where bucket `i` starts: its lower bound and the count below it. */
  ghost function Lo(b: seq<Bucket>, i: nat): real
    requires WellFormed(b) && i <= Finite(b)
  {
    if i == 0 then 0.0 else b[i - 1].le.value
  }

  ghost function LoCum(b: seq<Bucket>, i: nat): real
    requires WellFormed(b) && i <= |b|
  {
    if i == 0 then 0.0 else b[i - 1].count
  }

  // ---- Goodput on well-formed buckets ----

  /** The bucket a threshold falls in: the first finite one reaching it, or the
      number of finite ones when it is past them all. */
  ghost function Segment(b: seq<Bucket>, t: real, i: nat): (s: nat)
    requires WellFormed(b) && i <= Finite(b)
    ensures i <= s <= Finite(b)
    ensures s < Finite(b) ==> t <= b[s].le.value
    ensures forall j :: i <= j < s ==> b[j].le.value < t
    decreases Finite(b) - i
  {
    if i == Finite(b) || b[i].le.value >= t then i else Segment(b, t, i + 1)
  }

  /** How many observations are at most `t`, spread evenly inside a bucket. */
  ghost function Mass(b: seq<Bucket>, t: real): real
    requires WellFormed(b)
  {
    var s := Segment(b, t, 0);
    if t <= 0.0 then 0.0
    else if s == Finite(b) then FiniteMass(b)
    else Line(Lo(b, s), LoCum(b, s), b[s].le.value, b[s].count, t)
  }

  lemma {:induction false} WalkIsMass(b: seq<Bucket>, t: real, i: nat)
    requires WellFormed(b) && t > 0.0 && i <= Finite(b)
    requires forall j :: 0 <= j < i ==> b[j].le.value < t
    ensures Walk(b, t, Total(b), i, Lo(b, i), LoCum(b, i)) == Share(Mass(b, t), Total(b))
    decreases Finite(b) - i
  {
    if i == Finite(b) {
      assert Segment(b, t, 0) == i;
      hide Share, Line;
      ShareOfAll(Total(b));
    } else {
      hide Share;
      if b[i].le.value >= t {
        assert Segment(b, t, 0) == i;
        if b[i].count == LoCum(b, i) {
          assert Line(Lo(b, i), LoCum(b, i), b[i].le.value, b[i].count, t) == LoCum(b, i);
        }
      } else {
        hide Line;
        WalkIsMass(b, t, i + 1);
      }
    }
  }

  lemma MassBracket(b: seq<Bucket>, t: real, j: nat)
    requires WellFormed(b) && j < Finite(b)
    ensures 0.0 <= Mass(b, t) <= FiniteMass(b)
    ensures t <= Lo(b, j) ==> Mass(b, t) <= LoCum(b, j)
    ensures t >= b[j].le.value ==> Mass(b, t) >= b[j].count
    ensures Lo(b, j) < t <= b[j].le.value ==>
      Mass(b, t) == Line(Lo(b, j), LoCum(b, j), b[j].le.value, b[j].count, t)
  {
    hide Line;
    var s := Segment(b, t, 0);
    if t > 0.0 && s < Finite(b) {
      LineEnds(Lo(b, s), LoCum(b, s), b[s].le.value, b[s].count);
      LineMonotone(Lo(b, s), LoCum(b, s), b[s].le.value, b[s].count, Lo(b, s), t);
      LineMonotone(Lo(b, s), LoCum(b, s), b[s].le.value, b[s].count, t, b[s].le.value);
    }
  }

  lemma FirstBucket(count: real, t: real, le: real)
    requires le > 0.0 && t <= le
    ensures Times(count, Share(t, le)) == if t <= 0.0 then 0.0 else Line(0.0, 0.0, le, count, t)
  {
    assert t / le * le == t;
    assert Share(t, le) == if t <= 0.0 then 0.0 else t / le;
  }

  /** On well-formed buckets goodput is the share of the evenly spread mass. */
  lemma FractionIsMass(b: seq<Bucket>, t: real)
    requires WellFormed(b)
    ensures FractionLe(b, t) == Some(Share(Mass(b, t), Total(b)))
  {
    hide Line, Share, Times;
    if t <= b[0].le.value {
      assert Segment(b, t, 0) == 0;
      FirstBucket(b[0].count, t, b[0].le.value);
    } else {
      WalkIsMass(b, t, 0);
    }
  }

  // ---- Percentiles on well-formed buckets ----

  lemma {:induction false} LastFiniteIs(b: seq<Bucket>, k: nat)
    requires WellFormed(b) && Finite(b) <= k <= |b|
    ensures LastFinite(b[..k]) == Some(b[Finite(b) - 1].le.value)
    decreases k
  {
    if k > Finite(b) {
      assert b[..k][..k - 1] == b[..k - 1];
      LastFiniteIs(b, k - 1);
    }
  }

  /** The observation count a percentile stands for. */
  ghost function Target(b: seq<Bucket>, q: real): real
    requires |b| > 0
  {
    Times(Total(b), q)
  }

  /** The bucket a percentile is read from: the first to reach its target. */
  ghost function Reached(b: seq<Bucket>, q: real): (i: nat)
    requires WellFormed(b) && 0.0 <= q <= 1.0
    ensures i < |b| && b[i].count >= Target(b, q)
    ensures forall j :: 0 <= j < i ==> b[j].count < Target(b, q)
  {
    ShareIsOrdered(Total(b), q, Total(b));
    Position(b, Target(b, q), 0).value
  }

  /** A percentile lies in the bucket it is read from, and the line of that
      bucket takes it to the target. */
  lemma PercentileInBucket(b: seq<Bucket>, q: real)
    requires WellFormed(b) && 0.0 < q <= 1.0
    ensures Percentile(b, q).Some?
    ensures var p, i := Percentile(b, q).value, Reached(b, q);
      && (i >= Finite(b) ==> p == b[Finite(b) - 1].le.value)
      && (i < Finite(b) ==>
           && LoCum(b, i) < b[i].count
           && Lo(b, i) < p <= b[i].le.value
           && Line(Lo(b, i), LoCum(b, i), b[i].le.value, b[i].count, p) == Target(b, q))
  {
    hide Line, Times, Share;
    var i, target := Reached(b, q), Target(b, q);
    ShareIsOrdered(Total(b), q, Total(b));
    if i >= Finite(b) {
      LastFiniteIs(b, i);
    } else {
      var lo, lc, le, cum := Lo(b, i), LoCum(b, i), b[i].le.value, b[i].count;
      assert lc < target <= cum;
      assert Percentile(b, q) == Some(Line(lc, lo, cum, le, target));
      LineInverse(lo, lc, le, cum, target);
      LineEnds(lc, lo, cum, le);
      LineMonotone(lc, lo, cum, le, lc, target);
      LineMonotone(lc, lo, cum, le, target, cum);
    }
  }

  /** At `q = 0` the percentile is where the first observations may start: an
      empty first bucket is skipped whole. */
  lemma PercentileAtZero(b: seq<Bucket>)
    requires WellFormed(b)
    ensures Percentile(b, 0.0) == Some(if b[0].count == 0.0 then b[0].le.value else 0.0)
  {
    assert Times(Total(b), 0.0) == 0.0;
    hide Times;
  }

  /** Goodput at a percentile is the percentile's share, up to the mass that
      lies under the finite bounds. */
  lemma GoodputOfPercentile(b: seq<Bucket>, q: real)
    requires WellFormed(b) && 0.0 <= q <= 1.0
    ensures Percentile(b, q).Some?
    ensures var cap := FiniteMass(b) / Total(b);
      FractionLe(b, Percentile(b, q).value) == Some(if q <= cap then q else cap)
  {
    hide Line, Times, Share, Percentile, FractionLe;
    var total := Total(b);
    ShareIsOrdered(FiniteMass(b), q, total);
    if q == 0.0 {
      PercentileAtZero(b);
      FractionIsMass(b, Percentile(b, q).value);
      MassBracket(b, Percentile(b, q).value, 0);
      LineEnds(0.0, 0.0, b[0].le.value, b[0].count);
      ShareIsOrdered(0.0, 0.0, total);
    } else {
      PercentileInBucket(b, q);
      var p, i := Percentile(b, q).value, Reached(b, q);
      FractionIsMass(b, p);
      MassBracket(b, p, if i < Finite(b) then i else Finite(b) - 1);
      ShareIsOrdered(Mass(b, p), q, total);
      assert i < Finite(b) ==> b[i].count <= FiniteMass(b);
    }
  }

  ghost predicate Adjoint(b: seq<Bucket>, q: real, t: real)
    requires WellFormed(b) && 0.0 <= q <= 1.0
  {
    Percentile(b, q).Some? && FractionLe(b, t).Some? &&
    (Percentile(b, q).value <= t <==> q <= FractionLe(b, t).value)
  }

  lemma AdjointAt(b: seq<Bucket>, q: real, t: real)
    requires WellFormed(b) && 0.0 < q <= 1.0 && Target(b, q) <= FiniteMass(b)
    ensures Adjoint(b, q, t)
  {
    hide Line, Times, Share, Percentile, FractionLe, Mass;
    var i := Reached(b, q);
    PercentileInBucket(b, q);
    FractionIsMass(b, t);
    assert i < Finite(b);
    MassBracket(b, t, i);
    ShareIsOrdered(Mass(b, t), q, Total(b));
    var p := Percentile(b, q).value;
    if Lo(b, i) < t <= b[i].le.value {
      LineMonotone(Lo(b, i), LoCum(b, i), b[i].le.value, b[i].count, if p <= t then p else t, if p <= t then t else p);
    }
  }

  /** Percentile and goodput are adjoint exactly for the shares that the finite
      bounds cover: a percentile meets a threshold just when the goodput at the
      threshold is at least that share. */
  lemma AdjointExactly(b: seq<Bucket>, q: real)
    requires WellFormed(b) && 0.0 <= q <= 1.0
    ensures (forall t :: Adjoint(b, q, t)) <==> 0.0 < q && Total(b) * q <= FiniteMass(b)
  {
    assert Target(b, q) == Total(b) * q;
    hide Line, Times, Share, Percentile, FractionLe;
    if 0.0 < q && Target(b, q) <= FiniteMass(b) {
      forall t ensures Adjoint(b, q, t) {
        AdjointAt(b, q, t);
      }
    } else {
      GoodputOfPercentile(b, q);
      ShareIsOrdered(FiniteMass(b), q, Total(b));
      var p := Percentile(b, q).value;
      if q == 0.0 {
        FractionIsMass(b, p - 1.0);
        MassBracket(b, p - 1.0, 0);
        ShareIsOrdered(Mass(b, p - 1.0), q, Total(b));
        assert !Adjoint(b, q, p - 1.0);
      } else {
        assert !Adjoint(b, q, p);
      }
    }
  }

  lemma MassMonotone(b: seq<Bucket>, t: real, t': real)
    requires WellFormed(b) && t <= t'
    ensures Mass(b, t) <= Mass(b, t')
  {
    hide Line;
    var s := Segment(b, t, 0);
    MassBracket(b, t', 0);
    if 0.0 < t {
      var j := if s < Finite(b) then s else s - 1;
      MassBracket(b, t, j);
      MassBracket(b, t', j);
      if s < Finite(b) {
        LineEnds(Lo(b, s), LoCum(b, s), b[s].le.value, b[s].count);
        LineMonotone(Lo(b, s), LoCum(b, s), b[s].le.value, b[s].count, t,
                     if t' <= b[s].le.value then t' else b[s].le.value);
      }
    }
  }

  lemma PercentileOfPositive(b: seq<Bucket>, q: real, q': real)
    requires WellFormed(b) && 0.0 < q <= q' <= 1.0
    ensures Percentile(b, q).Some? && Percentile(b, q').Some?
    ensures Percentile(b, q).value <= Percentile(b, q').value
  {
    hide Line, Times, Share, Percentile, FractionLe, Mass;
    var total := Total(b);
    GoodputOfPercentile(b, q);
    GoodputOfPercentile(b, q');
    PercentileInBucket(b, q);
    PercentileInBucket(b, q');
    ShareIsOrdered(FiniteMass(b), q, total);
    TimesIsMonotone(total, q, q');
    if Target(b, q) <= FiniteMass(b) {
      AdjointAt(b, q, Percentile(b, q').value);
    }
  }

  lemma PercentileFromZero(b: seq<Bucket>, q: real)
    requires WellFormed(b) && 0.0 < q <= 1.0
    ensures Percentile(b, 0.0).Some? && Percentile(b, q).Some?
    ensures Percentile(b, 0.0).value <= Percentile(b, q).value
  {
    hide Line, Times, Share, Percentile;
    PercentileAtZero(b);
    PercentileInBucket(b, q);
    ShareIsOrdered(0.0, q, Total(b));
    assert b[0].count == 0.0 ==> Reached(b, q) > 0;
  }

  /** A larger share never has a smaller percentile, a larger threshold never a
      smaller goodput. */
  lemma ReadingsAreMonotone(b: seq<Bucket>, q: real, q': real, t: real, t': real)
    requires WellFormed(b) && 0.0 <= q <= q' <= 1.0 && t <= t'
    ensures Percentile(b, q).Some? && Percentile(b, q').Some?
    ensures Percentile(b, q).value <= Percentile(b, q').value
    ensures FractionLe(b, t).Some? && FractionLe(b, t').Some?
    ensures FractionLe(b, t).value <= FractionLe(b, t').value
  {
    hide Line, Times, Share, Percentile, FractionLe, Mass;
    if q > 0.0 {
      PercentileOfPositive(b, q, q');
    } else if q' > 0.0 {
      PercentileFromZero(b, q');
    } else {
      PercentileAtZero(b);
    }
    FractionIsMass(b, t);
    FractionIsMass(b, t');
    MassMonotone(b, t, t');
    ShareIsMonotone(Mass(b, t), Mass(b, t'), Total(b));
  }

  // ---- Buckets of any shape ----

  /** Goodput is a share, whatever the buckets. */
  lemma {:induction false} WalkIsShare(b: seq<Bucket>, t: real, total: real, i: nat, prevLe: real, prevCum: real)
    requires i <= |b| && total > 0.0
    ensures 0.0 <= Walk(b, t, total, i, prevLe, prevCum) <= 1.0
    decreases |b| - i
  {
    hide Line;
    if i < |b| && b[i].le.Fin? && b[i].le.value < t {
      WalkIsShare(b, t, total, i + 1, b[i].le.value, b[i].count);
    }
  }

  lemma FractionIsShare(b: seq<Bucket>, t: real)
    ensures FractionLe(b, t).None? <==> b == [] || b[|b| - 1].count <= 0.0
    ensures FractionLe(b, t).Some? ==> 0.0 <= FractionLe(b, t).value <= 1.0
    ensures FractionLe(b, t).Some? && b[0].le.Fin? && t <= b[0].le.value && t <= 0.0 ==> FractionLe(b, t).value == 0.0
  {
    hide Walk;
    if FractionLe(b, t).Some? {
      WalkIsShare(b, t, b[|b| - 1].count, 0, 0.0, 0.0);
      if b[0].le.Fin? && t <= b[0].le.value && t <= 0.0 < b[0].le.value {
        FirstBucket(b[0].count, t, b[0].le.value);
        ShareIsQuotient(0.0, b[|b| - 1].count);
      }
    }
  }

  ghost predicate AscendingFrom(b: seq<Bucket>, i: nat, prevLe: real)
    requires i < |b|
  {
    && (forall j :: 0 <= j <= i ==> b[j].le.Fin?)
    && (forall j, k :: 0 <= j < k <= i ==> b[j].le.value < b[k].le.value)
    && prevLe < b[0].le.value
  }

  /** Where counts drop from one bucket to the next, goodput in the later one
      stays at the count of the earlier; otherwise it lies between the two. */
  lemma {:induction false} WalkInBucket(b: seq<Bucket>, t: real, total: real, i: nat, j: nat)
    requires j <= i < |b| && total > 0.0 && AscendingFrom(b, i, 0.0)
    requires t <= b[i].le.value && (if i == 0 then 0.0 < t else b[i - 1].le.value < t)
    ensures var prevLe, prevCum := if j == 0 then 0.0 else b[j - 1].le.value, if j == 0 then 0.0 else b[j - 1].count;
      var low := if i == 0 then 0.0 else b[i - 1].count;
      var high := if b[i].count < low then low else b[i].count;
      Share(low, total) <= Walk(b, t, total, j, prevLe, prevCum) <= Share(high, total)
    decreases i - j
  {
    hide Share, Line;
    if j < i {
      WalkInBucket(b, t, total, i, j + 1);
    } else {
      var prevLe, prevCum := if j == 0 then 0.0 else b[j - 1].le.value, if j == 0 then 0.0 else b[j - 1].count;
      if b[i].count > prevCum {
        LineEnds(prevLe, prevCum, b[i].le.value, b[i].count);
        LineMonotone(prevLe, prevCum, b[i].le.value, b[i].count, prevLe, t);
        LineMonotone(prevLe, prevCum, b[i].le.value, b[i].count, t, b[i].le.value);
        ShareIsMonotone(prevCum, Line(prevLe, prevCum, b[i].le.value, b[i].count, t), total);
        ShareIsMonotone(Line(prevLe, prevCum, b[i].le.value, b[i].count, t), b[i].count, total);
      }
    }
  }

  /** A percentile of any buckets lies between the bounds of the bucket it is
      read from, and on the upper one where they do not enclose anything. */
  lemma PercentileInAnyBucket(b: seq<Bucket>, q: real, i: nat)
    requires i < |b| && b[|b| - 1].count > 0.0 && 0.0 <= q <= 1.0
    requires b[i].count >= Target(b, q) && forall j :: 0 <= j < i ==> b[j].count < Target(b, q)
    requires b[i].le.Fin?
    ensures Percentile(b, q).Some?
    ensures var p, le, lower := Percentile(b, q).value, b[i].le.value, if i == 0 then Fin(0.0) else b[i - 1].le;
      p <= le && (if lower.Fin? && lower.value < le then lower.value <= p else p == le)
  {
    hide Line, Times;
    var le, lower := b[i].le.value, if i == 0 then Bucket(Fin(0.0), 0.0) else b[i - 1];
    ShareIsOrdered(0.0, q, b[|b| - 1].count);
    assert Position(b, Target(b, q), 0) == Some(i);
    if lower.le.Fin? && b[i].count > lower.count && le > lower.le.value {
      LineEnds(lower.count, lower.le.value, b[i].count, le);
      LineMonotone(lower.count, lower.le.value, b[i].count, le, lower.count, Target(b, q));
      LineMonotone(lower.count, lower.le.value, b[i].count, le, Target(b, q), b[i].count);
    }
  }

  /** Without a finite bound there is no percentile to give. */
  lemma {:induction false} NoFiniteBound(b: seq<Bucket>)
    requires forall i :: 0 <= i < |b| ==> b[i].le.Inf?
    ensures LastFinite(b) == None
  {
    if b != [] {
      NoFiniteBound(b[..|b| - 1]);
    }
  }

  lemma NoPercentileWithoutBound(b: seq<Bucket>, q: real)
    requires forall i :: 0 <= i < |b| ==> b[i].le.Inf?
    ensures Percentile(b, q) == None
  {
    forall k: nat | k <= |b| ensures LastFinite(b[..k]) == None {
      NoFiniteBound(b[..k]);
    }
  }
}
