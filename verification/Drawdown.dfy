/** Maximum drawdown of a value series (analytics_metrics.py), over exact reals. */
module Drawdown {
  import opened Prelude

  datatype Running = Running(peak: real, worst: real)

  /** How far v lies below the peak, as a fraction of the peak; nothing below a peak that is not positive. */
  function Below(peak: real, v: real): real {
    if peak > 0.0 then (peak - v) / peak else 0.0
  }

  function Step(r: Running, v: real): Running {
    var peak := if v > r.peak then v else r.peak;
    var dd := Below(peak, v);
    Running(peak, if dd > r.worst then dd else r.worst)
  }

  /** The pass over the first n values. */
  function Pass(values: seq<real>, n: nat): Running
    requires 0 < |values| && n <= |values|
  {
    if n == 0 then Running(values[0], 0.0) else Step(Pass(values, n - 1), values[n - 1])
  }

  function MaxDrawdown(values: seq<real>): real {
    if |values| < 2 then 0.0 else Pass(values, |values|).worst * 100.0
  }

  method CalcMdd(values: seq<real>) returns (mdd: real)
    ensures mdd == MaxDrawdown(values)
  {
    if |values| < 2 {
      return 0.0;
    }
    var peak, maxDd := values[0], 0.0;
    for i := 0 to |values|
      invariant Running(peak, maxDd) == Pass(values, i)
    {
      var v := values[i];
      if v > peak {
        peak := v;
      }
      var dd := if peak > 0.0 then (peak - v) / peak else 0.0;
      if dd > maxDd {
        maxDd := dd;
      }
    }
    mdd := maxDd * 100.0;
  }

  // ----- What the pass finds -----

  /** What the callers pass: daily values above zero, then the current value of the holdings. */
  predicate NonNegative(values: seq<real>) {
    forall v <- values :: v >= 0.0
  }

  /** d is the largest fraction by which a value lies below the same or an earlier one. */
  ghost predicate IsDeepestFall(values: seq<real>, d: real) {
    && (forall i, j | 0 <= i <= j < |values| :: Below(values[i], values[j]) <= d)
    && (exists i, j :: 0 <= i <= j < |values| && Below(values[i], values[j]) == d)
  }

  lemma QuotientsOrdered(low: real, high: real, v: real, a: real, b: real)
    requires 0.0 < low <= high && v >= 0.0 && a * low == low - v && b * high == high - v
    ensures a <= b
  {
    assert b <= 1.0;
    assert (1.0 - b) * (high - low) >= 0.0;
    assert (b - a) * low >= 0.0;
  }

  /** The fall to a value that is not negative is deeper from higher up. */
  lemma DeeperFromHigher(low: real, high: real, v: real)
    requires low <= high && 0.0 <= v <= high
    ensures Below(low, v) <= Below(high, v)
  {
    if low > 0.0 {
      QuotientsOrdered(low, high, v, Below(low, v), Below(high, v));
    } else if high > 0.0 {
      assert Below(high, v) * high == high - v;
    }
  }

  lemma {:induction false} PeakIsLargest(values: seq<real>, n: nat)
    requires 0 < n <= |values|
    ensures var peak := Pass(values, n).peak;
            (forall i | 0 <= i < n :: values[i] <= peak) && exists i :: 0 <= i < n && values[i] == peak
  {
    if n == 1 {
      assert Pass(values, 0).peak == values[0];
      assert Pass(values, 1) == Step(Pass(values, 0), values[0]);
    } else {
      PeakIsLargest(values, n - 1);
      assert Pass(values, n) == Step(Pass(values, n - 1), values[n - 1]);
    }
  }

  lemma {:induction false} PassFindsDeepest(values: seq<real>, n: nat)
    requires 0 < n <= |values| && NonNegative(values)
    ensures IsDeepestFall(values[..n], Pass(values, n).worst)
  {
    PassBounds(values, n);
    FoundSomewhere(values, n);
    var i, j :| 0 <= i <= j < n && Below(values[i], values[j]) == Pass(values, n).worst;
    assert values[..n][i] == values[i] && values[..n][j] == values[j];
  }

  lemma {:induction false} PassBounds(values: seq<real>, n: nat)
    requires n <= |values| && values != [] && NonNegative(values)
    ensures Pass(values, n).worst >= 0.0
    ensures forall i, j | 0 <= i <= j < n :: Below(values[i], values[j]) <= Pass(values, n).worst
  {
    if n > 0 {
      PassBounds(values, n - 1);
      var before, now := Pass(values, n - 1), Pass(values, n);
      assert now == Step(before, values[n - 1]);
      assert before.worst <= now.worst && Below(now.peak, values[n - 1]) <= now.worst;
      forall i | 0 <= i < n
        ensures Below(values[i], values[n - 1]) <= now.worst
      {
        PeakIsLargest(values, n);
        assert values[n - 1] in values;
        DeeperFromHigher(values[i], now.peak, values[n - 1]);
      }
    }
  }

  lemma {:induction false} FoundSomewhere(values: seq<real>, n: nat)
    requires 0 < n <= |values|
    ensures exists i, j :: 0 <= i <= j < n && Below(values[i], values[j]) == Pass(values, n).worst
  {
    var before, now := Pass(values, n - 1), Pass(values, n);
    assert now == Step(before, values[n - 1]);
    if now.worst != before.worst {
      PeakIsLargest(values, n);
      var i :| 0 <= i < n && values[i] == now.peak;
      assert Below(values[i], values[n - 1]) == now.worst;
    } else if n > 1 {
      FoundSomewhere(values, n - 1);
    } else {
      assert Below(values[0], values[0]) == 0.0;
    }
  }

  lemma DeepestIsUnique(values: seq<real>, d: real, e: real)
    requires IsDeepestFall(values, d) && IsDeepestFall(values, e)
    ensures d == e
  {
    var i, j :| 0 <= i <= j < |values| && Below(values[i], values[j]) == d;
    var k, l :| 0 <= k <= l < |values| && Below(values[k], values[l]) == e;
    assert d <= e <= d;
  }

  /** The one pass computes 100 times the deepest fall between any two positions, and reaches 100 exactly
    * when some positive value is followed by nothing left. */
  lemma DrawdownIsDeepestFall(values: seq<real>)
    requires |values| >= 2 && NonNegative(values)
    ensures IsDeepestFall(values, MaxDrawdown(values) / 100.0)
    ensures 0.0 <= MaxDrawdown(values) <= 100.0
    ensures MaxDrawdown(values) == 100.0 <==>
              exists i, j :: 0 <= i < j < |values| && values[i] > 0.0 && values[j] == 0.0
  {
    PassFindsDeepest(values, |values|);
    assert values[..|values|] == values;
    DeepestInRange(values, Pass(values, |values|).worst);
  }

  lemma DeepestInRange(values: seq<real>, d: real)
    requires IsDeepestFall(values, d) && NonNegative(values)
    ensures 0.0 <= d <= 1.0
    ensures d == 1.0 <==> exists i, j :: 0 <= i < j < |values| && values[i] > 0.0 && values[j] == 0.0
  {
    var i, j :| 0 <= i <= j < |values| && Below(values[i], values[j]) == d;
    assert values[i] in values && values[j] in values;
    assert Below(values[i], values[i]) == 0.0;
    FallsAtMostAll(values[i], values[j]);
    if k, l :| 0 <= k < l < |values| && values[k] > 0.0 && values[l] == 0.0 {
      FallsAtMostAll(values[k], values[l]);
      assert Below(values[k], values[l]) == 1.0;
    }
  }

  lemma FallsAtMostAll(from: real, to: real)
    requires from >= 0.0 && to >= 0.0
    ensures Below(from, to) <= 1.0
    ensures Below(from, to) == 1.0 <==> from > 0.0 && to == 0.0
  {
    if from > 0.0 {
      assert Below(from, to) * from == from - to;
    }
  }

  // ----- Consequences -----

  function Scaled(values: seq<real>, k: real): seq<real> {
    seq(|values|, i requires 0 <= i < |values| => values[i] * k)
  }

  lemma ScaledOrder(a: real, b: real, k: real)
    requires k > 0.0
    ensures a * k > b * k <==> a > b
  {
    if a > b {
      assert (a - b) * k > 0.0;
    } else {
      assert (b - a) * k >= 0.0;
    }
  }

  lemma ScaledBelow(a: real, b: real, k: real)
    requires k > 0.0
    ensures Below(a * k, b * k) == Below(a, b)
  {
    ScaledOrder(a, 0.0, k);
    if a > 0.0 {
      var q := Below(a, b);
      assert q * a == a - b;
      assert q * (a * k) == (q * a) * k == a * k - b * k;
    }
  }

  ghost predicate IsScaled(r: Running, s: Running, k: real) {
    s.peak == r.peak * k && s.worst == r.worst
  }

  lemma ScaledStep(r: Running, s: Running, v: real, w: real, k: real)
    requires k > 0.0 && IsScaled(r, s, k) && w == v * k
    ensures IsScaled(Step(r, v), Step(s, w), k)
  {
    ScaledOrder(v, r.peak, k);
    ScaledBelow(Step(r, v).peak, v, k);
  }

  lemma ScaledStart(v: real, w: real, k: real)
    requires w == v * k
    ensures IsScaled(Running(v, 0.0), Running(w, 0.0), k)
  {
  }

  lemma {:induction false} ScalingKeepsPass(values: seq<real>, k: real, n: nat)
    requires 0 < |values| && n <= |values| && k > 0.0
    ensures IsScaled(Pass(values, n), Pass(Scaled(values, k), n), k)
  {
    var scaled := Scaled(values, k);
    if n == 0 {
      ScaledStart(values[0], scaled[0], k);
    } else {
      ScalingKeepsPass(values, k, n - 1);
      ScaledStep(Pass(values, n - 1), Pass(scaled, n - 1), values[n - 1], scaled[n - 1], k);
      assert Pass(values, n) == Step(Pass(values, n - 1), values[n - 1]);
      assert Pass(scaled, n) == Step(Pass(scaled, n - 1), scaled[n - 1]);
    }
  }

  /** A change of currency does not change the drawdown, whatever the signs. */
  lemma ScalingKeepsDrawdown(values: seq<real>, k: real)
    requires k > 0.0
    ensures MaxDrawdown(Scaled(values, k)) == MaxDrawdown(values)
  {
    if |values| >= 2 {
      ScalingKeepsPass(values, k, |values|);
    }
  }

  lemma {:induction false} PassOfPrefix(values: seq<real>, more: seq<real>, n: nat)
    requires 0 < |values| && n <= |values|
    ensures Pass(values + more, n) == Pass(values, n)
  {
    if n > 0 {
      PassOfPrefix(values, more, n - 1);
    }
  }

  lemma {:induction false} WorstNeverFalls(values: seq<real>, m: nat, n: nat)
    requires 0 < |values| && m <= n <= |values|
    ensures 0.0 <= Pass(values, m).worst <= Pass(values, n).worst
    decreases n
  {
    if m < n {
      WorstNeverFalls(values, m, n - 1);
    } else if n > 0 {
      WorstNeverFalls(values, n - 1, n - 1);
    }
  }

  /** Appending values never lowers the drawdown already reached, whatever the signs. */
  lemma AppendingNeverLowers(values: seq<real>, more: seq<real>)
    ensures MaxDrawdown(values) <= MaxDrawdown(values + more)
  {
    if |values| >= 2 {
      PassOfPrefix(values, more, |values|);
      WorstNeverFalls(values + more, |values|, |values + more|);
    } else if |values + more| >= 2 {
      WorstNeverFalls(values + more, 0, |values + more|);
    }
  }
}
