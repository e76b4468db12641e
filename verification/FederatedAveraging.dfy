/** Weighted averaging of client predictions.  Client i is represented by outputs[i], its positive-class
    probability for each of the m samples of X. */
module FederatedAveraging {
  import opened Options

  type Vector = seq<real>

  /** Every client predicts the same m samples. */
  ghost predicate Rectangular(outputs: seq<Vector>, m: nat) {
    forall i :: 0 <= i < |outputs| ==> |outputs[i]| == m
  }

  function Zeros(m: nat): (v: Vector)
    ensures |v| == m && forall k :: 0 <= k < m ==> v[k] == 0.0
  {
    seq(m, _ => 0.0)
  }

  function Add(u: Vector, v: Vector): (w: Vector)
    requires |u| == |v|
    ensures |w| == |u| && forall k :: 0 <= k < |u| ==> w[k] == u[k] + v[k]
  {
    seq(|u|, k requires 0 <= k < |u| => u[k] + v[k])
  }

  function Scale(a: real, v: Vector): (w: Vector)
    ensures |w| == |v| && forall k :: 0 <= k < |v| ==> w[k] == a * v[k]
  {
    seq(|v|, k requires 0 <= k < |v| => a * v[k])
  }

  /** The weights in force: the caller's, or 1/n for each of the n clients. */
  function EffectiveWeights(weights: Option<seq<real>>, n: nat): (ws: seq<real>)
    requires weights.None? ==> n > 0
    ensures weights.None? ==> |ws| == n && forall i :: 0 <= i < n ==> ws[i] * n as real == 1.0
    ensures weights.Some? ==> ws == weights.value
  {
    match weights
    case Some(ws) => ws
    case None => seq(n, _ => 1.0 / n as real)
  }

  /** A client that the zip with a shorter weight list never reaches contributes nothing. */
  function WeightAt(weights: seq<real>, i: nat): real {
    if i < |weights| then weights[i] else 0.0
  }

  /** The weighted sum of the first n clients' predictions for sample k. */
  ghost function Mix(outputs: seq<Vector>, weights: seq<real>, n: nat, k: nat): real
    requires n <= |outputs| && forall i :: 0 <= i < n ==> k < |outputs[i]|
  {
    if n == 0 then 0.0 else Mix(outputs, weights, n - 1, k) + WeightAt(weights, n - 1) * outputs[n - 1][k]
  }

  lemma {:induction false} MixBeyondWeights(outputs: seq<Vector>, weights: seq<real>, n: nat, k: nat)
    requires |weights| <= n <= |outputs| && forall i :: 0 <= i < n ==> k < |outputs[i]|
    ensures Mix(outputs, weights, n, k) == Mix(outputs, weights, |weights|, k)
  {
    if n > |weights| {
      MixBeyondWeights(outputs, weights, n - 1, k);
    }
  }

  method FedAvgPredictProba(outputs: seq<Vector>, m: nat, weights: Option<seq<real>>) returns (probas: Vector)
    requires Rectangular(outputs, m)
    requires weights.None? ==> |outputs| > 0
    ensures |probas| == m
    ensures forall k :: 0 <= k < m ==> probas[k] == Mix(outputs, EffectiveWeights(weights, |outputs|), |outputs|, k)
  {
    var ws := EffectiveWeights(weights, |outputs|);
    var pairs := if |outputs| <= |ws| then |outputs| else |ws|;
    probas := Zeros(m);
    for i := 0 to pairs
      invariant |probas| == m
      invariant forall k :: 0 <= k < m ==> probas[k] == Mix(outputs, ws, i, k)
    {
      probas := Add(probas, Scale(ws[i], outputs[i]));
    }
    if pairs < |outputs| {
      forall k | 0 <= k < m ensures Mix(outputs, ws, |outputs|, k) == Mix(outputs, ws, pairs, k) {
        MixBeyondWeights(outputs, ws, |outputs|, k);
      }
    }
  }

  /** Each client counts by its own weight: if only client j has any, the sum is that weight times its prediction. */
  lemma {:induction false} MixPicks(outputs: seq<Vector>, weights: seq<real>, j: nat, n: nat, k: nat)
    requires j < |outputs| && n <= |outputs| && forall i :: 0 <= i < |outputs| ==> k < |outputs[i]|
    requires forall i: nat :: i < n && i != j ==> WeightAt(weights, i) == 0.0
    ensures Mix(outputs, weights, n, k) == if j < n then WeightAt(weights, j) * outputs[j][k] else 0.0
  {
    if n > 0 {
      MixPicks(outputs, weights, j, n - 1, k);
    }
  }

  /** The sum is additive in the weights. */
  lemma {:induction false} MixAdds(outputs: seq<Vector>, u: seq<real>, v: seq<real>, w: seq<real>, n: nat, k: nat)
    requires n <= |outputs| && forall i :: 0 <= i < |outputs| ==> k < |outputs[i]|
    requires forall i: nat :: i < n ==> WeightAt(w, i) == WeightAt(u, i) + WeightAt(v, i)
    ensures Mix(outputs, w, n, k) == Mix(outputs, u, n, k) + Mix(outputs, v, n, k)
  {
    if n > 0 {
      MixAdds(outputs, u, v, w, n - 1, k);
      Distribute(outputs[n - 1][k], WeightAt(u, n - 1), WeightAt(v, n - 1));
    }
  }

  /** An average with non-negative weights that sum to one stays between the bounds its clients respect. */
  lemma MixWithinBounds(outputs: seq<Vector>, weights: seq<real>, n: nat, k: nat, lo: real, hi: real)
    requires n <= |outputs| && forall i :: 0 <= i < n ==> k < |outputs[i]| && lo <= outputs[i][k] <= hi
    requires forall i :: 0 <= i < n ==> WeightAt(weights, i) >= 0.0
    ensures lo * WeightTotal(weights, n) <= Mix(outputs, weights, n, k) <= hi * WeightTotal(weights, n)
  {
    MixAtLeast(outputs, weights, n, k, lo);
    MixAtMost(outputs, weights, n, k, hi);
  }

  lemma {:induction false} MixAtLeast(outputs: seq<Vector>, weights: seq<real>, n: nat, k: nat, lo: real)
    requires n <= |outputs| && forall i :: 0 <= i < n ==> k < |outputs[i]| && lo <= outputs[i][k]
    requires forall i :: 0 <= i < n ==> WeightAt(weights, i) >= 0.0
    ensures lo * WeightTotal(weights, n) <= Mix(outputs, weights, n, k)
  {
    if n > 0 {
      MixAtLeast(outputs, weights, n - 1, k, lo);
      Distribute(lo, WeightTotal(weights, n - 1), WeightAt(weights, n - 1));
      Scaled(WeightAt(weights, n - 1), lo, outputs[n - 1][k]);
    }
  }

  lemma {:induction false} MixAtMost(outputs: seq<Vector>, weights: seq<real>, n: nat, k: nat, hi: real)
    requires n <= |outputs| && forall i :: 0 <= i < n ==> k < |outputs[i]| && outputs[i][k] <= hi
    requires forall i :: 0 <= i < n ==> WeightAt(weights, i) >= 0.0
    ensures Mix(outputs, weights, n, k) <= hi * WeightTotal(weights, n)
  {
    if n > 0 {
      MixAtMost(outputs, weights, n - 1, k, hi);
      Distribute(hi, WeightTotal(weights, n - 1), WeightAt(weights, n - 1));
      Scaled(WeightAt(weights, n - 1), outputs[n - 1][k], hi);
    }
  }

  lemma Scaled(w: real, x: real, y: real)
    requires w >= 0.0 && x <= y
    ensures x * w <= w * y && w * x <= y * w
  {
    var d := y - x;
    assert w * d >= 0.0;
    assert w * d == w * y - w * x;
  }

  lemma Distribute(x: real, a: real, b: real)
    ensures x * (a + b) == x * a + x * b
  {
  }

  ghost function WeightTotal(weights: seq<real>, n: nat): real {
    if n == 0 then 0.0 else WeightTotal(weights, n - 1) + WeightAt(weights, n - 1)
  }

  lemma {:induction false} EqualShares(n: nat, c: nat)
    requires 0 < n && c <= n
    ensures n as real * WeightTotal(EffectiveWeights(None, n), c) == c as real
  {
    if c > 0 {
      var ws := EffectiveWeights(None, n);
      EqualShares(n, c - 1);
      Distribute(n as real, WeightTotal(ws, c - 1), WeightAt(ws, c - 1));
    }
  }

  /** The default weights are convex. */
  lemma DefaultWeightsConvex(n: nat)
    requires n > 0
    ensures WeightTotal(EffectiveWeights(None, n), n) == 1.0
    ensures forall i: nat :: i < n ==> WeightAt(EffectiveWeights(None, n), i) == 1.0 / n as real > 0.0
  {
    EqualShares(n, n);
  }
}
