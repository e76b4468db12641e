/** Cross-client contribution: permutation-sampled Shapley values of the clients' ensembles. */
module Contribution {
  import opened FederatedAveraging
  import opened Options
  import opened Sums

  /** What is being shared out: predictions, weights, and the scoring of a prediction vector (the ROC AUC
      against the fixed test labels, which is left abstract). */
  datatype Game = Game(outputs: seq<Vector>, m: nat, weights: seq<real>, score: Vector -> real) {
    ghost predicate Valid() {
      Rectangular(outputs, m) && |outputs| <= |weights|
    }
  }

  const EMPTY_COALITION_SCORE: real := 0.5

  function Range(n: nat): (r: seq<nat>)
    ensures |r| == n && forall i :: 0 <= i < n ==> r[i] == i
  {
    seq(n, i requires 0 <= i => i)
  }

  /** perm is a rearrangement of 0..n. */
  ghost predicate IsPermutation(perm: seq<nat>, n: nat) {
    multiset(perm) == multiset(Range(n))
  }

  ghost predicate Within(members: seq<nat>, n: nat) {
    forall j :: 0 <= j < |members| ==> members[j] < n
  }

  function WeightOf(weights: seq<real>): nat -> real {
    (i: nat) => WeightAt(weights, i)
  }

  ghost function TotalWeight(game: Game, members: seq<nat>): real {
    SumOf(WeightOf(game.weights), members)
  }

  /** What one member adds to the renormalised coalition average at sample k. */
  ghost function Share(game: Game, total: real, k: nat): nat -> real {
    (i: nat) => if i < |game.outputs| && k < |game.outputs[i]| && total != 0.0
         then WeightAt(game.weights, i) / total * game.outputs[i][k] else 0.0
  }

  /** The coalition's weighted average prediction, in which a member counts by its share of the weight. */
  ghost function CoalitionAverage(game: Game, members: seq<nat>): Vector {
    seq(game.m, k requires 0 <= k => SumOf(Share(game, TotalWeight(game, members), k), members))
  }

  ghost function CoalitionScore(game: Game, members: seq<nat>): real {
    if members == [] then EMPTY_COALITION_SCORE else game.score(CoalitionAverage(game, members))
  }

  /** No coalition along perm has total weight zero, so that no renormalisation divides by zero. */
  ghost predicate Summable(game: Game, perm: seq<nat>) {
    forall k :: 0 < k <= |perm| ==> TotalWeight(game, perm[..k]) != 0.0
  }

  // ---- Visiting order ----------------------------------------------------------------------------

  /** A coalition's average and score do not depend on the order in which its members joined. */
  lemma CoalitionOrderIrrelevant(game: Game, members: seq<nat>, others: seq<nat>)
    requires multiset(members) == multiset(others)
    ensures CoalitionAverage(game, members) == CoalitionAverage(game, others)
    ensures CoalitionScore(game, members) == CoalitionScore(game, others)
  {
    SumOfPermuted(WeightOf(game.weights), members, others);
    forall k: nat | k < game.m
      ensures CoalitionAverage(game, members)[k] == CoalitionAverage(game, others)[k]
    {
      SumOfPermuted(Share(game, TotalWeight(game, members), k), members, others);
    }
    assert CoalitionAverage(game, members) == CoalitionAverage(game, others);
    assert |multiset(members)| == |members| && |multiset(others)| == |others|;
  }

  /** Renormalised: a coalition's average, times its total weight, is the plain weighted sum of its members. */
  lemma AverageRenormalised(game: Game, members: seq<nat>, k: nat)
    requires Rectangular(game.outputs, game.m) && k < game.m && Within(members, |game.outputs|)
    requires TotalWeight(game, members) != 0.0
    ensures CoalitionAverage(game, members)[k] * TotalWeight(game, members) == SumOf(Weighted(game, k), members)
  {
    ScaleBack(game, TotalWeight(game, members), members, k);
  }

  /** What one member adds to the plain weighted sum at sample k. */
  ghost function Weighted(game: Game, k: nat): nat -> real {
    (i: nat) => if i < |game.outputs| && k < |game.outputs[i]|
         then WeightAt(game.weights, i) * game.outputs[i][k] else 0.0
  }

  lemma {:induction false} ScaleBack(game: Game, total: real, members: seq<nat>, k: nat)
    requires total != 0.0
    ensures SumOf(Share(game, total, k), members) * total == SumOf(Weighted(game, k), members)
  {
    if members != [] {
      ScaleBack(game, total, members[1..], k);
      var share, plain := Share(game, total, k)(members[0]), Weighted(game, k)(members[0]);
      ShareTimesTotal(game, total, members[0], k);
      Spread(share, SumOf(Share(game, total, k), members[1..]), total);
    }
  }

  lemma ShareTimesTotal(game: Game, total: real, i: nat, k: nat)
    requires total != 0.0
    ensures Share(game, total, k)(i) * total == Weighted(game, k)(i)
  {
    if i < |game.outputs| && k < |game.outputs[i]| {
      Quotient(WeightAt(game.weights, i), total, game.outputs[i][k]);
    }
  }

  lemma Quotient(w: real, total: real, p: real)
    requires total != 0.0
    ensures w / total * p * total == w * p
  {
    var q := w / total;
    assert q * total == w;
    assert q * p * total == (q * total) * p;
  }

  lemma Spread(x: real, y: real, t: real)
    ensures (x + y) * t == x * t + y * t
  {
  }

  lemma PositiveWeightsSummable(game: Game, perm: seq<nat>)
    requires forall i :: i in perm ==> WeightAt(game.weights, i) > 0.0
    ensures Summable(game, perm)
  {
    forall k | 0 < k <= |perm| ensures TotalWeight(game, perm[..k]) != 0.0 {
      var first := perm[..k][0];
      assert forall i :: i in perm[..k] ==> i in perm;
      SumOfBounds(WeightOf(game.weights), perm[..k], first);
    }
  }

  // ---- Credits -------------------------------------------------------------------------------------

  /** What the pass along perm has credited to client i after its first k positions. */
  ghost function PassCredit(game: Game, perm: seq<nat>, k: nat, i: nat): real
    requires k <= |perm|
  {
    if k == 0 then 0.0
    else PassCredit(game, perm, k - 1, i)
         + (if perm[k - 1] == i then CoalitionScore(game, perm[..k]) - CoalitionScore(game, perm[..k - 1]) else 0.0)
  }

  ghost function RunCredit(game: Game, perms: seq<seq<nat>>, i: nat): real {
    if perms == [] then 0.0
    else var p := |perms| - 1; RunCredit(game, perms[..p], i) + PassCredit(game, perms[p], |perms[p]|, i)
  }

  lemma RunCreditNext(game: Game, perms: seq<seq<nat>>, p: nat, i: nat)
    requires p < |perms|
    ensures RunCredit(game, perms[..p + 1], i)
         == RunCredit(game, perms[..p], i) + PassCredit(game, perms[p], |perms[p]|, i)
  {
    assert perms[..p + 1][..p] == perms[..p];
  }

  /** A pass credits each client once, with the marginal score of its joining. */
  lemma {:induction false} CreditedOnce(game: Game, perm: seq<nat>, n: nat, pos: nat, k: nat)
    requires IsPermutation(perm, n) && pos < |perm| && k <= |perm|
    ensures PassCredit(game, perm, k, perm[pos])
         == if pos < k then CoalitionScore(game, perm[..pos + 1]) - CoalitionScore(game, perm[..pos]) else 0.0
  {
    if k > 0 {
      CreditedOnce(game, perm, n, pos, k - 1);
      PermutationInjective(perm, n, pos, k - 1);
    }
  }

  lemma RangeMultiplicity(n: nat, i: nat)
    ensures multiset(Range(n))[i] == if i < n then 1 else 0
  {
    if n > 0 {
      RangeMultiplicity(n - 1, i);
      assert Range(n) == Range(n - 1) + [n - 1];
    }
  }

  lemma PermutationInjective(perm: seq<nat>, n: nat, a: nat, b: nat)
    requires IsPermutation(perm, n) && a < |perm| && b < |perm|
    ensures perm[a] == perm[b] <==> a == b
  {
    RangeMultiplicity(n, perm[a]);
    var rest := perm[..a] + perm[a + 1..];
    MultisetWithout(perm, a);
    assert perm[a] !in multiset(rest);
    if a != b {
      assert rest[if b < a then b else b - 1] == perm[b];
    }
  }

  lemma PermutationWithin(perm: seq<nat>, n: nat)
    requires IsPermutation(perm, n)
    ensures |perm| == n && Within(perm, n)
    ensures forall i: nat :: i < n ==> i in perm
  {
    assert |perm| == |multiset(perm)| == |multiset(Range(n))| == n;
    forall j | 0 <= j < |perm| ensures perm[j] < n {
      RangeMultiplicity(n, perm[j]);
      assert perm[j] in multiset(perm);
    }
    forall i: nat | i < n ensures i in perm { RangeMultiplicity(n, i); assert i in multiset(perm); }
  }

  // ---- Efficiency ----------------------------------------------------------------------------------

  ghost function PassTotal(game: Game, perm: seq<nat>, k: nat, n: nat): real
    requires k <= |perm|
  {
    if n == 0 then 0.0 else PassTotal(game, perm, k, n - 1) + PassCredit(game, perm, k, n - 1)
  }

  lemma {:induction false} PassTotalStep(game: Game, perm: seq<nat>, k: nat, n: nat)
    requires 0 < k <= |perm|
    ensures PassTotal(game, perm, k, n) == PassTotal(game, perm, k - 1, n)
          + if perm[k - 1] < n then CoalitionScore(game, perm[..k]) - CoalitionScore(game, perm[..k - 1]) else 0.0
  {
    if n > 0 {
      PassTotalStep(game, perm, k, n - 1);
    }
  }

  /** The credits of a pass telescope to the score of the coalition it has built. */
  lemma {:induction false} PassTelescopes(game: Game, perm: seq<nat>, k: nat, n: nat)
    requires k <= |perm| && Within(perm, n)
    ensures PassTotal(game, perm, k, n) == CoalitionScore(game, perm[..k]) - EMPTY_COALITION_SCORE
  {
    if k == 0 {
      NoCredit(game, perm, n);
    } else {
      PassTelescopes(game, perm, k - 1, n);
      PassTotalStep(game, perm, k, n);
      assert perm[k - 1] in perm;
    }
  }

  lemma {:induction false} NoCredit(game: Game, perm: seq<nat>, n: nat)
    ensures PassTotal(game, perm, 0, n) == 0.0
  {
    if n > 0 { NoCredit(game, perm, n - 1); }
  }

  ghost function RunTotal(game: Game, perms: seq<seq<nat>>, n: nat): real {
    if n == 0 then 0.0 else RunTotal(game, perms, n - 1) + RunCredit(game, perms, n - 1)
  }

  lemma {:induction false} RunTotalNext(game: Game, perms: seq<seq<nat>>, p: nat, n: nat)
    requires p < |perms|
    ensures RunTotal(game, perms[..p + 1], n)
         == RunTotal(game, perms[..p], n) + PassTotal(game, perms[p], |perms[p]|, n)
  {
    if n > 0 {
      RunTotalNext(game, perms, p, n - 1);
      RunCreditNext(game, perms, p, n - 1);
    }
  }

  lemma {:induction false} NoRuns(game: Game, n: nat)
    ensures RunTotal(game, [], n) == 0.0
  {
    if n > 0 { NoRuns(game, n - 1); }
  }

  /** All passes together credit the gain of the full coalition, once per pass. */
  lemma {:induction false} CreditsConserve(game: Game, perms: seq<seq<nat>>, p: nat)
    requires p <= |perms| && |game.outputs| > 0
    requires forall perm :: perm in perms ==> IsPermutation(perm, |game.outputs|)
    ensures RunTotal(game, perms[..p], |game.outputs|)
         == p as real * (CoalitionScore(game, Range(|game.outputs|)) - EMPTY_COALITION_SCORE)
  {
    var n := |game.outputs|;
    if p == 0 {
      NoRuns(game, n);
    } else {
      CreditsConserve(game, perms, p - 1);
      RunTotalNext(game, perms, p - 1, n);
      var perm := perms[p - 1];
      assert perm in perms;
      PermutationWithin(perm, n);
      PassTelescopes(game, perm, n, n);
      assert perm[..n] == perm;
      CoalitionOrderIrrelevant(game, perm, Range(n));
    }
  }

  ghost function ShapleyValue(game: Game, perms: seq<seq<nat>>, i: nat): real
    requires |perms| > 0
  {
    RunCredit(game, perms, i) / |perms| as real
  }

  ghost function ShapleyTotal(game: Game, perms: seq<seq<nat>>, n: nat): real
    requires |perms| > 0
  {
    if n == 0 then 0.0 else ShapleyTotal(game, perms, n - 1) + ShapleyValue(game, perms, n - 1)
  }

  lemma {:induction false} ShapleyTotalScales(game: Game, perms: seq<seq<nat>>, n: nat)
    requires |perms| > 0
    ensures ShapleyTotal(game, perms, n) == RunTotal(game, perms, n) / |perms| as real
  {
    if n > 0 { ShapleyTotalScales(game, perms, n - 1); }
  }

  /** Efficiency: whatever permutations were sampled, the values share out exactly the score of the full
      coalition less the empty one's. */
  lemma Efficiency(game: Game, perms: seq<seq<nat>>)
    requires |perms| > 0 && |game.outputs| > 0
    requires forall perm :: perm in perms ==> IsPermutation(perm, |game.outputs|)
    ensures ShapleyTotal(game, perms, |game.outputs|) == CoalitionScore(game, Range(|game.outputs|)) - 0.5
  {
    CreditsShared(game, perms);
  }

  lemma CreditsShared(game: Game, perms: seq<seq<nat>>)
    requires |perms| > 0 && |game.outputs| > 0
    requires forall perm :: perm in perms ==> IsPermutation(perm, |game.outputs|)
    ensures ShapleyTotal(game, perms, |game.outputs|)
         == CoalitionScore(game, Range(|game.outputs|)) - EMPTY_COALITION_SCORE
  {
    var n, q := |game.outputs|, |perms|;
    assert perms[..q] == perms;
    CreditsConserve(game, perms, q);
    ShapleyTotalScales(game, perms, n);
    var gain := CoalitionScore(game, Range(n)) - EMPTY_COALITION_SCORE;
    assert (q as real * gain) / q as real == gain;
  }

  // ---- The algorithm -------------------------------------------------------------------------------

  lemma PickedShare(game: Game, members: seq<nat>, model: Vector, share: real, j: nat, k: nat)
    requires game.Valid() && k < game.m && Within(members, |game.outputs|) && j < |members|
    requires TotalWeight(game, members) != 0.0
    requires model == game.outputs[members[j]] && share == game.weights[members[j]] / TotalWeight(game, members)
    ensures Share(game, TotalWeight(game, members), k)(members[j]) == share * model[k]
  {
  }

  /** The list comprehensions that pick and renormalise a coalition's models and weights feed the averaging
      routine the coalition average. */
  lemma PickedMix(game: Game, members: seq<nat>, models: seq<Vector>, shares: seq<real>, r: nat, k: nat)
    requires game.Valid() && k < game.m && Within(members, |game.outputs|)
    requires |models| == |shares| == |members| && r <= |members|
    requires TotalWeight(game, members) != 0.0
    requires forall j :: 0 <= j < |members| ==> models[j] == game.outputs[members[j]]
    requires forall j :: 0 <= j < |members| ==> shares[j] == game.weights[members[j]] / TotalWeight(game, members)
    requires Rectangular(models, game.m)
    ensures Mix(models, shares, r, k) == SumOf(Share(game, TotalWeight(game, members), k), members[..r])
  {
    var f := Share(game, TotalWeight(game, members), k);
    forall j | 0 <= j < |members| ensures f(members[j]) == shares[j] * models[j][k] {
      PickedShare(game, members, models[j], shares[j], j, k);
    }
    MixIsSum(f, members, models, shares, r, k);
  }

  lemma {:induction false} MixIsSum(f: nat -> real, members: seq<nat>, models: seq<Vector>, shares: seq<real>, r: nat,
                                    k: nat)
    requires |models| == |shares| == |members| && r <= |members|
    requires forall j :: 0 <= j < |members| ==> k < |models[j]| && f(members[j]) == shares[j] * models[j][k]
    ensures Mix(models, shares, r, k) == SumOf(f, members[..r])
  {
    if r > 0 {
      MixIsSum(f, members, models, shares, r - 1, k);
      SumOfSnoc(f, members[..r - 1], members[r - 1]);
      assert members[..r] == members[..r - 1] + [members[r - 1]];
    }
  }

  method ScoreCoalition(game: Game, members: seq<nat>) returns (score: real)
    requires game.Valid() && members != [] && Within(members, |game.outputs|)
    requires TotalWeight(game, members) != 0.0
    ensures score == CoalitionScore(game, members)
  {
    var models := seq(|members|, j requires 0 <= j < |members| => game.outputs[members[j]]);
    var total := 0.0;
    for j := 0 to |members|
      invariant total == TotalWeight(game, members[..j])
    {
      SumOfSnoc(WeightOf(game.weights), members[..j], members[j]);
      assert members[..j + 1] == members[..j] + [members[j]];
      total := total + game.weights[members[j]];
    }
    assert members[..|members|] == members;
    var shares := seq(|members|, j requires 0 <= j < |members| => game.weights[members[j]] / total);
    var proba := FedAvgPredictProba(models, game.m, Some(shares));
    forall k: nat | k < game.m ensures proba[k] == CoalitionAverage(game, members)[k] {
      PickedMix(game, members, models, shares, |members|, k);
    }
    assert proba == CoalitionAverage(game, members);
    score := game.score(proba);
  }

  method ComputeCciScores(game: Game, perms: seq<seq<nat>>) returns (values: seq<real>)
    requires game.Valid() && |perms| > 0
    requires forall perm :: perm in perms ==> IsPermutation(perm, |game.outputs|) && Summable(game, perm)
    ensures |values| == |game.outputs|
    ensures forall i :: 0 <= i < |values| ==> values[i] == ShapleyValue(game, perms, i)
  {
    var n := |game.outputs|;
    var shapley := new real[n](_ => 0.0);
    for p := 0 to |perms|
      invariant forall i :: 0 <= i < n ==> shapley[i] == RunCredit(game, perms[..p], i)
    {
      var perm := perms[p];
      assert perm in perms;
      PermutationWithin(perm, n);
      var prevScore := EMPTY_COALITION_SCORE;
      for pos := 0 to |perm|
        invariant prevScore == CoalitionScore(game, perm[..pos])
        invariant forall i :: 0 <= i < n ==>
          shapley[i] == RunCredit(game, perms[..p], i) + PassCredit(game, perm, pos, i)
      {
        var score := ScoreCoalition(game, perm[..pos + 1]);
        var marginal := score - prevScore;
        shapley[perm[pos]] := shapley[perm[pos]] + marginal;
        prevScore := score;
      }
      forall i: nat | i < n ensures shapley[i] == RunCredit(game, perms[..p + 1], i) {
        RunCreditNext(game, perms, p, i);
      }
    }
    assert perms[..|perms|] == perms;
    values := seq(n, i requires 0 <= i < n reads shapley => shapley[i] / |perms| as real);
  }
}
