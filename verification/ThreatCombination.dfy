/** Combining threat-feed reports into one score: the noisy-or of their weighted scores. */
module ThreatCombination {
  import opened Numbers
  import opened Products
  import opened Sums

  datatype Report = Report(indicator: string, score: real, source: string, weight: real)

  /** Scores and weights outside [0, 1] are clamped. */
  function Clamp(x: real): real { Max(0.0, Min(1.0, x)) }

  lemma ClampLaw(x: real)
    ensures 0.0 <= Clamp(x) <= 1.0 && (0.0 <= x <= 1.0 ==> Clamp(x) == x)
    ensures (x <= 0.0 ==> Clamp(x) == 0.0) && (x >= 1.0 ==> Clamp(x) == 1.0)
  {
  }

  function Effective(r: Report): (e: real)
    ensures 0.0 <= e <= 1.0
  {
    UnitProduct(Clamp(r.score), Clamp(r.weight));
    Clamp(r.score) * Clamp(r.weight)
  }

  /** Inside [0, 1] the effective score is the product of score and weight; outside it saturates; a report that
      scores and weighs no less is no less effective. */
  lemma EffectiveLaw(r: Report, t: Report)
    ensures 0.0 <= r.score <= 1.0 && 0.0 <= r.weight <= 1.0 ==> Effective(r) == r.score * r.weight
    ensures r.score <= 0.0 || r.weight <= 0.0 ==> Effective(r) == 0.0
    ensures r.score >= 1.0 ==> Effective(r) == Clamp(r.weight)
    ensures r.weight >= 1.0 ==> Effective(r) == Clamp(r.score)
    ensures r.score <= t.score && r.weight <= t.weight ==> Effective(r) <= Effective(t)
  {
    if r.score <= t.score && r.weight <= t.weight {
      ProductGrows(Clamp(r.score), Clamp(t.score), Clamp(r.weight), Clamp(t.weight));
    }
  }

  lemma ProductGrows(x: real, x': real, y: real, y': real)
    requires 0.0 <= x <= x' && 0.0 <= y <= y'
    ensures x * y <= x' * y'
  {
    NonNegative(x' - x, y');
    NonNegative(x, y' - y);
    assert x' * y' - x * y == (x' - x) * y' + x * (y' - y);
  }

  function Score(): (f: Report -> real)
    ensures forall r :: f(r) == Effective(r)
  {
    (r: Report) => Effective(r)
  }

  /** The probability that a feed is wrong. */
  function Doubt(): (f: Report -> real)
    ensures forall r :: f(r) == 1.0 - Effective(r)
  {
    (r: Report) => 1.0 - Effective(r)
  }

  /** One minus the probability that all feeds are wrong, the feeds being independent. */
  ghost function Combined(reports: seq<Report>): real { 1.0 - ProductOf(Doubt(), reports) }

  datatype Feed = Feed(source: string, score: real, weight: real, effective: real)

  function Summary(r: Report): Feed { Feed(r.source, Clamp(r.score), Clamp(r.weight), Effective(r)) }

  datatype Combination = Combination(score: real, feeds: seq<Feed>, n: nat)

  method CombineReports(reports: seq<Report>) returns (c: Combination)
    ensures c.score == Combined(reports) && c.n == |reports| == |c.feeds|
    ensures forall i :: 0 <= i < |reports| ==> c.feeds[i] == Summary(reports[i])
  {
    if reports == [] {
      return Combination(0.0, [], 0);
    }
    var product, feeds := 1.0, [];
    for i := 0 to |reports|
      invariant product == ProductOf(Doubt(), reports[..i]) && |feeds| == i
      invariant forall k :: 0 <= k < i ==> feeds[k] == Summary(reports[k])
    {
      var feed := Summary(reports[i]);
      ProductOfSnoc(Doubt(), reports[..i], reports[i]);
      assert reports[..i + 1] == reports[..i] + [reports[i]];
      product := product * (1.0 - feed.effective);
      feeds := feeds + [feed];
    }
    assert reports[..|reports|] == reports;
    c := Combination(1.0 - product, feeds, |reports|);
  }

  /** The combined score lies between 0 and 1 and is at most the sum of the effective scores. */
  lemma CombinedBounds(reports: seq<Report>)
    ensures 0.0 <= Combined(reports) <= 1.0
    ensures Combined(reports) <= SumOf(Score(), reports)
  {
    ProductOfBounds(Doubt(), Score(), reports);
  }

  /** Two lists combine like two feeds. */
  lemma CombineAppend(xs: seq<Report>, ys: seq<Report>)
    ensures Combined(xs + ys) == 1.0 - (1.0 - Combined(xs)) * (1.0 - Combined(ys))
  {
    ProductOfAppend(Doubt(), xs, ys);
    Complement(Combined(xs + ys), Combined(xs), Combined(ys), ProductOf(Doubt(), xs), ProductOf(Doubt(), ys));
  }

  lemma Complement(c: real, x: real, y: real, p: real, q: real)
    requires c == 1.0 - p * q && x == 1.0 - p && y == 1.0 - q
    ensures c == 1.0 - (1.0 - x) * (1.0 - y)
  {
  }

  /** Another report, wherever it stands, never lowers the score, and no report alone exceeds it. */
  lemma AddingNeverLowers(reports: seq<Report>, k: nat)
    requires k < |reports|
    ensures Combined(reports) >= Combined(reports[..k] + reports[k + 1..])
    ensures Combined(reports) >= Effective(reports[k])
  {
    var others := reports[..k] + reports[k + 1..];
    ProductOfWithout(Doubt(), reports, k);
    DoubtBounds(others);
    var all, p, d := ProductOf(Doubt(), reports), ProductOf(Doubt(), others), Doubt()(reports[k]);
    Factor(all, p, d);
    assert Combined(reports) == 1.0 - all && Combined(others) == 1.0 - p;
  }

  lemma DoubtBounds(reports: seq<Report>)
    ensures 0.0 <= ProductOf(Doubt(), reports) <= 1.0
  {
    CombinedBounds(reports);
  }

  lemma Factor(all: real, p: real, d: real)
    requires all == d * p && 0.0 <= p <= 1.0 && 0.0 <= d <= 1.0
    ensures all <= p && all <= d
  {
    NonNegative(1.0 - d, p);
    NonNegative(1.0 - p, d);
    assert (1.0 - d) * p == p - d * p;
    assert (1.0 - p) * d == d - d * p;
  }

  /** The order of the reports does not matter. */
  lemma OrderIrrelevant(xs: seq<Report>, ys: seq<Report>)
    requires multiset(xs) == multiset(ys)
    ensures Combined(xs) == Combined(ys)
  {
    ProductOfPermuted(Doubt(), xs, ys);
  }
}
