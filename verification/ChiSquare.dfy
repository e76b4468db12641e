/** The 2 x 3 chi-square statistic comparing the action counts of two model variants. */
module ChiSquare {

  /** Counts of the categories "block", "review" and "pass", in that order. */
  datatype Counts = Counts(block: nat, review: nat, pass: nat) {
    function Get(i: nat): nat
      requires i < 3
    {
      if i == 0 then block else if i == 1 then review else pass
    }

    function Total(): nat { block + review + pass }
  }

  /** TooSmall stands for the "sample too small" answer, whose statistic is reported as 0. */
  datatype Statistic = TooSmall | ChiSquare(chi2: real)

  function Square(x: real): real { x * x }

  /** The expected count of category i in the sample of size n, of the two samples' total. */
  function Expected(n: nat, column: nat, total: nat): real
    requires total > 0
  {
    n as real * column as real / total as real
  }

  /** What one category adds: the squared deviations of both observed counts, each over its expected count. */
  ghost function Term(a: nat, b: nat, na: nat, nb: nat): real
    requires na > 0 && nb > 0
  {
    if a + b == 0 then 0.0
    else
      var ea, eb := Expected(na, a + b, na + nb), Expected(nb, a + b, na + nb);
      ExpectedPositive(na, a + b, na + nb);
      ExpectedPositive(nb, a + b, na + nb);
      Square(a as real - ea) / ea + Square(b as real - eb) / eb
  }

  lemma ExpectedPositive(n: nat, column: nat, total: nat)
    requires n > 0 && column > 0 && total > 0
    ensures Expected(n, column, total) > 0.0
  {
    assert n as real * column as real > 0.0;
  }

  lemma TermValue(a: nat, b: nat, na: nat, nb: nat, ea: real, eb: real)
    requires na > 0 && nb > 0 && a + b > 0
    requires ea == Expected(na, a + b, na + nb) && eb == Expected(nb, a + b, na + nb)
    ensures ea > 0.0 && eb > 0.0
    ensures Term(a, b, na, nb) == Square(a as real - ea) / ea + Square(b as real - eb) / eb
  {
    ExpectedPositive(na, a + b, na + nb);
    ExpectedPositive(nb, a + b, na + nb);
  }

  ghost function Terms(x: Counts, y: Counts, k: nat): real
    requires x.Total() > 0 && y.Total() > 0 && k <= 3
  {
    if k == 0 then 0.0 else Terms(x, y, k - 1) + Term(x.Get(k - 1), y.Get(k - 1), x.Total(), y.Total())
  }

  method ChiSquare3Way(x: Counts, y: Counts) returns (r: Statistic)
    ensures r.TooSmall? <==> x.Total() == 0 || y.Total() == 0
    ensures r.ChiSquare? ==> r.chi2 == Terms(x, y, 3)
  {
    var na, nb := x.Total(), y.Total();
    if na == 0 || nb == 0 {
      return TooSmall;
    }
    var total := na + nb;
    var chi2 := 0.0;
    for i := 0 to 3
      invariant chi2 == Terms(x, y, i)
    {
      var column := x.Get(i) + y.Get(i);
      if column == 0 {
        continue;
      }
      var ea, eb := Expected(na, column, total), Expected(nb, column, total);
      var da, db := x.Get(i) as real - ea, y.Get(i) as real - eb;
      TermValue(x.Get(i), y.Get(i), na, nb, ea, eb);
      if ea > 0.0 {
        chi2 := chi2 + Square(da) / ea;
      }
      if eb > 0.0 {
        chi2 := chi2 + Square(db) / eb;
      }
    }
    r := ChiSquare(chi2);
  }

  // ---- One category in closed form -----------------------------------------------------------------

  /** The cross difference of a category: zero when its share is the same in both samples. */
  ghost function Cross(a: real, b: real, na: real, nb: real): real { a * nb - b * na }

  /** The deviation of a from its expected count e = na (a + b) / (na + nb) is the cross difference, scaled. */
  lemma Deviation(a: real, b: real, na: real, nb: real, e: real)
    requires na > 0.0 && nb > 0.0 && a + b > 0.0 && e * (na + nb) == na * (a + b)
    ensures (a - e) * (na + nb) == Cross(a, b, na, nb)
  {
  }

  /** Over the common denominator, the two deviations are one squared cross difference. */
  lemma OverCommonDenominator(d: real, s: real, t: real, c: real, na: real, nb: real, ea: real, eb: real)
    requires na > 0.0 && nb > 0.0 && c > 0.0 && t == na + nb
    requires ea * t == na * c && eb * t == nb * c && ea > 0.0 && eb > 0.0
    requires d * t == s
    ensures (Square(d) / ea + Square(d) / eb) * (na * nb * c) == Square(s)
  {
    Quotient(d, s, t, c, na, ea);
    Quotient(d, s, t, c, nb, eb);
    var qa, qb := Square(d) / ea, Square(d) / eb;
    // qa * (na * c * t) == s^2 and qb * (nb * c * t) == s^2
    assert qa * (na * c * t) == Square(s) && qb * (nb * c * t) == Square(s);
    Combine(qa, qb, na, nb, c, Square(s));
  }

  lemma Quotient(d: real, s: real, t: real, c: real, n: real, e: real)
    requires n > 0.0 && c > 0.0 && t > 0.0 && e > 0.0 && e * t == n * c && d * t == s
    ensures Square(d) / e * (n * c * t) == Square(s)
  {
    var q := Square(d) / e;
    assert q * e == Square(d);
    calc {
      q * (n * c * t);
      q * (e * t * t);
      (q * e) * (t * t);
      Square(d) * (t * t);
      (d * t) * (d * t);
      Square(s);
    }
  }

  lemma Combine(qa: real, qb: real, na: real, nb: real, c: real, s2: real)
    requires na > 0.0 && nb > 0.0 && c > 0.0
    requires qa * (na * c * (na + nb)) == s2 && qb * (nb * c * (na + nb)) == s2
    ensures (qa + qb) * (na * nb * c) == s2
  {
    var t := na + nb;
    calc {
      (qa + qb) * (na * nb * c) * t;
      (qa * (na * c * t)) * nb + (qb * (nb * c * t)) * na;
      s2 * nb + s2 * na;
      s2 * t;
    }
    Cancel((qa + qb) * (na * nb * c), s2, t);
  }

  lemma Cancel(x: real, y: real, t: real)
    requires t != 0.0 && x * t == y * t
    ensures x == y
  {
    assert (x - y) * t == 0.0;
  }

  lemma ExpectedProduct(n: nat, column: nat, total: nat)
    requires total > 0
    ensures Expected(n, column, total) * total as real == n as real * column as real
  {
  }

  lemma ClosedForm(x: real, y: real, m: real, n: real, c: real, t: real, ea: real, eb: real)
    requires m > 0.0 && n > 0.0 && c > 0.0 && c == x + y && t == m + n
    requires ea > 0.0 && eb > 0.0 && ea * t == m * c && eb * t == n * c
    ensures (Square(x - ea) / ea + Square(y - eb) / eb) * (m * n * c) == Square(Cross(x, y, m, n))
  {
    Deviation(x, y, m, n, ea);
    Deviation(y, x, n, m, eb);
    Opposite(y - eb, x - ea, t);
    assert Square(y - eb) == Square(x - ea);
    OverCommonDenominator(x - ea, Cross(x, y, m, n), t, c, m, n, ea, eb);
  }

  /** Times na nb (a + b), the term of a category is the square of its cross difference. */
  lemma TermClosedForm(a: nat, b: nat, na: nat, nb: nat)
    requires na > 0 && nb > 0 && a + b > 0
    ensures Term(a, b, na, nb) * (na as real * nb as real * (a + b) as real)
         == Square(Cross(a as real, b as real, na as real, nb as real))
  {
    var ea, eb := Expected(na, a + b, na + nb), Expected(nb, a + b, na + nb);
    ExpectedProduct(na, a + b, na + nb);
    ExpectedProduct(nb, a + b, na + nb);
    TermValue(a, b, na, nb, ea, eb);
    ClosedForm(a as real, b as real, na as real, nb as real, (a + b) as real, (na + nb) as real, ea, eb);
  }

  lemma Opposite(x: real, y: real, t: real)
    requires t != 0.0 && x * t == -(y * t)
    ensures x == -y
  {
    Cancel(x, -y, t);
  }

  // ---- Bounds of one category ------------------------------------------------------------------------

  /** The most a category can add: a nb / na + b na / nb. */
  ghost function Ceiling(a: nat, b: nat, na: nat, nb: nat): real
    requires na > 0 && nb > 0
  {
    a as real * (nb as real / na as real) + b as real * (na as real / nb as real)
  }

  lemma SignOfProduct(x: real, d: real)
    requires d > 0.0
    ensures x * d >= 0.0 <==> x >= 0.0
    ensures x * d == 0.0 <==> x == 0.0
  {
    if x * d == 0.0 { Cancel(x, 0.0, d); }
  }

  lemma CeilingProduct(a: real, b: real, m: real, n: real)
    requires m > 0.0 && n > 0.0
    ensures (a * (n / m) + b * (m / n)) * (m * n) == a * n * n + b * m * m
  {
    assert (n / m) * m == n && (m / n) * n == m;
    calc {
      (a * (n / m) + b * (m / n)) * (m * n);
      a * ((n / m) * m) * n + b * ((m / n) * n) * m;
      a * n * n + b * m * m;
    }
  }

  lemma CauchySlack(a: real, b: real, m: real, n: real)
    ensures (a * n * n + b * m * m) * (a + b) == Square(Cross(a, b, m, n)) + a * b * Square(m + n)
  {
  }

  lemma CeilingSlack(u: real, t: real, a: real, b: real, m: real, n: real, c: real)
    requires m > 0.0 && n > 0.0 && c == a + b
    requires u * (m * n) == a * n * n + b * m * m
    requires t * (m * n * c) == Square(Cross(a, b, m, n))
    ensures (u - t) * (m * n * c) == a * b * Square(m + n)
  {
    CauchySlack(a, b, m, n);
    assert u * (m * n * c) == (u * (m * n)) * c;
  }

  /** A category adds a non-negative amount, nothing exactly when its share is the same in both samples, and at
      most its ceiling, which it reaches exactly when only one sample uses it. */
  lemma TermBounds(a: nat, b: nat, na: nat, nb: nat)
    requires na > 0 && nb > 0
    ensures 0.0 <= Term(a, b, na, nb) <= Ceiling(a, b, na, nb)
    ensures Term(a, b, na, nb) == 0.0 <==> a * nb == b * na
    ensures Term(a, b, na, nb) == Ceiling(a, b, na, nb) <==> a == 0 || b == 0
  {
    if a + b > 0 {
      TermSign(a, b, na, nb);
      TermCeiling(a, b, na, nb);
    }
  }

  lemma DenominatorPositive(a: nat, b: nat, na: nat, nb: nat)
    requires na > 0 && nb > 0 && a + b > 0
    ensures na as real * nb as real * (a + b) as real > 0.0
  {
    assert na as real * nb as real > 0.0;
  }

  lemma TermSign(a: nat, b: nat, na: nat, nb: nat)
    requires na > 0 && nb > 0 && a + b > 0
    ensures Term(a, b, na, nb) >= 0.0
    ensures Term(a, b, na, nb) == 0.0 <==> a * nb == b * na
  {
    var d := na as real * nb as real * (a + b) as real;
    var cross := Cross(a as real, b as real, na as real, nb as real);
    DenominatorPositive(a, b, na, nb);
    TermClosedForm(a, b, na, nb);
    SquareSign(cross);
    SignOfProduct(Term(a, b, na, nb), d);
    CrossOfCounts(a, b, na, nb);
  }

  lemma SquareSign(x: real)
    ensures Square(x) >= 0.0 && (Square(x) == 0.0 <==> x == 0.0)
  {
    var y := if x < 0.0 then -x else x;
    assert Square(x) == x * x == y * y;
    if y > 0.0 {
      SignOfProduct(y, y);
    }
  }

  lemma CrossOfCounts(a: nat, b: nat, na: nat, nb: nat)
    ensures Cross(a as real, b as real, na as real, nb as real) == (a * nb - b * na) as real
  {
  }

  lemma TermCeiling(a: nat, b: nat, na: nat, nb: nat)
    requires na > 0 && nb > 0 && a + b > 0
    ensures Term(a, b, na, nb) <= Ceiling(a, b, na, nb)
    ensures Term(a, b, na, nb) == Ceiling(a, b, na, nb) <==> a == 0 || b == 0
  {
    DenominatorPositive(a, b, na, nb);
    TermClosedForm(a, b, na, nb);
    CeilingProduct(a as real, b as real, na as real, nb as real);
    FromClosedForm(Ceiling(a, b, na, nb), Term(a, b, na, nb), a as real, b as real, na as real, nb as real,
                   (a + b) as real);
  }

  lemma FromClosedForm(u: real, t: real, a: real, b: real, m: real, n: real, c: real)
    requires m > 0.0 && n > 0.0 && a >= 0.0 && b >= 0.0 && c == a + b && m * n * c > 0.0
    requires u * (m * n) == a * n * n + b * m * m
    requires t * (m * n * c) == Square(Cross(a, b, m, n))
    ensures t <= u && (t == u <==> a == 0.0 || b == 0.0)
  {
    CeilingSlack(u, t, a, b, m, n, c);
    FromSlack(u - t, m * n * c, a, b, m + n);
  }

  lemma FromSlack(slack: real, d: real, a: real, b: real, t: real)
    requires d > 0.0 && a >= 0.0 && b >= 0.0 && t > 0.0
    requires slack * d == a * b * Square(t)
    ensures slack >= 0.0
    ensures slack == 0.0 <==> a == 0.0 || b == 0.0
  {
    SlackSign(a, b, t);
    SignOfProduct(slack, d);
  }

  lemma SlackSign(a: real, b: real, t: real)
    requires a >= 0.0 && b >= 0.0 && t > 0.0
    ensures a * b * Square(t) >= 0.0
    ensures a * b * Square(t) == 0.0 <==> a == 0.0 || b == 0.0
  {
    SquareSign(t);
    SignOfProduct(a * b, Square(t));
    if a > 0.0 { SignOfProduct(b, a); }
  }

  // ---- The statistic -----------------------------------------------------------------------------------

  lemma {:induction false} TermsBounds(x: Counts, y: Counts, k: nat)
    requires x.Total() > 0 && y.Total() > 0 && k <= 3
    ensures 0.0 <= Terms(x, y, k) <= Ceilings(x, y, k)
    ensures Terms(x, y, k) == 0.0
       <==> forall i :: 0 <= i < k ==> x.Get(i) * y.Total() == y.Get(i) * x.Total()
    ensures Terms(x, y, k) == Ceilings(x, y, k) <==> forall i :: 0 <= i < k ==> x.Get(i) == 0 || y.Get(i) == 0
  {
    if k > 0 {
      TermsBounds(x, y, k - 1);
      TermBounds(x.Get(k - 1), y.Get(k - 1), x.Total(), y.Total());
    }
  }

  ghost function Ceilings(x: Counts, y: Counts, k: nat): real
    requires x.Total() > 0 && y.Total() > 0 && k <= 3
  {
    if k == 0 then 0.0 else Ceilings(x, y, k - 1) + Ceiling(x.Get(k - 1), y.Get(k - 1), x.Total(), y.Total())
  }

  lemma CeilingsSum(x: Counts, y: Counts)
    requires x.Total() > 0 && y.Total() > 0
    ensures Ceilings(x, y, 3) == (x.Total() + y.Total()) as real
  {
    var m, n := x.Total() as real, y.Total() as real;
    var p, q := n / m, m / n;
    assert Ceilings(x, y, 3) == Ceiling(x.block, y.block, x.Total(), y.Total())
      + Ceiling(x.review, y.review, x.Total(), y.Total()) + Ceiling(x.pass, y.pass, x.Total(), y.Total()) by {
      assert Ceilings(x, y, 0) == 0.0;
      assert Ceilings(x, y, 1) == Ceiling(x.block, y.block, x.Total(), y.Total());
      assert Ceilings(x, y, 2) == Ceilings(x, y, 1) + Ceiling(x.review, y.review, x.Total(), y.Total());
    }
    Distribute(x.block as real, x.review as real, x.pass as real, p);
    Distribute(y.block as real, y.review as real, y.pass as real, q);
    assert m * p == n && n * q == m;
  }

  lemma Distribute(a: real, b: real, c: real, p: real)
    ensures a * p + b * p + c * p == (a + b + c) * p
  {
  }

  /** The statistic of two non-empty samples lies between 0 and the number of observations.  It is 0 exactly when
      every category has the same share in both samples, and reaches the maximum exactly when no category occurs
      in both. */
  lemma StatisticBounds(x: Counts, y: Counts)
    requires x.Total() > 0 && y.Total() > 0
    ensures 0.0 <= Terms(x, y, 3) <= (x.Total() + y.Total()) as real
    ensures Terms(x, y, 3) == 0.0
       <==> forall i :: 0 <= i < 3 ==> x.Get(i) * y.Total() == y.Get(i) * x.Total()
    ensures Terms(x, y, 3) == (x.Total() + y.Total()) as real
       <==> forall i :: 0 <= i < 3 ==> x.Get(i) == 0 || y.Get(i) == 0
  {
    TermsBounds(x, y, 3);
    CeilingsSum(x, y);
  }

  /** Swapping the variants does not change the statistic. */
  lemma {:induction false} StatisticSymmetric(x: Counts, y: Counts, k: nat)
    requires x.Total() > 0 && y.Total() > 0 && k <= 3
    ensures Terms(x, y, k) == Terms(y, x, k)
  {
    if k > 0 {
      StatisticSymmetric(x, y, k - 1);
      TermSymmetric(x.Get(k - 1), y.Get(k - 1), x.Total(), y.Total());
    }
  }

  lemma TermSymmetric(a: nat, b: nat, na: nat, nb: nat)
    requires na > 0 && nb > 0
    ensures Term(a, b, na, nb) == Term(b, a, nb, na)
  {
    assert a + b == b + a && na + nb == nb + na;
  }

  /** The expected counts of a sample add up to its size. */
  lemma ExpectedCountsSum(x: Counts, y: Counts)
    requires x.Total() > 0 && y.Total() > 0
    ensures var n, t := x.Total(), x.Total() + y.Total();
      Expected(n, x.block + y.block, t) + Expected(n, x.review + y.review, t) + Expected(n, x.pass + y.pass, t)
      == n as real
  {
    var n, t := x.Total(), x.Total() + y.Total();
    ExpectedProduct(n, x.block + y.block, t);
    ExpectedProduct(n, x.review + y.review, t);
    ExpectedProduct(n, x.pass + y.pass, t);
    SumOfThree(Expected(n, x.block + y.block, t), Expected(n, x.review + y.review, t), Expected(n, x.pass + y.pass, t),
               (x.block + y.block) as real, (x.review + y.review) as real, (x.pass + y.pass) as real, n as real,
                t as real);
  }

  lemma SumOfThree(e1: real, e2: real, e3: real, c1: real, c2: real, c3: real, n: real, t: real)
    requires t > 0.0 && t == c1 + c2 + c3 && e1 * t == n * c1 && e2 * t == n * c2 && e3 * t == n * c3
    ensures e1 + e2 + e3 == n
  {
    assert (e1 + e2 + e3) * t == n * c1 + n * c2 + n * c3 == n * t;
    Cancel(e1 + e2 + e3, n, t);
  }
}
