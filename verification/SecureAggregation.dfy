/** Secure aggregation: every client adds pairwise masks to its predictions, and the server's weighted sum is
    meant to cancel them.  draw(i, j) is the random mask of the pair (i, j) before antisymmetrisation. */
module SecureAggregation {
  import opened FederatedAveraging
  import opened Options

  type Draws = (nat, nat) -> Vector

  datatype Outcome = Aggregated(value: Vector) | CancellationFailed

  const TOLERANCE: real := 0.05

  ghost predicate SameLength(draw: Draws, n: nat, m: nat) {
    forall i: nat, j: nat :: i < n && j < n ==> |draw(i, j)| == m
  }

  function Abs(x: real): real { if x < 0.0 then -x else x }

  function Clip(v: Vector): (w: Vector)
    ensures |w| == |v| && forall k :: 0 <= k < |v| ==> w[k] == ClipAt(v[k])
  {
    seq(|v|, k requires 0 <= k < |v| => ClipAt(v[k]))
  }

  /** The nearest number in [0, 1]. */
  function ClipAt(x: real): (y: real)
    ensures 0.0 <= y <= 1.0 && (0.0 <= x <= 1.0 ==> y == x) && (x < 0.0 ==> y == 0.0) && (x > 1.0 ==> y == 1.0)
  {
    if x < 0.0 then 0.0 else if x > 1.0 then 1.0 else x
  }

  // ---- What the masks leave behind -------------------------------------------------------------

  /** Mask (i, j) once the lower triangle has been overwritten by the negated upper one. */
  function PairMask(draw: Draws, i: nat, j: nat): Vector {
    if i <= j then draw(i, j) else Scale(-1.0, draw(j, i))
  }

  /** The sum of client i's first c masks at sample k. */
  ghost function RowMask(draw: Draws, n: nat, m: nat, i: nat, c: nat, k: nat): real
    requires SameLength(draw, n, m) && i < n && c <= n && k < m
  {
    if c == 0 then 0.0 else RowMask(draw, n, m, i, c - 1, k) + PairMask(draw, i, c - 1)[k]
  }

  /** What the first r clients' masks, each the sum of c pair masks, add to the weighted sum at sample k. */
  ghost function MaskedSum(draw: Draws, n: nat, m: nat, ws: seq<real>, r: nat, c: nat, k: nat): real
    requires SameLength(draw, n, m) && r <= n && c <= n && k < m
  {
    if r == 0 then 0.0
    else MaskedSum(draw, n, m, ws, r - 1, c, k) + WeightAt(ws, r - 1) * RowMask(draw, n, m, r - 1, c, k)
  }

  /** The clients' masks with themselves, weighted. */
  ghost function DiagonalResidue(draw: Draws, n: nat, m: nat, ws: seq<real>, c: nat, k: nat): real
    requires SameLength(draw, n, m) && c <= n && k < m
  {
    if c == 0 then 0.0
    else DiagonalResidue(draw, n, m, ws, c - 1, k) + WeightAt(ws, c - 1) * draw(c - 1, c - 1)[k]
  }

  /** The pairs (i, j) with i < r, for one j: each leaves its mask times the difference of the two weights. */
  ghost function CrossColumn(draw: Draws, n: nat, m: nat, ws: seq<real>, r: nat, j: nat, k: nat): real
    requires SameLength(draw, n, m) && r <= j < n && k < m
  {
    if r == 0 then 0.0
    else CrossColumn(draw, n, m, ws, r - 1, j, k) + (WeightAt(ws, r - 1) - WeightAt(ws, j)) * draw(r - 1, j)[k]
  }

  /** All pairs (i, j) with i < j < c. */
  ghost function CrossResidue(draw: Draws, n: nat, m: nat, ws: seq<real>, c: nat, k: nat): real
    requires SameLength(draw, n, m) && c <= n && k < m
  {
    if c == 0 then 0.0
    else CrossResidue(draw, n, m, ws, c - 1, k) + CrossColumn(draw, n, m, ws, c - 1, c - 1, k)
  }

  ghost function Residue(draw: Draws, n: nat, m: nat, ws: seq<real>, k: nat): real
    requires SameLength(draw, n, m) && k < m
  {
    DiagonalResidue(draw, n, m, ws, n, k) + CrossResidue(draw, n, m, ws, n, k)
  }

  ghost function ColumnMask(draw: Draws, n: nat, m: nat, ws: seq<real>, r: nat, j: nat, k: nat): real
    requires SameLength(draw, n, m) && r <= n && j < n && k < m
  {
    if r == 0 then 0.0
    else ColumnMask(draw, n, m, ws, r - 1, j, k) + WeightAt(ws, r - 1) * PairMask(draw, r - 1, j)[k]
  }

  lemma {:induction false} MaskedSumNextColumn(draw: Draws, n: nat, m: nat, ws: seq<real>, r: nat, c: nat, k: nat)
    requires SameLength(draw, n, m) && r <= n && c < n && k < m
    ensures MaskedSum(draw, n, m, ws, r, c + 1, k)
         == MaskedSum(draw, n, m, ws, r, c, k) + ColumnMask(draw, n, m, ws, r, c, k)
  {
    if r > 0 {
      MaskedSumNextColumn(draw, n, m, ws, r - 1, c, k);
      RowNext(draw, n, m, ws, r, c, k);
    }
  }

  /** The same, for what row r adds. */
  lemma RowNext(draw: Draws, n: nat, m: nat, ws: seq<real>, r: nat, c: nat, k: nat)
    requires SameLength(draw, n, m) && 0 < r <= n && c < n && k < m
    requires MaskedSum(draw, n, m, ws, r - 1, c + 1, k)
          == MaskedSum(draw, n, m, ws, r - 1, c, k) + ColumnMask(draw, n, m, ws, r - 1, c, k)
    ensures MaskedSum(draw, n, m, ws, r, c + 1, k)
         == MaskedSum(draw, n, m, ws, r, c, k) + ColumnMask(draw, n, m, ws, r, c, k)
  {
    var w, row, d := WeightAt(ws, r - 1), RowMask(draw, n, m, r - 1, c, k), PairMask(draw, r - 1, c)[k];
    var row' := RowMask(draw, n, m, r - 1, c + 1, k);
    Regroup(w, row, d, row', w * row, w * d, w * row');
  }

  lemma Spread(w: real, x: real, y: real)
    ensures w * (x + y) == w * x + w * y
  {
  }

  lemma Regroup(w: real, row: real, d: real, row': real, x: real, y: real, z: real)
    requires row' == row + d && x == w * row && y == w * d && z == w * row'
    ensures z == x + y
  {
    Spread(w, row, d);
  }

  lemma Meet(w: real, v: real, x: real, d: real)
    ensures w * d + v * (x + -d) == v * x + (w - v) * d
  {
    Spread(v, x, -d);
    Spread(d, w, -v);
  }

  /** The masks of client j against the clients before it meet their negations in those clients' rows. */
  lemma {:induction false} PairsMeet(draw: Draws, n: nat, m: nat, ws: seq<real>, r: nat, j: nat, k: nat)
    requires SameLength(draw, n, m) && r <= j < n && k < m
    ensures ColumnMask(draw, n, m, ws, r, j, k) + WeightAt(ws, j) * RowMask(draw, n, m, j, r, k)
         == CrossColumn(draw, n, m, ws, r, j, k)
  {
    if r > 0 {
      PairsMeet(draw, n, m, ws, r - 1, j, k);
      var d := draw(r - 1, j)[k];
      assert PairMask(draw, r - 1, j)[k] == d && PairMask(draw, j, r - 1)[k] == -d;
      Meet(WeightAt(ws, r - 1), WeightAt(ws, j), RowMask(draw, n, m, j, r - 1, k), d);
    }
  }

  /** What client j adds: its mask with itself, and its pairs with the clients before it. */
  lemma NextClient(draw: Draws, n: nat, m: nat, ws: seq<real>, j: nat, k: nat)
    requires SameLength(draw, n, m) && j < n && k < m
    ensures MaskedSum(draw, n, m, ws, j + 1, j + 1, k)
         == MaskedSum(draw, n, m, ws, j, j, k) + CrossColumn(draw, n, m, ws, j, j, k)
            + WeightAt(ws, j) * draw(j, j)[k]
  {
    MaskedSumNextColumn(draw, n, m, ws, j, j, k);
    PairsMeet(draw, n, m, ws, j, j, k);
    var w, row, d := WeightAt(ws, j), RowMask(draw, n, m, j, j, k), draw(j, j)[k];
    assert RowMask(draw, n, m, j, j + 1, k) == row + d;
    Spread(w, row, d);
  }

  /** The weighted sum of all masks is exactly the diagonal residue plus the cross residue. */
  lemma {:induction false} MaskResidue(draw: Draws, n: nat, m: nat, ws: seq<real>, c: nat, k: nat)
    requires SameLength(draw, n, m) && c <= n && k < m
    ensures MaskedSum(draw, n, m, ws, c, c, k)
         == DiagonalResidue(draw, n, m, ws, c, k) + CrossResidue(draw, n, m, ws, c, k)
  {
    if c > 0 {
      MaskResidue(draw, n, m, ws, c - 1, k);
      NextClient(draw, n, m, ws, c - 1, k);
    }
  }

  // ---- When the masks cancel -------------------------------------------------------------------

  ghost predicate EqualWeights(ws: seq<real>, n: nat) {
    forall i: nat, j: nat :: i < j < n ==> WeightAt(ws, i) == WeightAt(ws, j)
  }

  lemma {:induction false} EqualWeightsCross(draw: Draws, n: nat, m: nat, ws: seq<real>, c: nat, k: nat)
    requires SameLength(draw, n, m) && c <= n && k < m && EqualWeights(ws, n)
    ensures CrossResidue(draw, n, m, ws, c, k) == 0.0
  {
    if c > 0 {
      EqualWeightsCross(draw, n, m, ws, c - 1, k);
      EqualWeightsColumn(draw, n, m, ws, c - 1, c - 1, k);
    }
  }

  lemma {:induction false} EqualWeightsColumn(draw: Draws, n: nat, m: nat, ws: seq<real>, r: nat, j: nat, k: nat)
    requires SameLength(draw, n, m) && r <= j < n && k < m && EqualWeights(ws, n)
    ensures CrossColumn(draw, n, m, ws, r, j, k) == 0.0
  {
    if r > 0 {
      EqualWeightsColumn(draw, n, m, ws, r - 1, j, k);
    }
  }

  /** With equal weights only the diagonal masks remain. */
  lemma EqualWeightsLeaveDiagonal(draw: Draws, n: nat, m: nat, ws: seq<real>, k: nat)
    requires SameLength(draw, n, m) && k < m && EqualWeights(ws, n)
    ensures Residue(draw, n, m, ws, k) == DiagonalResidue(draw, n, m, ws, n, k)
  {
    EqualWeightsCross(draw, n, m, ws, n, k);
  }

  function Constant(m: nat, x: real): (v: Vector)
    ensures |v| == m && forall k :: 0 <= k < m ==> v[k] == x
  {
    seq(m, _ => x)
  }

  /** The draw that masks the single pair (a, b) with ones. */
  function SinglePair(m: nat, a: nat, b: nat): (draw: Draws)
    ensures forall i: nat, j: nat :: draw(i, j) == Constant(m, if i == a && j == b then 1.0 else 0.0)
  {
    (i: nat, j: nat) => Constant(m, if i == a && j == b then 1.0 else 0.0)
  }

  lemma {:induction false} SinglePairResidue(n: nat, m: nat, ws: seq<real>, a: nat, b: nat, c: nat, k: nat)
    requires a < b < n && c <= n && k < m && SameLength(SinglePair(m, a, b), n, m)
    ensures DiagonalResidue(SinglePair(m, a, b), n, m, ws, c, k) == 0.0
    ensures CrossResidue(SinglePair(m, a, b), n, m, ws, c, k)
         == if b < c then WeightAt(ws, a) - WeightAt(ws, b) else 0.0
  {
    if c > 0 {
      SinglePairResidue(n, m, ws, a, b, c - 1, k);
      SinglePairColumn(n, m, ws, a, b, c - 1, c - 1, k);
    }
  }

  lemma {:induction false} SinglePairColumn(n: nat, m: nat, ws: seq<real>, a: nat, b: nat, r: nat, j: nat, k: nat)
    requires a < b < n && r <= j < n && k < m && SameLength(SinglePair(m, a, b), n, m)
    ensures CrossColumn(SinglePair(m, a, b), n, m, ws, r, j, k)
         == if j == b && a < r then WeightAt(ws, a) - WeightAt(ws, b) else 0.0
  {
    if r > 0 {
      SinglePairColumn(n, m, ws, a, b, r - 1, j, k);
    }
  }

  /** The masks of different clients cancel for every draw, so that only the diagonal ones remain, exactly when all
      clients weigh the same. */
  lemma PairsCancelIffEqualWeights(n: nat, m: nat, ws: seq<real>, k: nat)
    requires k < m
    ensures (forall draw: Draws :: SameLength(draw, n, m) ==>
               Residue(draw, n, m, ws, k) == DiagonalResidue(draw, n, m, ws, n, k))
       <==> EqualWeights(ws, n)
  {
    if EqualWeights(ws, n) {
      forall draw: Draws | SameLength(draw, n, m)
        ensures Residue(draw, n, m, ws, k) == DiagonalResidue(draw, n, m, ws, n, k)
      {
        EqualWeightsLeaveDiagonal(draw, n, m, ws, k);
      }
    } else {
      var a: nat, b: nat :| a < b < n && WeightAt(ws, a) != WeightAt(ws, b);
      SinglePairResidue(n, m, ws, a, b, n, k);
    }
  }

  lemma {:induction false} SelfMaskResidue(n: nat, m: nat, ws: seq<real>, a: nat, c: nat, k: nat)
    requires a < n && c <= n && k < m && SameLength(SinglePair(m, a, a), n, m)
    ensures DiagonalResidue(SinglePair(m, a, a), n, m, ws, c, k) == if a < c then WeightAt(ws, a) else 0.0
    ensures CrossResidue(SinglePair(m, a, a), n, m, ws, c, k) == 0.0
  {
    if c > 0 {
      SelfMaskResidue(n, m, ws, a, c - 1, k);
      SelfMaskColumn(n, m, ws, a, c - 1, c - 1, k);
    }
  }

  lemma {:induction false} SelfMaskColumn(n: nat, m: nat, ws: seq<real>, a: nat, r: nat, j: nat, k: nat)
    requires a < n && r <= j < n && k < m && SameLength(SinglePair(m, a, a), n, m)
    ensures CrossColumn(SinglePair(m, a, a), n, m, ws, r, j, k) == 0.0
  {
    if r > 0 {
      SelfMaskColumn(n, m, ws, a, r - 1, j, k);
    }
  }

  ghost predicate Weightless(ws: seq<real>, n: nat) {
    forall i: nat :: i < n ==> WeightAt(ws, i) == 0.0
  }

  lemma {:induction false} WeightlessResidue(draw: Draws, n: nat, m: nat, ws: seq<real>, c: nat, k: nat)
    requires SameLength(draw, n, m) && c <= n && k < m && Weightless(ws, n)
    ensures DiagonalResidue(draw, n, m, ws, c, k) == 0.0
  {
    if c > 0 {
      WeightlessResidue(draw, n, m, ws, c - 1, k);
    }
  }

  /** The masks cancel for every draw, diagonal masks included, exactly when no client weighs anything. */
  lemma CancelsIffWeightless(n: nat, m: nat, ws: seq<real>, k: nat)
    requires k < m
    ensures (forall draw: Draws :: SameLength(draw, n, m) ==> Residue(draw, n, m, ws, k) == 0.0) <==> Weightless(ws, n)
  {
    if Weightless(ws, n) {
      forall draw: Draws | SameLength(draw, n, m) ensures Residue(draw, n, m, ws, k) == 0.0 {
        WeightlessResidue(draw, n, m, ws, n, k);
        EqualWeightsCross(draw, n, m, ws, n, k);
      }
    } else {
      var a: nat :| a < n && WeightAt(ws, a) != 0.0;
      SelfMaskResidue(n, m, ws, a, n, k);
      assert Residue(SinglePair(m, a, a), n, m, ws, k) != 0.0;
    }
  }

  lemma {:induction false} WeightlessTotal(ws: seq<real>, n: nat)
    requires Weightless(ws, n)
    ensures WeightTotal(ws, n) == 0.0
  {
    if n > 0 {
      WeightlessTotal(ws, n - 1);
    }
  }

  /** In particular weights that sum to one, equal or not, never cancel all the masks that can be drawn. */
  lemma ConvexWeightsNeverCancel(n: nat, m: nat, ws: seq<real>, k: nat)
    requires k < m && WeightTotal(ws, n) == 1.0
    ensures exists draw: Draws :: SameLength(draw, n, m) && Residue(draw, n, m, ws, k) != 0.0
  {
    if Weightless(ws, n) {
      WeightlessTotal(ws, n);
    }
    CancelsIffWeightless(n, m, ws, k);
  }

  // ---- When the assertion cannot fire ----------------------------------------------------------

  ghost function Times(c: nat, e: real): real {
    if c == 0 then 0.0 else Times(c - 1, e) + e
  }

  lemma {:induction false} TimesIsProduct(c: nat, e: real)
    ensures Times(c, e) == c as real * e
  {
    if c > 0 {
      TimesIsProduct(c - 1, e);
      assert c as real * e == (c - 1) as real * e + e;
    }
  }

  lemma {:induction false} SmallRow(draw: Draws, n: nat, m: nat, i: nat, c: nat, k: nat, e: real)
    requires SameLength(draw, n, m) && i < n && c <= n && k < m && e > 0.0
    requires forall a: nat, b: nat :: a <= b < n ==> Abs(draw(a, b)[k]) < e
    ensures Abs(RowMask(draw, n, m, i, c, k)) <= Times(c, e)
    ensures c > 0 ==> Abs(RowMask(draw, n, m, i, c, k)) < Times(c, e)
  {
    if c > 0 {
      assert Abs(PairMask(draw, i, c - 1)[k]) < e;
      SmallRow(draw, n, m, i, c - 1, k, e);
    }
  }

  lemma Scaled(w: real, x: real, bound: real)
    requires w >= 0.0 && Abs(x) < bound
    ensures Abs(w * x) <= w * bound
    ensures w > 0.0 ==> Abs(w * x) < w * bound
  {
    assert Abs(w * x) == w * Abs(x);
  }

  /** A sum below its share of the tolerance. */
  ghost predicate Small(sum: real, total: real) {
    && total >= 0.0 && Abs(sum) <= total * TOLERANCE
    && (total > 0.0 ==> Abs(sum) < total * TOLERANCE)
  }

  lemma {:induction false} SmallMaskedSum(draw: Draws, n: nat, m: nat, ws: seq<real>, r: nat, k: nat)
    requires SameLength(draw, n, m) && r <= n && k < m
    requires forall i: nat :: i < n ==> WeightAt(ws, i) >= 0.0
    requires forall i: nat :: i < n ==> Abs(RowMask(draw, n, m, i, n, k)) < TOLERANCE
    ensures Small(MaskedSum(draw, n, m, ws, r, n, k), WeightTotal(ws, r))
  {
    if r > 0 {
      SmallMaskedSum(draw, n, m, ws, r - 1, k);
      SmallNext(MaskedSum(draw, n, m, ws, r - 1, n, k), WeightTotal(ws, r - 1), WeightAt(ws, r - 1),
                RowMask(draw, n, m, r - 1, n, k), MaskedSum(draw, n, m, ws, r, n, k), WeightTotal(ws, r));
    }
  }

  lemma SmallNext(sum: real, total: real, w: real, row: real, sum': real, total': real)
    requires w >= 0.0 && Abs(row) < TOLERANCE && Small(sum, total) && sum' == sum + w * row && total' == total + w
    ensures Small(sum', total')
  {
    Scaled(w, row, TOLERANCE);
    Triangle(sum, w * row, total * TOLERANCE, w * TOLERANCE);
  }

  lemma Triangle(x: real, y: real, a: real, b: real)
    requires Abs(x) <= a && Abs(y) <= b
    ensures Abs(x + y) <= a + b
    ensures Abs(x) < a || Abs(y) < b ==> Abs(x + y) < a + b
  {
  }

  /** Convex weights and entries below tolerance / n, of the masks that are not overwritten, keep the residue below
      the tolerance. */
  lemma SmallMasksPass(draw: Draws, n: nat, m: nat, ws: seq<real>, k: nat)
    requires SameLength(draw, n, m) && 0 < n && k < m
    requires forall i: nat :: i < n ==> WeightAt(ws, i) >= 0.0
    requires WeightTotal(ws, n) == 1.0
    requires forall i: nat, j: nat :: i <= j < n ==> Abs(draw(i, j)[k]) < 0.05 / n as real
    ensures Abs(Residue(draw, n, m, ws, k)) < 0.05
  {
    var e := TOLERANCE / n as real;
    assert n as real * e == TOLERANCE;
    forall i: nat | i < n ensures Abs(RowMask(draw, n, m, i, n, k)) < TOLERANCE {
      assert Abs(draw(i, i)[k]) < e;
      SmallRow(draw, n, m, i, n, k, e);
      TimesIsProduct(n, e);
    }
    SmallMaskedSum(draw, n, m, ws, n, k);
    MaskResidue(draw, n, m, ws, n, k);
  }

  // ---- The algorithm ---------------------------------------------------------------------------

  method Antisymmetrise(masks: array2<Vector>)
    requires masks.Length0 == masks.Length1
    modifies masks
    ensures forall i, j :: 0 <= i <= j < masks.Length0 ==> masks[i, j] == old(masks[i, j])
    ensures forall i, j :: 0 <= j < i < masks.Length0 ==> masks[i, j] == Scale(-1.0, old(masks[j, i]))
  {
    var n := masks.Length0;
    for i := 0 to n
      invariant forall a, b :: 0 <= a < n && 0 <= b < n && (a <= b || i <= b) ==> masks[a, b] == old(masks[a, b])
      invariant forall a, b :: 0 <= b < a < n && b < i ==> masks[a, b] == Scale(-1.0, old(masks[b, a]))
    {
      for j := i + 1 to n
        invariant forall a, b :: 0 <= a < n && 0 <= b < n && (a <= b || i < b || (b == i && j <= a))
                    ==> masks[a, b] == old(masks[a, b])
        invariant forall a, b :: 0 <= b < a < n && (b < i || (b == i && a < j))
                    ==> masks[a, b] == Scale(-1.0, old(masks[b, a]))
      {
        masks[j, i] := Scale(-1.0, masks[i, j]);
      }
    }
  }

  /** Client i's update: its predictions plus the sum of its row of masks. */
  method MaskedUpdate(raw: Vector, masks: array2<Vector>, i: nat, ghost draw: Draws, m: nat) returns (update: Vector)
    requires i < masks.Length0 == masks.Length1 && |raw| == m
    requires SameLength(draw, masks.Length0, m)
    requires forall a: nat, b: nat :: a < masks.Length0 && b < masks.Length1 ==> masks[a, b] == PairMask(draw, a, b)
    ensures |update| == m
    ensures forall k: nat :: k < m ==> update[k] == raw[k] + RowMask(draw, masks.Length0, m, i, masks.Length0, k)
  {
    var n := masks.Length0;
    update := Zeros(m);
    for j := 0 to n
      invariant |update| == m
      invariant forall k: nat :: k < m ==> update[k] == RowMask(draw, n, m, i, j, k)
    {
      update := Add(update, masks[i, j]);
    }
    update := Add(raw, update);
  }

  /** Every client's masked update, in order. */
  method MaskedUpdates(outputs: seq<Vector>, masks: array2<Vector>, ghost draw: Draws, m: nat)
    returns (updates: seq<Vector>)
    requires masks.Length0 == masks.Length1 == |outputs| && Rectangular(outputs, m)
    requires SameLength(draw, |outputs|, m)
    requires forall a: nat, b: nat :: a < masks.Length0 && b < masks.Length1 ==> masks[a, b] == PairMask(draw, a, b)
    ensures Masked(outputs, updates, draw, m)
  {
    updates := [];
    for i := 0 to |outputs|
      invariant |updates| == i && forall a :: 0 <= a < i ==> MaskedOutput(outputs[a], updates[a], draw, |outputs|, m, a)
    {
      var masked := MaskedUpdate(outputs[i], masks, i, draw, m);
      updates := updates + [masked];
    }
  }

  ghost predicate MaskedOutput(raw: Vector, update: Vector, draw: Draws, n: nat, m: nat, i: nat)
    requires SameLength(draw, n, m) && i < n && |raw| == m
  {
    |update| == m && forall k: nat :: k < m ==> update[k] == raw[k] + RowMask(draw, n, m, i, n, k)
  }

  ghost predicate Masked(outputs: seq<Vector>, updates: seq<Vector>, draw: Draws, m: nat)
    requires SameLength(draw, |outputs|, m) && Rectangular(outputs, m)
  {
    |updates| == |outputs| &&
    forall i :: 0 <= i < |outputs| ==> MaskedOutput(outputs[i], updates[i], draw, |outputs|, m, i)
  }

  /** The average of masked updates is the average of the raw ones plus the residue of the masks. */
  lemma MaskedAverage(outputs: seq<Vector>, updates: seq<Vector>, draw: Draws, m: nat, ws: seq<real>, k: nat)
    requires SameLength(draw, |outputs|, m) && Rectangular(outputs, m) && Masked(outputs, updates, draw, m) && k < m
    ensures Rectangular(updates, m)
    ensures Mix(updates, ws, |outputs|, k) == Mix(outputs, ws, |outputs|, k) + Residue(draw, |outputs|, m, ws, k)
  {
    var n := |outputs|;
    forall i | 0 <= i < n ensures |updates[i]| == m && updates[i][k] == outputs[i][k] + RowMask(draw, n, m, i, n, k) {
      assert MaskedOutput(outputs[i], updates[i], draw, n, m, i);
    }
    MaskedMix(outputs, updates, draw, n, m, ws, n, k);
    MaskResidue(draw, n, m, ws, n, k);
  }

  method SecAggAggregate(outputs: seq<Vector>, m: nat, weights: Option<seq<real>>, draw: Draws) returns (r: Outcome)
    requires Rectangular(outputs, m) && m > 0
    requires weights.None? ==> |outputs| > 0
    requires SameLength(draw, |outputs|, m)
    ensures var n, ws := |outputs|, EffectiveWeights(weights, |outputs|);
      && (r.Aggregated? <==> forall k: nat :: k < m ==> Abs(Residue(draw, n, m, ws, k)) < 0.05)
      && (r.Aggregated? ==> |r.value| == m && forall k: nat :: k < m ==>
            r.value[k] == ClipAt(Mix(outputs, ws, n, k) + Residue(draw, n, m, ws, k)))
  {
    var n := |outputs|;
    var ws := EffectiveWeights(weights, n);
    var masks := new Vector[n, n]((i, j) requires 0 <= i && 0 <= j => draw(i, j));
    assert forall i: nat, j: nat :: i < n && j < n ==> masks[i, j] == draw(i, j);
    Antisymmetrise(masks);
    assert forall i: nat, j: nat :: i < n && j < n ==> masks[i, j] == PairMask(draw, i, j);
    var updates := MaskedUpdates(outputs, masks, draw, m);
    var aggregated := FedAvgPredictProba(updates, m, Some(ws));
    var direct := FedAvgPredictProba(outputs, m, weights);
    forall k: nat | k < m
      ensures aggregated[k] == direct[k] + Residue(draw, n, m, ws, k)
    {
      MaskedAverage(outputs, updates, draw, m, ws, k);
    }
    if exists k :: 0 <= k < m && Abs(aggregated[k] - direct[k]) >= TOLERANCE {
      return CancellationFailed;
    }
    r := Aggregated(Clip(aggregated));
  }

  lemma {:induction false} MaskedMix(outputs: seq<Vector>, updates: seq<Vector>, draw: Draws, n: nat, m: nat,
                                     ws: seq<real>, r: nat, k: nat)
    requires |outputs| == |updates| == n && r <= n && k < m && SameLength(draw, n, m)
    requires Rectangular(outputs, m) && Rectangular(updates, m)
    requires forall a: nat :: a < n ==> updates[a][k] == outputs[a][k] + RowMask(draw, n, m, a, n, k)
    ensures Mix(updates, ws, r, k) == Mix(outputs, ws, r, k) + MaskedSum(draw, n, m, ws, r, n, k)
  {
    if r > 0 {
      MaskedMix(outputs, updates, draw, n, m, ws, r - 1, k);
    }
  }
}
