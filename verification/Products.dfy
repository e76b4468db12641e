/** Finite products over sequences, and what rearranging the sequence leaves unchanged. */
module Products {
  import opened Sums

  /** The product of f over the elements of s, in order. */
  ghost function ProductOf<T>(f: T -> real, s: seq<T>): real {
    if s == [] then 1.0 else f(s[0]) * ProductOf(f, s[1..])
  }

  lemma Associate(x: real, y: real, z: real)
    ensures x * (y * z) == (x * y) * z
  {
  }

  lemma Swap(x: real, y: real, z: real)
    ensures x * (y * z) == y * (x * z)
  {
  }

  lemma {:induction false} ProductOfAppend<T>(f: T -> real, s: seq<T>, t: seq<T>)
    ensures ProductOf(f, s + t) == ProductOf(f, s) * ProductOf(f, t)
  {
    if s == [] {
      assert s + t == t;
    } else {
      assert (s + t)[1..] == s[1..] + t;
      ProductOfAppend(f, s[1..], t);
      Associate(f(s[0]), ProductOf(f, s[1..]), ProductOf(f, t));
    }
  }

  lemma ProductOfSnoc<T>(f: T -> real, s: seq<T>, x: T)
    ensures ProductOf(f, s + [x]) == ProductOf(f, s) * f(x)
  {
    ProductOfAppend(f, s, [x]);
    assert [x][1..] == [];
  }

  /** Where a factor stands does not matter. */
  lemma {:induction false} ProductOfWithout<T>(f: T -> real, s: seq<T>, k: nat)
    requires k < |s|
    ensures ProductOf(f, s) == f(s[k]) * ProductOf(f, s[..k] + s[k + 1..])
  {
    var rest := s[..k] + s[k + 1..];
    if k == 0 {
      assert rest == s[1..];
    } else {
      assert rest[0] == s[0];
      assert rest[1..] == s[1..][..k - 1] + s[1..][k..];
      ProductOfWithout(f, s[1..], k - 1);
      Swap(f(s[0]), f(s[k]), ProductOf(f, rest[1..]));
    }
  }

  /** The order of the factors does not matter. */
  lemma {:induction false} ProductOfPermuted<T>(f: T -> real, s: seq<T>, t: seq<T>)
    requires multiset(s) == multiset(t)
    ensures ProductOf(f, s) == ProductOf(f, t)
    decreases |s|
  {
    SameLength(s, t);
    if s != [] {
      var k := Partner(s, t);
      ProductOfPermuted(f, s[1..], t[..k] + t[k + 1..]);
      ProductOfWithout(f, t, k);
    }
  }

  lemma NonNegative(x: real, y: real)
    requires x >= 0.0 && y >= 0.0
    ensures x * y >= 0.0
  {
  }

  lemma UnitProduct(x: real, p: real)
    requires 0.0 <= x <= 1.0 && 0.0 <= p <= 1.0
    ensures 0.0 <= x * p <= p && x * p <= x
    ensures 1.0 - x * p <= (1.0 - x) + (1.0 - p)
  {
    NonNegative(x, p);
    NonNegative(1.0 - x, p);
    NonNegative(1.0 - p, x);
    NonNegative(1.0 - x, 1.0 - p);
  }

  /** A product of probabilities is one, and its deficit is at most the sum of the deficits. */
  lemma {:induction false} ProductOfBounds<T>(f: T -> real, deficit: T -> real, s: seq<T>)
    requires forall x :: 0.0 <= f(x) <= 1.0 && deficit(x) == 1.0 - f(x)
    ensures 0.0 <= ProductOf(f, s) <= 1.0
    ensures 1.0 - ProductOf(f, s) <= SumOf(deficit, s)
  {
    if s != [] {
      ProductOfBounds(f, deficit, s[1..]);
      UnitProduct(f(s[0]), ProductOf(f, s[1..]));
    }
  }
}
