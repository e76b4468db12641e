/** Finite sums over sequences, and what rearranging the sequence leaves unchanged. */
module Sums {

  /** The sum of f over the elements of s, in order. */
  function SumOf<T>(f: T -> real, s: seq<T>): real {
    if s == [] then 0.0 else f(s[0]) + SumOf(f, s[1..])
  }

  lemma {:induction false} SumOfAppend<T>(f: T -> real, s: seq<T>, t: seq<T>)
    ensures SumOf(f, s + t) == SumOf(f, s) + SumOf(f, t)
  {
    if s == [] {
      assert s + t == t;
    } else {
      assert (s + t)[1..] == s[1..] + t;
      SumOfAppend(f, s[1..], t);
    }
  }

  lemma SumOfSnoc<T>(f: T -> real, s: seq<T>, x: T)
    ensures SumOf(f, s + [x]) == SumOf(f, s) + f(x)
  {
    SumOfAppend(f, s, [x]);
    assert [x][1..] == [];
  }

  lemma {:induction false} SumOfCongruent<T>(f: T -> real, g: T -> real, s: seq<T>)
    requires forall x :: x in s ==> f(x) == g(x)
    ensures SumOf(f, s) == SumOf(g, s)
  {
    if s != [] {
      assert s[0] in s;
      assert forall x :: x in s[1..] ==> x in s;
      SumOfCongruent(f, g, s[1..]);
    }
  }

  /** Removing the element at k from a sequence takes exactly one copy out of its multiset. */
  lemma MultisetWithout<T>(s: seq<T>, k: nat)
    requires k < |s|
    ensures multiset(s[..k] + s[k+1..]) == multiset(s) - multiset{s[k]}
  {
    assert s == s[..k] + [s[k]] + s[k+1..];
  }

  lemma {:induction false} SumWithout<T>(f: T -> real, s: seq<T>, k: nat)
    requires k < |s|
    ensures SumOf(f, s) == f(s[k]) + SumOf(f, s[..k] + s[k+1..])
  {
    var rest := s[..k] + s[k+1..];
    if k == 0 {
      assert rest == s[1..];
    } else {
      assert rest[0] == s[0];
      assert rest[1..] == s[1..][..k-1] + s[1..][k..];
      SumWithout(f, s[1..], k - 1);
    }
  }

  /** The first element of s has a partner in every rearrangement t, and the rests are rearrangements again. */
  lemma Partner<T>(s: seq<T>, t: seq<T>) returns (k: nat)
    requires multiset(s) == multiset(t) && s != []
    ensures k < |t| && t[k] == s[0] && multiset(s[1..]) == multiset(t[..k] + t[k+1..])
  {
    FirstOf(s);
    k := IndexOf(t, s[0]);
    MultisetWithout(t, k);
  }

  lemma FirstOf<T>(s: seq<T>)
    requires s != []
    ensures s[0] in multiset(s) && multiset(s[1..]) == multiset(s) - multiset{s[0]}
  {
    assert s == [s[0]] + s[1..];
  }

  lemma SameLength<T>(s: seq<T>, t: seq<T>)
    requires multiset(s) == multiset(t)
    ensures |s| == |t|
  {
    assert |s| == |multiset(s)| == |multiset(t)| == |t|;
  }

  /** The order of the summands does not matter. */
  lemma {:induction false} SumOfPermuted<T>(f: T -> real, s: seq<T>, t: seq<T>)
    requires multiset(s) == multiset(t)
    ensures SumOf(f, s) == SumOf(f, t)
    decreases |s|
  {
    SameLength(s, t);
    if s != [] {
      var k := Partner(s, t);
      SumOfPermuted(f, s[1..], t[..k] + t[k+1..]);
      SumWithout(f, t, k);
    }
  }

  lemma IndexOf<T>(s: seq<T>, x: T) returns (k: nat)
    requires x in multiset(s)
    ensures k < |s| && s[k] == x
  {
    k :| 0 <= k < |s| && s[k] == x;
  }

  lemma {:induction false} SumOfBounds<T>(f: T -> real, s: seq<T>, x: T)
    requires forall y :: y in s ==> f(y) >= 0.0
    ensures SumOf(f, s) >= 0.0
    ensures x in s ==> SumOf(f, s) >= f(x)
  {
    if s != [] {
      assert s[0] in s;
      assert forall y :: y in s[1..] ==> y in s;
      SumOfBounds(f, s[1..], x);
    }
  }
}
