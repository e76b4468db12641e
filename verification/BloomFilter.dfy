/** The attribute Bloom filter.  digest(item, i) stands for the SHA-256 digest of "item:i" read as a number. */
module BloomFilter {

  type Digest = (string, nat) -> nat

  /** The bit positions of one item: one per hash function. */
  function Positions(digest: Digest, numHashes: nat, size: nat, item: string): (ps: set<nat>)
    requires size > 0
    ensures forall p :: p in ps <==> exists i: nat :: i < numHashes && digest(item, i) % size == p
  {
    set i: nat | i < numHashes :: digest(item, i) % size
  }

  /** The positions of all the items in a sequence. */
  ghost function Marked(digest: Digest, numHashes: nat, size: nat, items: seq<string>): set<nat>
    requires size > 0
  {
    if items == [] then {}
    else Marked(digest, numHashes, size, items[..|items| - 1])
         + Positions(digest, numHashes, size, items[|items| - 1])
  }

  lemma {:induction false} MarkedIff(digest: Digest, numHashes: nat, size: nat, items: seq<string>, p: nat)
    requires size > 0
    ensures p in Marked(digest, numHashes, size, items)
       <==> exists item :: item in items && p in Positions(digest, numHashes, size, item)
  {
    if items != [] {
      var front, last := items[..|items| - 1], items[|items| - 1];
      assert items == front + [last];
      MarkedIff(digest, numHashes, size, front, p);
    }
  }

  /** What is marked depends on which items were added, not on their order or number. */
  lemma MarkedMonotone(digest: Digest, numHashes: nat, size: nat, items: seq<string>, more: seq<string>)
    requires size > 0 && forall item :: item in items ==> item in more
    ensures Marked(digest, numHashes, size, items) <= Marked(digest, numHashes, size, more)
  {
    forall p | p in Marked(digest, numHashes, size, items)
      ensures p in Marked(digest, numHashes, size, more)
    {
      MarkedIff(digest, numHashes, size, items, p);
      MarkedIff(digest, numHashes, size, more, p);
    }
  }

  lemma {:induction false} FewPositions(digest: Digest, numHashes: nat, size: nat, item: string)
    requires size > 0
    ensures |Positions(digest, numHashes, size, item)| <= numHashes
  {
    if numHashes > 0 {
      FewPositions(digest, numHashes - 1, size, item);
      var rest := Positions(digest, numHashes - 1, size, item);
      var p := digest(item, numHashes - 1) % size;
      assert Positions(digest, numHashes, size, item) == rest + {p};
      CardinalityOfUnion(rest, {p});
    } else {
      assert Positions(digest, 0, size, item) == {};
    }
  }

  lemma CardinalityOfUnion(a: set<nat>, b: set<nat>)
    ensures |a + b| <= |a| + |b|
  {
    assert a + b == a + (b - a);
    assert |a + (b - a)| == |a| + |b - a|;
    assert b == (b - a) + (b * a);
  }

  lemma OneMore(k: nat, n: nat)
    ensures k * (n + 1) == k * n + k
  {
  }

  /** At most numHashes bits are set per addition. */
  lemma {:induction false} FewMarked(digest: Digest, numHashes: nat, size: nat, items: seq<string>)
    requires size > 0
    ensures |Marked(digest, numHashes, size, items)| <= numHashes * |items|
  {
    if items != [] {
      var front, last := items[..|items| - 1], items[|items| - 1];
      FewMarked(digest, numHashes, size, front);
      FewPositions(digest, numHashes, size, last);
      CardinalityOfUnion(Marked(digest, numHashes, size, front), Positions(digest, numHashes, size, last));
      OneMore(numHashes, |front|);
    }
  }

  function Attribute(attribute: (string, string)): string {
    attribute.0 + ":" + attribute.1
  }

  function Attributes(attributes: seq<(string, string)>): (items: seq<string>)
    ensures |items| == |attributes|
    ensures forall j :: 0 <= j < |items| ==> items[j] == attributes[j].0 + ":" + attributes[j].1
  {
    seq(|attributes|, j requires 0 <= j < |attributes| => Attribute(attributes[j]))
  }

  class AttributeBloomFilter {
    const size: nat
    const numHashes: nat
    const digest: Digest
    const bitArray: array<int>
    var itemsCount: nat
    ghost var added: seq<string>

    /** The bit array is the indicator of the positions of everything added so far. */
    ghost predicate Valid()
      reads this, bitArray
    {
      && size > 0 && bitArray.Length == size && itemsCount == |added|
      && forall p :: 0 <= p < size ==>
           bitArray[p] == if p in Marked(digest, numHashes, size, added) then 1 else 0
    }

    constructor (size: nat, numHashes: nat, digest: Digest)
      requires size > 0
      ensures Valid() && added == [] && fresh(bitArray)
      ensures this.size == size && this.numHashes == numHashes && this.digest == digest
    {
      this.size, this.numHashes, this.digest := size, numHashes, digest;
      bitArray := new int[size](_ => 0);
      itemsCount, added := 0, [];
    }

    method Add(item: string)
      requires Valid()
      modifies this`itemsCount, this`added, bitArray
      ensures Valid() && added == old(added) + [item]
      ensures forall p :: 0 <= p < size && old(bitArray[p]) == 1 ==> bitArray[p] == 1
    {
      ghost var before := Marked(digest, numHashes, size, added);
      for i := 0 to numHashes
        modifies bitArray
        invariant forall p :: 0 <= p < size ==>
          bitArray[p] == if p in before || p in Positions(digest, i, size, item) then 1 else 0
      {
        var pos := digest(item, i) % size;
        bitArray[pos] := 1;
        assert Positions(digest, i + 1, size, item) == Positions(digest, i, size, item) + {pos};
      }
      itemsCount, added := itemsCount + 1, added + [item];
      assert added[..|added| - 1] == old(added);
    }

    method AddAttributes(attributes: seq<(string, string)>)
      requires Valid()
      modifies this`itemsCount, this`added, bitArray
      ensures Valid() && added == old(added) + Attributes(attributes)
      ensures forall p :: 0 <= p < size && old(bitArray[p]) == 1 ==> bitArray[p] == 1
    {
      for j := 0 to |attributes|
        invariant Valid() && added == old(added) + Attributes(attributes)[..j]
        invariant forall p :: 0 <= p < size && old(bitArray[p]) == 1 ==> bitArray[p] == 1
      {
        Add(Attribute(attributes[j]));
        assert Attributes(attributes)[..j + 1] == Attributes(attributes)[..j] + [Attribute(attributes[j])];
      }
      assert Attributes(attributes)[..|attributes|] == Attributes(attributes);
    }

    /** The bits that are set, at most numHashes per addition. */
    ghost function SetBits(): (bits: set<nat>)
      requires Valid()
      reads this, bitArray
      ensures forall p :: p in bits <==> 0 <= p < size && bitArray[p] == 1
      ensures |bits| <= numHashes * itemsCount
    {
      FewMarked(digest, numHashes, size, added);
      MarkedWithinSize(digest, numHashes, size, added);
      Marked(digest, numHashes, size, added)
    }

    /** True exactly when every position of the item is a position of something added. */
    predicate Contains(item: string)
      requires Valid()
      reads this, bitArray
      ensures Contains(item) <==> Positions(digest, numHashes, size, item) <= Marked(digest, numHashes, size, added)
      ensures item in added ==> Contains(item)
    {
      AddedIsMarked(digest, numHashes, size, added, item);
      forall p :: p in Positions(digest, numHashes, size, item) ==> bitArray[p] == 1
    }

    /** Any attributes that have been added match. */
    predicate MatchAttributes(required: seq<(string, string)>)
      requires Valid()
      reads this, bitArray
      ensures MatchAttributes(required) <==>
        Marked(digest, numHashes, size, Attributes(required)) <= Marked(digest, numHashes, size, added)
      ensures (forall a :: a in required ==> Attribute(a) in added) ==> MatchAttributes(required)
    {
      MatchIsInclusion(digest, numHashes, size, required, added);
      forall j :: 0 <= j < |required| ==> Contains(Attribute(required[j]))
    }
  }

  lemma MarkedWithinSize(digest: Digest, numHashes: nat, size: nat, items: seq<string>)
    requires size > 0
    ensures forall p :: p in Marked(digest, numHashes, size, items) ==> p < size
  {
    forall p | p in Marked(digest, numHashes, size, items) ensures p < size {
      MarkedIff(digest, numHashes, size, items, p);
    }
  }

  lemma AddedIsMarked(digest: Digest, numHashes: nat, size: nat, added: seq<string>, item: string)
    requires size > 0
    ensures item in added ==> Positions(digest, numHashes, size, item) <= Marked(digest, numHashes, size, added)
  {
    if item in added {
      forall p | p in Positions(digest, numHashes, size, item) ensures p in Marked(digest, numHashes, size, added) {
        MarkedIff(digest, numHashes, size, added, p);
      }
    }
  }

  lemma MatchIsInclusion(digest: Digest, numHashes: nat, size: nat, required: seq<(string, string)>, added: seq<string>)
    requires size > 0
    ensures Marked(digest, numHashes, size, Attributes(required)) <= Marked(digest, numHashes, size, added)
       <==> forall j :: 0 <= j < |required| ==>
              Positions(digest, numHashes, size, Attribute(required[j])) <= Marked(digest, numHashes, size, added)
  {
    var items := Attributes(required);
    forall p: nat ensures p in Marked(digest, numHashes, size, items)
                 <==> exists item :: item in items && p in Positions(digest, numHashes, size, item)
    {
      MarkedIff(digest, numHashes, size, items, p);
    }
    assert forall j :: 0 <= j < |required| ==> items[j] in items;
  }

  /** No false negatives: whatever else has been added in between, what was added stays contained. */
  lemma NeverForgets(digest: Digest, numHashes: nat, size: nat, before: seq<string>, after: seq<string>, item: string)
    requires size > 0 && item in before
    ensures Positions(digest, numHashes, size, item) <= Marked(digest, numHashes, size, before + after)
  {
    AddedIsMarked(digest, numHashes, size, before, item);
    MarkedMonotone(digest, numHashes, size, before, before + after);
  }
}
