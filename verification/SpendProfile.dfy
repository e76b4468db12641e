/** The in-memory spending profile: aggregates kept up to date transaction by transaction. */
module SpendProfile {
  import opened Options
  import opened Sums

  datatype Category = Food | Shopping | Transport | Entertainment | Education | Healthcare | Housing | Utilities
                    | Finance | Travel | Other

  const CATEGORIES: seq<Category> := [Food, Shopping, Transport, Entertainment, Education, Healthcare, Housing,
                                      Utilities, Finance, Travel, Other]

  /** A validated transaction: hour is its hour of day, month its "YYYY-MM" key. */
  datatype Tx = Tx(user: string, amount: real, category: Category, hour: nat, month: string)

  /** A Python dictionary: its keys in order of first insertion, and their values. */
  datatype Dict<K, V> = Dict(order: seq<K>, vals: map<K, V>)

  function AddTo<K(==)>(d: Dict<K, real>, k: K, x: real): Dict<K, real> {
    if k in d.vals then d.(vals := d.vals[k := d.vals[k] + x]) else Dict(d.order + [k], d.vals[k := x])
  }

  function Tick<K(==)>(d: Dict<K, nat>, k: K): Dict<K, nat> {
    if k in d.vals then d.(vals := d.vals[k := d.vals[k] + 1]) else Dict(d.order + [k], d.vals[k := 1])
  }

  datatype Aggregates = Aggregates(transactions: seq<Tx>, totals: Dict<Category, real>, counts: Dict<Category, nat>,
                                   hours: Dict<nat, nat>, maxAmount: real)

  const NOTHING: Aggregates := Aggregates([], Dict([], map[]), Dict([], map[]), Dict([], map[]), 0.0)

  function AddTx(a: Aggregates, tx: Tx): Aggregates {
    Aggregates(a.transactions + [tx], AddTo(a.totals, tx.category, tx.amount), Tick(a.counts, tx.category),
               Tick(a.hours, tx.hour), if tx.amount > a.maxAmount then tx.amount else a.maxAmount)
  }

  // ---- Recomputing from the transactions ----------------------------------------------------------------

  function Amount(): Tx -> real { (tx: Tx) => tx.amount }

  function One(): Tx -> real { (tx: Tx) => 1.0 }

  function CategoryOf(): Tx -> Category { (tx: Tx) => tx.category }

  function HourOf(): Tx -> nat { (tx: Tx) => tx.hour }

  function MonthOf(): Tx -> string { (tx: Tx) => tx.month }

  /** The weight w, for the transactions whose key is k only. */
  function Part<K(==)>(w: Tx -> real, key: Tx -> K, k: K): Tx -> real {
    (tx: Tx) => if key(tx) == k then w(tx) else 0.0
  }

  function KeySet<K>(key: Tx -> K, txs: seq<Tx>): set<K> {
    set tx | tx in txs :: key(tx)
  }

  ghost predicate Distinct<K>(order: seq<K>) {
    forall i, j :: 0 <= i < j < |order| ==> order[i] != order[j]
  }

  /** The dictionary's keys are those of the transactions, each once. */
  ghost predicate KeysOf<K(!new)>(order: seq<K>, keys: set<K>, key: Tx -> K, txs: seq<Tx>) {
    Distinct(order) && (set k | k in order) == keys == KeySet(key, txs)
  }

  ghost predicate TotalsOf<K(!new)>(d: Dict<K, real>, key: Tx -> K, txs: seq<Tx>) {
    KeysOf(d.order, d.vals.Keys, key, txs) &&
    forall k :: k in d.vals ==> d.vals[k] == SumOf(Part(Amount(), key, k), txs)
  }

  ghost predicate CountsOf<K(!new)>(d: Dict<K, nat>, key: Tx -> K, txs: seq<Tx>) {
    KeysOf(d.order, d.vals.Keys, key, txs) &&
    forall k :: k in d.vals ==> d.vals[k] as real == SumOf(Part(One(), key, k), txs)
  }

  /** The largest amount of a history, or 0 for amounts that are all negative. */
  ghost predicate IsMax(max: real, txs: seq<Tx>) {
    && (forall i :: 0 <= i < |txs| ==> txs[i].amount <= max) && max >= 0.0
    && (max > 0.0 ==> exists i :: 0 <= i < |txs| && txs[i].amount == max)
  }

  ghost predicate Recomputes(a: Aggregates, txs: seq<Tx>) {
    && a.transactions == txs
    && TotalsOf(a.totals, CategoryOf(), txs) && CountsOf(a.counts, CategoryOf(), txs)
    && CountsOf(a.hours, HourOf(), txs) && IsMax(a.maxAmount, txs)
  }

  lemma KeysNext<K(!new)>(order: seq<K>, keys: set<K>, key: Tx -> K, txs: seq<Tx>, tx: Tx)
    requires KeysOf(order, keys, key, txs)
    ensures var k := key(tx);
      KeysOf(if k in keys then order else order + [k], keys + {k}, key, txs + [tx])
  {
    assert KeySet(key, txs + [tx]) == KeySet(key, txs) + {key(tx)} by {
      assert tx in txs + [tx];
      assert forall t :: t in txs + [tx] <==> t in txs || t == tx;
    }
    var k := key(tx);
    if k !in keys {
      assert forall j :: j in order + [k] <==> j in order || j == k;
      forall i | 0 <= i < |order| ensures order[i] != k { assert order[i] in keys; }
    }
  }

  lemma {:induction false} AbsentKey<K>(w: Tx -> real, key: Tx -> K, k: K, txs: seq<Tx>)
    requires k !in KeySet(key, txs)
    ensures SumOf(Part(w, key, k), txs) == 0.0
  {
    if txs != [] {
      assert txs[0] in txs;
      assert forall tx :: tx in txs[1..] ==> tx in txs;
      AbsentKey(w, key, k, txs[1..]);
    }
  }

  lemma TotalNext<K(!new)>(d: Dict<K, real>, key: Tx -> K, txs: seq<Tx>, tx: Tx, k: K)
    requires TotalsOf(d, key, txs) && k in AddTo(d, key(tx), tx.amount).vals
    ensures AddTo(d, key(tx), tx.amount).vals[k] == SumOf(Part(Amount(), key, k), txs + [tx])
  {
    SumOfSnoc(Part(Amount(), key, k), txs, tx);
    if k !in d.vals { AbsentKey(Amount(), key, k, txs); }
  }

  lemma CountNext<K(!new)>(d: Dict<K, nat>, key: Tx -> K, txs: seq<Tx>, tx: Tx, k: K)
    requires CountsOf(d, key, txs) && k in Tick(d, key(tx)).vals
    ensures Tick(d, key(tx)).vals[k] as real == SumOf(Part(One(), key, k), txs + [tx])
  {
    SumOfSnoc(Part(One(), key, k), txs, tx);
    if k !in d.vals { AbsentKey(One(), key, k, txs); }
  }

  lemma TotalsNext<K(!new)>(d: Dict<K, real>, key: Tx -> K, txs: seq<Tx>, tx: Tx)
    requires TotalsOf(d, key, txs)
    ensures TotalsOf(AddTo(d, key(tx), tx.amount), key, txs + [tx])
  {
    var d' := AddTo(d, key(tx), tx.amount);
    KeysNext(d.order, d.vals.Keys, key, txs, tx);
    assert d'.vals.Keys == d.vals.Keys + {key(tx)};
    forall k | k in d'.vals ensures d'.vals[k] == SumOf(Part(Amount(), key, k), txs + [tx]) {
      TotalNext(d, key, txs, tx, k);
    }
  }

  lemma CountsNext<K(!new)>(d: Dict<K, nat>, key: Tx -> K, txs: seq<Tx>, tx: Tx)
    requires CountsOf(d, key, txs)
    ensures CountsOf(Tick(d, key(tx)), key, txs + [tx])
  {
    var d' := Tick(d, key(tx));
    KeysNext(d.order, d.vals.Keys, key, txs, tx);
    assert d'.vals.Keys == d.vals.Keys + {key(tx)};
    forall k | k in d'.vals ensures d'.vals[k] as real == SumOf(Part(One(), key, k), txs + [tx]) {
      CountNext(d, key, txs, tx, k);
    }
  }

  lemma MaxNext(max: real, txs: seq<Tx>, tx: Tx)
    requires IsMax(max, txs)
    ensures IsMax(if tx.amount > max then tx.amount else max, txs + [tx])
  {
    var all := txs + [tx];
    assert all[|txs|] == tx;
    assert forall i :: 0 <= i < |txs| ==> all[i] == txs[i];
  }

  /** Adding a transaction to aggregates that recompute keeps them so. */
  lemma AddRecomputes(a: Aggregates, txs: seq<Tx>, tx: Tx)
    requires Recomputes(a, txs)
    ensures Recomputes(AddTx(a, tx), txs + [tx])
  {
    TotalsNext(a.totals, CategoryOf(), txs, tx);
    CountsNext(a.counts, CategoryOf(), txs, tx);
    CountsNext(a.hours, HourOf(), txs, tx);
    MaxNext(a.maxAmount, txs, tx);
  }

  // ---- Order does not matter ------------------------------------------------------------------------------

  lemma SameElements(txs: seq<Tx>, txs': seq<Tx>)
    requires multiset(txs) == multiset(txs')
    ensures forall tx :: tx in txs <==> tx in txs'
  {
    forall tx ensures tx in txs <==> tx in txs' {
      assert tx in txs <==> tx in multiset(txs);
      assert tx in txs' <==> tx in multiset(txs');
    }
  }

  lemma SameKeys<K(!new)>(key: Tx -> K, txs: seq<Tx>, txs': seq<Tx>)
    requires multiset(txs) == multiset(txs')
    ensures KeySet(key, txs) == KeySet(key, txs')
  {
    SameElements(txs, txs');
  }

  lemma SameTotals<K(!new)>(d: Dict<K, real>, d': Dict<K, real>, key: Tx -> K, txs: seq<Tx>, txs': seq<Tx>)
    requires TotalsOf(d, key, txs) && TotalsOf(d', key, txs') && multiset(txs) == multiset(txs')
    ensures d.vals == d'.vals
  {
    SameKeys(key, txs, txs');
    forall k | k in d.vals ensures k in d'.vals && d.vals[k] == d'.vals[k] {
      SumOfPermuted(Part(Amount(), key, k), txs, txs');
    }
  }

  lemma SameCounts<K(!new)>(d: Dict<K, nat>, d': Dict<K, nat>, key: Tx -> K, txs: seq<Tx>, txs': seq<Tx>)
    requires CountsOf(d, key, txs) && CountsOf(d', key, txs') && multiset(txs) == multiset(txs')
    ensures d.vals == d'.vals
  {
    SameKeys(key, txs, txs');
    forall k | k in d.vals ensures k in d'.vals && d.vals[k] == d'.vals[k] {
      SumOfPermuted(Part(One(), key, k), txs, txs');
    }
  }

  lemma SameMax(max: real, max': real, txs: seq<Tx>, txs': seq<Tx>)
    requires IsMax(max, txs) && IsMax(max', txs') && multiset(txs) == multiset(txs')
    ensures max == max'
  {
    SameElements(txs, txs');
    if max > 0.0 {
      var i :| 0 <= i < |txs| && txs[i].amount == max;
      assert txs[i] in txs';
    }
    if max' > 0.0 {
      var i :| 0 <= i < |txs'| && txs'[i].amount == max';
      assert txs'[i] in txs;
    }
  }

  /** Totals, counts, hour counts and maximum do not depend on the order of arrival. */
  lemma OrderIrrelevant(a: Aggregates, b: Aggregates)
    requires Recomputes(a, a.transactions) && Recomputes(b, b.transactions)
    requires multiset(a.transactions) == multiset(b.transactions)
    ensures a.totals.vals == b.totals.vals && a.counts.vals == b.counts.vals && a.hours.vals == b.hours.vals
    ensures a.maxAmount == b.maxAmount
  {
    SameTotals(a.totals, b.totals, CategoryOf(), a.transactions, b.transactions);
    SameCounts(a.counts, b.counts, CategoryOf(), a.transactions, b.transactions);
    SameCounts(a.hours, b.hours, HourOf(), a.transactions, b.transactions);
    SameMax(a.maxAmount, b.maxAmount, a.transactions, b.transactions);
  }

  // ---- Parts of a whole --------------------------------------------------------------------------------------

  /** The parts for the keys ks, added up. */
  ghost function PartsTotal<K>(w: Tx -> real, key: Tx -> K, ks: seq<K>, txs: seq<Tx>): real {
    if ks == [] then 0.0
    else PartsTotal(w, key, ks[..|ks| - 1], txs) + SumOf(Part(w, key, ks[|ks| - 1]), txs)
  }

  lemma {:induction false} PartsNext<K>(w: Tx -> real, key: Tx -> K, ks: seq<K>, txs: seq<Tx>, tx: Tx)
    requires Distinct(ks)
    ensures PartsTotal(w, key, ks, txs + [tx]) == PartsTotal(w, key, ks, txs) + if key(tx) in ks then w(tx) else 0.0
  {
    if ks != [] {
      var n := |ks| - 1;
      PartsNext(w, key, ks[..n], txs, tx);
      SumOfSnoc(Part(w, key, ks[n]), txs, tx);
      assert ks == ks[..n] + [ks[n]];
      assert key(tx) in ks <==> key(tx) in ks[..n] || key(tx) == ks[n];
    }
  }

  lemma {:induction false} PartsOfNothing<K>(w: Tx -> real, key: Tx -> K, ks: seq<K>)
    ensures PartsTotal(w, key, ks, []) == 0.0
  {
    if ks != [] { PartsOfNothing(w, key, ks[..|ks| - 1]); }
  }

  /** Parts for distinct keys that cover every transaction add up to the whole. */
  lemma {:induction false} PartsAddUp<K>(w: Tx -> real, key: Tx -> K, ks: seq<K>, txs: seq<Tx>)
    requires Distinct(ks)
    requires forall tx :: tx in txs ==> key(tx) in ks
    ensures PartsTotal(w, key, ks, txs) == SumOf(w, txs)
  {
    if txs == [] {
      PartsOfNothing(w, key, ks);
    } else {
      var n := |txs| - 1;
      assert txs[n] in txs;
      assert forall tx :: tx in txs[..n] ==> tx in txs;
      PartsAddUp(w, key, ks, txs[..n]);
      PartsNext(w, key, ks, txs[..n], txs[n]);
      SumOfSnoc(w, txs[..n], txs[n]);
      assert txs == txs[..n] + [txs[n]];
    }
  }

  lemma {:induction false} SumOfOnes(txs: seq<Tx>)
    ensures SumOf(One(), txs) == |txs| as real
  {
    if txs != [] { SumOfOnes(txs[1..]); }
  }

  /** sum(d.values()) */
  function SumValues<K(==)>(order: seq<K>, vals: map<K, real>): real
    requires forall k :: k in order ==> k in vals
  {
    if order == [] then 0.0
    else var n := |order| - 1;
      assert order[n] in order;
      SumValues(order[..n], vals) + vals[order[n]]
  }

  lemma {:induction false} SumValuesIsParts<K(!new)>(d: Dict<K, real>, key: Tx -> K, txs: seq<Tx>, n: nat)
    requires TotalsOf(d, key, txs) && n <= |d.order|
    ensures forall k :: k in d.order[..n] ==> k in d.vals
    ensures SumValues(d.order[..n], d.vals) == PartsTotal(Amount(), key, d.order[..n], txs)
  {
    if n > 0 {
      SumValuesIsParts(d, key, txs, n - 1);
      assert d.order[..n][..n - 1] == d.order[..n - 1];
      assert d.order[n - 1] in d.order;
    }
  }

  lemma TotalOfValues<K(!new)>(d: Dict<K, real>, key: Tx -> K, txs: seq<Tx>)
    requires TotalsOf(d, key, txs)
    ensures forall k :: k in d.order ==> k in d.vals
    ensures SumValues(d.order, d.vals) == SumOf(Amount(), txs)
  {
    SumValuesIsParts(d, key, txs, |d.order|);
    assert d.order[..|d.order|] == d.order;
    forall tx | tx in txs ensures key(tx) in d.order { assert key(tx) in KeySet(key, txs); }
    PartsAddUp(Amount(), key, d.order, txs);
  }

  // ---- The profile ---------------------------------------------------------------------------------------------

  datatype Summary = Summary(category: Category, total: real, count: nat, avg: real, share: real)

  datatype Profile = Profile(txCount: nat, totalAmount: real, avgAmount: real, maxAmount: real, peakHour: nat,
                             topCategory: Category, breakdown: seq<Summary>)

  /** max(d, key=d.get): the first key, in insertion order, with the largest value. */
  function FirstLargest<K(==)>(order: seq<K>, vals: map<K, real>): (k: K)
    requires order != [] && forall k :: k in order ==> k in vals
    ensures k in order && forall j :: j in order ==> vals[j] <= vals[k]
  {
    var n := |order| - 1;
    assert order == order[..n] + [order[n]];
    if n == 0 then order[0]
    else var best := FirstLargest(order[..n], vals);
      if vals[order[n]] > vals[best] then order[n] else best
  }

  function AsReals<K>(vals: map<K, nat>): (r: map<K, real>)
    ensures r.Keys == vals.Keys && forall k :: k in vals ==> r[k] == vals[k] as real
  {
    map k | k in vals :: vals[k] as real
  }

  ghost function Totals(items: seq<Summary>): real {
    if items == [] then 0.0 else Totals(items[..|items| - 1]) + items[|items| - 1].total
  }

  ghost function Counted(items: seq<Summary>): nat {
    if items == [] then 0 else Counted(items[..|items| - 1]) + items[|items| - 1].count
  }

  ghost function Shares(items: seq<Summary>): real {
    if items == [] then 0.0 else Shares(items[..|items| - 1]) + items[|items| - 1].share
  }

  lemma {:induction false} SharesScale(items: seq<Summary>, total: real)
    requires total > 0.0 && forall i :: 0 <= i < |items| ==> items[i].share == Share(items[i].total, total)
    ensures Shares(items) == Totals(items) / total
  {
    if items != [] { SharesScale(items[..|items| - 1], total); }
  }

  /** The entry tells the truth about its category. */
  ghost predicate ItemOf(item: Summary, total: real, txs: seq<Tx>) {
    && item.count > 0
    && item.total == SumOf(Part(Amount(), CategoryOf(), item.category), txs)
    && item.count as real == SumOf(Part(One(), CategoryOf(), item.category), txs)
    && item.avg == item.total / item.count as real
    && item.share == (if total > 0.0 then item.total / total else 0.0)
  }

  function Share(part: real, total: real): real {
    if total > 0.0 then part / total else 0.0
  }

  ghost predicate ItemsOf(items: seq<Summary>, total: real, txs: seq<Tx>) {
    forall i :: 0 <= i < |items| ==> ItemOf(items[i], total, txs)
  }

  lemma CategoriesCover()
    ensures Distinct(CATEGORIES)
    ensures forall c: Category :: c in CATEGORIES
  {
    forall c: Category ensures c in CATEGORIES {
      match c
      case Food => assert CATEGORIES[0] == c;
      case Shopping => assert CATEGORIES[1] == c;
      case Transport => assert CATEGORIES[2] == c;
      case Entertainment => assert CATEGORIES[3] == c;
      case Education => assert CATEGORIES[4] == c;
      case Healthcare => assert CATEGORIES[5] == c;
      case Housing => assert CATEGORIES[6] == c;
      case Utilities => assert CATEGORIES[7] == c;
      case Finance => assert CATEGORIES[8] == c;
      case Travel => assert CATEGORIES[9] == c;
      case Other => assert CATEGORIES[10] == c;
    }
  }

  /** The profile of a non-empty history: the breakdown adds up to the totals and, when money was spent, its shares
      add up to one. */
  ghost predicate ProfileOf(p: Profile, txs: seq<Tx>) {
    && p.txCount == |txs| && p.totalAmount == SumOf(Amount(), txs)
    && |txs| > 0 && p.avgAmount == SumOf(Amount(), txs) / |txs| as real
    && IsMax(p.maxAmount, txs)
    && ItemsOf(p.breakdown, p.totalAmount, txs)
    && Totals(p.breakdown) == p.totalAmount && Counted(p.breakdown) == p.txCount
    && (p.totalAmount > 0.0 ==> Shares(p.breakdown) == 1.0)
  }

  function Lookup<V>(m: map<Category, V>, cat: Category, default: V): V {
    if cat in m then m[cat] else default
  }

  /** The breakdown entries for a sequence of categories. */
  function BreakdownOver(a: Aggregates, totalAmount: real, cats: seq<Category>): seq<Summary> {
    if cats == [] then []
    else
      var cat := cats[|cats| - 1];
      var total, count := Lookup(a.totals.vals, cat, 0.0), Lookup(a.counts.vals, cat, 0);
      var front := BreakdownOver(a, totalAmount, cats[..|cats| - 1]);
      if count == 0 then front
      else front + [Summary(cat, total, count, total / count as real, Share(total, totalAmount))]
  }

  lemma TotalLookup(d: Dict<Category, real>, txs: seq<Tx>, cat: Category)
    requires TotalsOf(d, CategoryOf(), txs)
    ensures Lookup(d.vals, cat, 0.0) == SumOf(Part(Amount(), CategoryOf(), cat), txs)
  {
    if cat !in d.vals { AbsentKey(Amount(), CategoryOf(), cat, txs); }
  }

  lemma CountLookup(d: Dict<Category, nat>, txs: seq<Tx>, cat: Category)
    requires CountsOf(d, CategoryOf(), txs)
    ensures Lookup(d.vals, cat, 0) as real == SumOf(Part(One(), CategoryOf(), cat), txs)
    ensures Lookup(d.vals, cat, 0) == 0 ==> SumOf(Part(Amount(), CategoryOf(), cat), txs) == 0.0
  {
    if cat !in d.vals {
      AbsentKey(One(), CategoryOf(), cat, txs);
      AbsentKey(Amount(), CategoryOf(), cat, txs);
    } else {
      assert cat in KeySet(CategoryOf(), txs);
      var tx :| tx in txs && CategoryOf()(tx) == cat;
      SumOfBounds(Part(One(), CategoryOf(), cat), txs, tx);
    }
  }

  lemma {:induction false} BreakdownItems(a: Aggregates, txs: seq<Tx>, total: real, cats: seq<Category>)
    requires TotalsOf(a.totals, CategoryOf(), txs) && CountsOf(a.counts, CategoryOf(), txs)
    ensures ItemsOf(BreakdownOver(a, total, cats), total, txs)
  {
    if cats != [] {
      var cat := cats[|cats| - 1];
      BreakdownItems(a, txs, total, cats[..|cats| - 1]);
      TotalLookup(a.totals, txs, cat);
      CountLookup(a.counts, txs, cat);
    }
  }

  lemma TotalsSnoc(items: seq<Summary>, item: Summary)
    ensures Totals(items + [item]) == Totals(items) + item.total
    ensures Counted(items + [item]) == Counted(items) + item.count
  {
    assert (items + [item])[..|items|] == items;
  }

  lemma {:induction false} BreakdownSums(a: Aggregates, txs: seq<Tx>, total: real, cats: seq<Category>)
    requires TotalsOf(a.totals, CategoryOf(), txs) && CountsOf(a.counts, CategoryOf(), txs)
    ensures Totals(BreakdownOver(a, total, cats)) == PartsTotal(Amount(), CategoryOf(), cats, txs)
    ensures Counted(BreakdownOver(a, total, cats)) as real == PartsTotal(One(), CategoryOf(), cats, txs)
  {
    if cats != [] {
      var cat := cats[|cats| - 1];
      BreakdownSums(a, txs, total, cats[..|cats| - 1]);
      TotalLookup(a.totals, txs, cat);
      CountLookup(a.counts, txs, cat);
      var sum, count := Lookup(a.totals.vals, cat, 0.0), Lookup(a.counts.vals, cat, 0);
      if count != 0 {
        TotalsSnoc(BreakdownOver(a, total, cats[..|cats| - 1]),
                   Summary(cat, sum, count, sum / count as real, Share(sum, total)));
      }
    }
  }

  /** Over categories that cover everything, the breakdown adds up to the whole. */
  lemma WholeBreakdown(a: Aggregates, txs: seq<Tx>, total: real, cats: seq<Category>)
    requires TotalsOf(a.totals, CategoryOf(), txs) && CountsOf(a.counts, CategoryOf(), txs)
    requires Distinct(cats) && forall c: Category :: c in cats
    ensures Totals(BreakdownOver(a, total, cats)) == SumOf(Amount(), txs)
    ensures Counted(BreakdownOver(a, total, cats)) == |txs|
  {
    BreakdownSums(a, txs, total, cats);
    PartsAddUp(Amount(), CategoryOf(), cats, txs);
    PartsAddUp(One(), CategoryOf(), cats, txs);
    SumOfOnes(txs);
  }

  /** The dictionaries list their keys, and a history has some. */
  predicate Listed(a: Aggregates) {
    && (a.transactions != [] ==> a.totals.order != [] && a.hours.order != [])
    && (forall k :: k in a.totals.order ==> k in a.totals.vals)
    && (forall k :: k in a.hours.order ==> k in a.hours.vals)
  }

  /** What get_profile reports for the aggregates. */
  function MakeProfile(a: Aggregates): Option<Profile>
    requires Listed(a)
  {
    if a.transactions == [] then None
    else
      var total, n := SumValues(a.totals.order, a.totals.vals), |a.transactions|;
      Some(Profile(n, total, total / n as real, a.maxAmount, FirstLargest(a.hours.order, AsReals(a.hours.vals)),
                   FirstLargest(a.totals.order, a.totals.vals), BreakdownOver(a, total, CATEGORIES)))
  }

  lemma OrderOk<K(!new)>(order: seq<K>, keys: set<K>, key: Tx -> K, txs: seq<Tx>)
    requires KeysOf(order, keys, key, txs)
    ensures forall k :: k in order ==> k in keys
    ensures txs != [] ==> order != []
  {
    if txs != [] {
      assert txs[0] in txs;
      assert key(txs[0]) in KeySet(key, txs);
    }
  }

  lemma RecomputedListed(a: Aggregates)
    requires Recomputes(a, a.transactions)
    ensures Listed(a)
  {
    OrderOk(a.totals.order, a.totals.vals.Keys, CategoryOf(), a.transactions);
    OrderOk(a.hours.order, a.hours.vals.Keys, HourOf(), a.transactions);
  }

  lemma TotalReported(a: Aggregates)
    requires Listed(a) && TotalsOf(a.totals, CategoryOf(), a.transactions) && a.transactions != []
    ensures MakeProfile(a).Some? && MakeProfile(a).value.totalAmount == SumOf(Amount(), a.transactions)
  {
    TotalOfValues(a.totals, CategoryOf(), a.transactions);
  }

  /** A user without transactions has no profile; everyone else's adds up. */
  lemma ProfileCorrect(a: Aggregates)
    requires Recomputes(a, a.transactions)
    ensures Listed(a)
    ensures MakeProfile(a).None? <==> a.transactions == []
    ensures MakeProfile(a).Some? ==> ProfileOf(MakeProfile(a).value, a.transactions)
  {
    RecomputedListed(a);
    if a.transactions != [] {
      TotalReported(a);
      BreakdownReported(a);
    }
  }

  lemma BreakdownReported(a: Aggregates)
    requires Recomputes(a, a.transactions) && Listed(a) && a.transactions != []
    requires MakeProfile(a).value.totalAmount == SumOf(Amount(), a.transactions)
    ensures var p := MakeProfile(a).value;
      && ItemsOf(p.breakdown, p.totalAmount, a.transactions)
      && Totals(p.breakdown) == p.totalAmount && Counted(p.breakdown) == p.txCount
      && (p.totalAmount > 0.0 ==> Shares(p.breakdown) == 1.0)
  {
    var total := SumOf(Amount(), a.transactions);
    CategoriesCover();
    BreakdownItems(a, a.transactions, total, CATEGORIES);
    WholeBreakdown(a, a.transactions, total, CATEGORIES);
    if total > 0.0 { WholeShare(BreakdownOver(a, total, CATEGORIES), total, a.transactions); }
  }

  lemma WholeShare(items: seq<Summary>, total: real, txs: seq<Tx>)
    requires total > 0.0 && ItemsOf(items, total, txs) && Totals(items) == total
    ensures Shares(items) == 1.0
  {
    SharesScale(items, total);
  }

  class UserStore {
    var transactions: seq<Tx>
    var categoryTotals: Dict<Category, real>
    var categoryCounts: Dict<Category, nat>
    var hourCounts: Dict<nat, nat>
    var maxAmount: real

    function Contents(): Aggregates
      reads this
    {
      Aggregates(transactions, categoryTotals, categoryCounts, hourCounts, maxAmount)
    }

    constructor ()
      ensures Contents() == NOTHING
    {
      transactions, categoryTotals, categoryCounts := [], Dict([], map[]), Dict([], map[]);
      hourCounts, maxAmount := Dict([], map[]), 0.0;
    }

    method Add(tx: Tx)
      modifies this
      ensures Contents() == AddTx(old(Contents()), tx)
    {
      transactions := transactions + [tx];
      categoryTotals := AddTo(categoryTotals, tx.category, tx.amount);
      categoryCounts := Tick(categoryCounts, tx.category);
      hourCounts := Tick(hourCounts, tx.hour);
      if tx.amount > maxAmount {
        maxAmount := tx.amount;
      }
    }

    method Breakdown(totalAmount: real) returns (items: seq<Summary>)
      ensures items == BreakdownOver(Contents(), totalAmount, CATEGORIES)
    {
      items := [];
      for n := 0 to |CATEGORIES|
        invariant items == BreakdownOver(Contents(), totalAmount, CATEGORIES[..n])
      {
        var cat := CATEGORIES[n];
        var catTotal := Lookup(categoryTotals.vals, cat, 0.0);
        var catCount := Lookup(categoryCounts.vals, cat, 0);
        assert CATEGORIES[..n + 1][..n] == CATEGORIES[..n];
        if catCount == 0 {
          continue;
        }
        var share := if totalAmount > 0.0 then catTotal / totalAmount else 0.0;
        items := items + [Summary(cat, catTotal, catCount, catTotal / catCount as real, share)];
      }
      assert CATEGORIES[..|CATEGORIES|] == CATEGORIES;
    }
  }

  // ---- Whole histories ------------------------------------------------------------------------------------

  /** The aggregates after ingesting the transactions one by one. */
  function Replay(txs: seq<Tx>): Aggregates {
    if txs == [] then NOTHING else AddTx(Replay(txs[..|txs| - 1]), txs[|txs| - 1])
  }

  lemma NothingRecomputes()
    ensures Recomputes(NOTHING, [])
  {
  }

  lemma ReplaySnoc(txs: seq<Tx>, tx: Tx)
    ensures Replay(txs + [tx]) == AddTx(Replay(txs), tx)
  {
    assert (txs + [tx])[..|txs|] == txs;
  }

  /** The incremental aggregates equal a recomputation from the transaction list. */
  lemma {:induction false} ReplayRecomputes(txs: seq<Tx>)
    ensures Recomputes(Replay(txs), txs)
  {
    if txs == [] {
      NothingRecomputes();
    } else {
      var front, last := txs[..|txs| - 1], txs[|txs| - 1];
      assert front + [last] == txs;
      ReplayRecomputes(front);
      ReplaySnoc(front, last);
      AddRecomputes(Replay(front), front, last);
    }
  }

  datatype Op = Ingest(tx: Tx) | Delete(user: string)

  /** The store as a value: users with something ingested since their last deletion. */
  function Apply(users: map<string, Aggregates>, op: Op): map<string, Aggregates> {
    match op
    case Ingest(tx) => users[tx.user := AddTx(if tx.user in users then users[tx.user] else NOTHING, tx)]
    case Delete(user) => users - {user}
  }

  ghost function Run(ops: seq<Op>): map<string, Aggregates> {
    if ops == [] then map[] else Apply(Run(ops[..|ops| - 1]), ops[|ops| - 1])
  }

  /** A user's transactions since the last deletion. */
  ghost function HistoryOf(ops: seq<Op>, user: string): seq<Tx> {
    if ops == [] then []
    else
      var before := HistoryOf(ops[..|ops| - 1], user);
      match ops[|ops| - 1]
      case Ingest(tx) => if tx.user == user then before + [tx] else before
      case Delete(u) => if u == user then [] else before
  }

  /** After any ingests and deletions, a user is present exactly when something was ingested since the last deletion,
      with the aggregates that a recomputation from that history gives. */
  lemma {:induction false} RunRefines(ops: seq<Op>, user: string)
    ensures user in Run(ops) <==> HistoryOf(ops, user) != []
    ensures user in Run(ops) ==> Run(ops)[user] == Replay(HistoryOf(ops, user))
    ensures user in Run(ops) ==> Recomputes(Run(ops)[user], HistoryOf(ops, user))
  {
    if ops != [] {
      var n := |ops| - 1;
      RunRefines(ops[..n], user);
      ReplayRecomputes(HistoryOf(ops, user));
      if ops[n].Ingest? && ops[n].tx.user == user {
        var before := HistoryOf(ops[..n], user);
        assert (before + [ops[n].tx])[..|before|] == before;
      }
    }
  }

  // ---- Ties ----------------------------------------------------------------------------------------------------

  /** A non-empty dictionary whose order lists exactly its keys. */
  ghost predicate Complete<K(!new)>(d: Dict<K, real>) {
    d.order != [] && forall k :: k in d.vals <==> k in d.order
  }

  /** One key has a larger value than any other. */
  ghost predicate UniqueLargest<K(!new)>(vals: map<K, real>) {
    exists k :: k in vals && forall j :: j in vals && j != k ==> vals[j] < vals[k]
  }

  function Best<K(!new)>(d: Dict<K, real>): K
    requires Complete(d)
  {
    FirstLargest(d.order, d.vals)
  }

  /** The number of transactions by hour, and the amounts by category, in order of first arrival. */
  function ByHour(txs: seq<Tx>): Dict<nat, real> { Dict(Replay(txs).hours.order, AsReals(Replay(txs).hours.vals)) }

  function ByCategory(txs: seq<Tx>): Dict<Category, real> { Replay(txs).totals }

  lemma {:induction false} FirstArrival(txs: seq<Tx>)
    requires txs != []
    ensures ByHour(txs).order != [] && ByHour(txs).order[0] == txs[0].hour
    ensures ByCategory(txs).order != [] && ByCategory(txs).order[0] == txs[0].category
  {
    var n := |txs| - 1;
    if n == 0 {
      assert Replay(txs[..0]) == NOTHING;
    } else {
      FirstArrival(txs[..n]);
    }
  }

  lemma BothComplete(txs: seq<Tx>)
    requires txs != []
    ensures Complete(ByHour(txs)) && Complete(ByCategory(txs))
    ensures ByHour(txs).vals.Keys == KeySet(HourOf(), txs) && ByCategory(txs).vals.Keys == KeySet(CategoryOf(), txs)
  {
    ReplayRecomputes(txs);
    FirstArrival(txs);
    var hours, totals := ByHour(txs), ByCategory(txs);
    assert forall k :: k in hours.vals <==> k in (set h | h in hours.order);
    assert forall k :: k in totals.vals <==> k in (set c | c in totals.order);
  }

  lemma SameValues(txs: seq<Tx>, txs': seq<Tx>)
    requires multiset(txs) == multiset(txs')
    ensures ByHour(txs).vals == ByHour(txs').vals && ByCategory(txs).vals == ByCategory(txs').vals
  {
    ReplayRecomputes(txs);
    ReplayRecomputes(txs');
    SameCounts(Replay(txs).hours, Replay(txs').hours, HourOf(), txs, txs');
    SameTotals(Replay(txs).totals, Replay(txs').totals, CategoryOf(), txs, txs');
  }

  ghost function PeakHour(txs: seq<Tx>): nat
    requires txs != []
  {
    BothComplete(txs);
    Best(ByHour(txs))
  }

  ghost function TopCategory(txs: seq<Tx>): Category
    requires txs != []
  {
    BothComplete(txs);
    Best(ByCategory(txs))
  }

  /** These are the hour and the category that the profile reports. */
  lemma BestReported(txs: seq<Tx>)
    requires txs != []
    ensures Listed(Replay(txs)) && MakeProfile(Replay(txs)).Some?
    ensures MakeProfile(Replay(txs)).value.peakHour == PeakHour(txs)
    ensures MakeProfile(Replay(txs)).value.topCategory == TopCategory(txs)
  {
    ReplayRecomputes(txs);
    RecomputedListed(Replay(txs));
    BothComplete(txs);
  }

  lemma {:induction false} FirstWins<K>(order: seq<K>, vals: map<K, real>)
    requires order != [] && forall k :: k in order ==> k in vals
    requires forall k :: k in order ==> vals[k] <= vals[order[0]]
    ensures FirstLargest(order, vals) == order[0]
  {
    var n := |order| - 1;
    if n > 0 {
      assert forall k :: k in order[..n] ==> k in order;
      assert order[n] in order;
      FirstWins(order[..n], vals);
    }
  }

  lemma BestStable<K(!new)>(d: Dict<K, real>, d': Dict<K, real>)
    requires Complete(d) && Complete(d') && d.vals == d'.vals && UniqueLargest(d.vals)
    ensures Best(d) == Best(d')
  {
  }

  lemma TiedKey<K(!new)>(d: Dict<K, real>) returns (q: K)
    requires Complete(d) && !UniqueLargest(d.vals)
    ensures q in d.vals && q != Best(d) && forall k :: k in d.vals ==> d.vals[k] <= d.vals[q]
  {
    var best := Best(d);
    q :| q in d.vals && q != best && d.vals[q] >= d.vals[best];
  }

  /** A transaction with key q moved to the front. */
  lemma ToFront<K>(txs: seq<Tx>, key: Tx -> K, q: K) returns (txs': seq<Tx>)
    requires q in KeySet(key, txs)
    ensures multiset(txs') == multiset(txs) && txs' != [] && key(txs'[0]) == q
  {
    var t :| t in txs && key(t) == q;
    var k :| 0 <= k < |txs| && txs[k] == t;
    txs' := [t] + (txs[..k] + txs[k + 1..]);
    assert txs == txs[..k] + [t] + txs[k + 1..];
  }

  lemma FirstPeakHour(txs: seq<Tx>, q: nat)
    requires txs != [] && txs[0].hour == q && q in ByHour(txs).vals
    requires forall k :: k in ByHour(txs).vals ==> ByHour(txs).vals[k] <= ByHour(txs).vals[q]
    ensures PeakHour(txs) == q
  {
    BothComplete(txs);
    FirstArrival(txs);
    FirstWins(ByHour(txs).order, ByHour(txs).vals);
  }

  lemma FirstTopCategory(txs: seq<Tx>, q: Category)
    requires txs != [] && txs[0].category == q && q in ByCategory(txs).vals
    requires forall k :: k in ByCategory(txs).vals ==> ByCategory(txs).vals[k] <= ByCategory(txs).vals[q]
    ensures TopCategory(txs) == q
  {
    BothComplete(txs);
    FirstArrival(txs);
    FirstWins(ByCategory(txs).order, ByCategory(txs).vals);
  }

  lemma SameBest(txs: seq<Tx>, txs': seq<Tx>)
    requires txs != [] && txs' != [] && multiset(txs) == multiset(txs')
    ensures UniqueLargest(ByHour(txs).vals) ==> PeakHour(txs) == PeakHour(txs')
    ensures UniqueLargest(ByCategory(txs).vals) ==> TopCategory(txs) == TopCategory(txs')
  {
    BothComplete(txs);
    BothComplete(txs');
    SameValues(txs, txs');
    if UniqueLargest(ByHour(txs).vals) { BestStable(ByHour(txs), ByHour(txs')); }
    if UniqueLargest(ByCategory(txs).vals) { BestStable(ByCategory(txs), ByCategory(txs')); }
  }

  lemma TiedPeak(txs: seq<Tx>) returns (q: nat)
    requires txs != [] && !UniqueLargest(ByHour(txs).vals)
    ensures q in KeySet(HourOf(), txs) && q in ByHour(txs).vals && q != PeakHour(txs)
    ensures forall k :: k in ByHour(txs).vals ==> ByHour(txs).vals[k] <= ByHour(txs).vals[q]
  {
    BothComplete(txs);
    q := TiedKey(ByHour(txs));
  }

  lemma OtherPeak(txs: seq<Tx>) returns (txs': seq<Tx>)
    requires txs != [] && !UniqueLargest(ByHour(txs).vals)
    ensures txs' != [] && multiset(txs) == multiset(txs') && PeakHour(txs) != PeakHour(txs')
  {
    var q := TiedPeak(txs);
    txs' := ToFront(txs, HourOf(), q);
    SameValues(txs, txs');
    FirstPeakHour(txs', q);
  }

  lemma TiedTop(txs: seq<Tx>) returns (q: Category)
    requires txs != [] && !UniqueLargest(ByCategory(txs).vals)
    ensures q in KeySet(CategoryOf(), txs) && q in ByCategory(txs).vals && q != TopCategory(txs)
    ensures forall k :: k in ByCategory(txs).vals ==> ByCategory(txs).vals[k] <= ByCategory(txs).vals[q]
  {
    BothComplete(txs);
    q := TiedKey(ByCategory(txs));
  }

  lemma OtherTop(txs: seq<Tx>) returns (txs': seq<Tx>)
    requires txs != [] && !UniqueLargest(ByCategory(txs).vals)
    ensures txs' != [] && multiset(txs) == multiset(txs') && TopCategory(txs) != TopCategory(txs')
  {
    var q := TiedTop(txs);
    txs' := ToFront(txs, CategoryOf(), q);
    SameValues(txs, txs');
    FirstTopCategory(txs', q);
  }

  /** The reported peak hour is the same for every order of arrival exactly when the busiest hour is unique. */
  lemma PeakOrderIndependentIff(txs: seq<Tx>)
    requires txs != []
    ensures (forall txs' :: txs' != [] && multiset(txs) == multiset(txs') ==> PeakHour(txs) == PeakHour(txs'))
       <==> UniqueLargest(ByHour(txs).vals)
  {
    if UniqueLargest(ByHour(txs).vals) {
      forall txs' | txs' != [] && multiset(txs) == multiset(txs') ensures PeakHour(txs) == PeakHour(txs') {
        SameBest(txs, txs');
      }
    } else {
      var txs' := OtherPeak(txs);
    }
  }

  /** The reported top category is the same for every order of arrival exactly when one category has the largest
      amount. */
  lemma TopOrderIndependentIff(txs: seq<Tx>)
    requires txs != []
    ensures (forall txs' :: txs' != [] && multiset(txs) == multiset(txs') ==> TopCategory(txs) == TopCategory(txs'))
       <==> UniqueLargest(ByCategory(txs).vals)
  {
    if UniqueLargest(ByCategory(txs).vals) {
      forall txs' | txs' != [] && multiset(txs) == multiset(txs') ensures TopCategory(txs) == TopCategory(txs') {
        SameBest(txs, txs');
      }
    } else {
      var txs' := OtherTop(txs);
    }
  }

  // ---- The monthly trend -----------------------------------------------------------------------------------------

  /** The inner keys: a category's value, or "_total", which is no category's value. */
  datatype TrendKey = Cat(category: Category) | Total

  function Plus(m: map<TrendKey, real>, k: TrendKey, x: real): map<TrendKey, real> {
    m[k := (if k in m then m[k] else 0.0) + x]
  }

  function AddTrend(monthly: Dict<string, map<TrendKey, real>>, tx: Tx): Dict<string, map<TrendKey, real>> {
    var inner := if tx.month in monthly.vals then monthly.vals[tx.month] else map[];
    var inner' := Plus(Plus(inner, Cat(tx.category), tx.amount), Total, tx.amount);
    Dict(if tx.month in monthly.vals then monthly.order else monthly.order + [tx.month],
         monthly.vals[tx.month := inner'])
  }

  ghost function TrendOf(txs: seq<Tx>): Dict<string, map<TrendKey, real>> {
    if txs == [] then Dict([], map[]) else AddTrend(TrendOf(txs[..|txs| - 1]), txs[|txs| - 1])
  }

  method GetTrend(txs: seq<Tx>) returns (monthly: Dict<string, map<TrendKey, real>>)
    ensures monthly == TrendOf(txs)
  {
    monthly := Dict([], map[]);
    for n := 0 to |txs|
      invariant monthly == TrendOf(txs[..n])
    {
      assert txs[..n + 1][..n] == txs[..n];
      var month := txs[n].month;
      if month !in monthly.vals {
        monthly := Dict(monthly.order + [month], monthly.vals[month := map[]]);
      }
      var inner := Plus(monthly.vals[month], Cat(txs[n].category), txs[n].amount);
      inner := Plus(inner, Total, txs[n].amount);
      monthly := monthly.(vals := monthly.vals[month := inner]);
    }
    assert txs[..|txs|] == txs;
  }

  function InMonth(m: string): Tx -> real { Part(Amount(), MonthOf(), m) }

  function Cell(inner: map<TrendKey, real>, k: TrendKey): real { if k in inner then inner[k] else 0.0 }

  /** The cells of a month: what was spent in each category, and altogether. */
  ghost predicate MonthOk(inner: map<TrendKey, real>, m: string, txs: seq<Tx>) {
    && Cell(inner, Total) == SumOf(InMonth(m), txs)
    && forall c: Category :: Cell(inner, Cat(c)) == SumOf(Part(InMonth(m), CategoryOf(), c), txs)
  }

  ghost predicate TrendOk(d: Dict<string, map<TrendKey, real>>, txs: seq<Tx>) {
    KeysOf(d.order, d.vals.Keys, MonthOf(), txs) && forall m :: m in d.vals ==> MonthOk(d.vals[m], m, txs)
  }

  lemma MonthNext(inner: map<TrendKey, real>, m: string, txs: seq<Tx>, tx: Tx)
    requires MonthOk(inner, m, txs)
    ensures MonthOk(if tx.month == m then Plus(Plus(inner, Cat(tx.category), tx.amount), Total, tx.amount) else inner,
                    m, txs + [tx])
  {
    SumOfSnoc(InMonth(m), txs, tx);
    forall c: Category ensures SumOf(Part(InMonth(m), CategoryOf(), c), txs + [tx])
      == SumOf(Part(InMonth(m), CategoryOf(), c), txs) + (if tx.month == m && tx.category == c then tx.amount else 0.0)
    {
      SumOfSnoc(Part(InMonth(m), CategoryOf(), c), txs, tx);
    }
  }

  lemma {:induction false} NewMonth(m: string, txs: seq<Tx>)
    requires m !in KeySet(MonthOf(), txs)
    ensures MonthOk(map[], m, txs)
  {
    if txs != [] {
      var n := |txs| - 1;
      assert txs[n] in txs && forall t :: t in txs[..n] ==> t in txs;
      assert MonthOf()(txs[n]) in KeySet(MonthOf(), txs);
      NewMonth(m, txs[..n]);
      MonthNext(map[], m, txs[..n], txs[n]);
      assert txs == txs[..n] + [txs[n]];
    }
  }

  lemma TrendNext(d: Dict<string, map<TrendKey, real>>, txs: seq<Tx>, tx: Tx)
    requires TrendOk(d, txs)
    ensures TrendOk(AddTrend(d, tx), txs + [tx])
  {
    var d' := AddTrend(d, tx);
    KeysNext(d.order, d.vals.Keys, MonthOf(), txs, tx);
    assert d'.vals.Keys == d.vals.Keys + {tx.month};
    forall m | m in d'.vals ensures MonthOk(d'.vals[m], m, txs + [tx]) {
      if m in d.vals {
        MonthNext(d.vals[m], m, txs, tx);
      } else {
        NewMonth(m, txs);
        MonthNext(map[], m, txs, tx);
      }
    }
  }

  lemma {:induction false} TrendCorrect(txs: seq<Tx>)
    ensures TrendOk(TrendOf(txs), txs)
  {
    if txs != [] {
      var n := |txs| - 1;
      TrendCorrect(txs[..n]);
      TrendNext(TrendOf(txs[..n]), txs[..n], txs[n]);
      assert txs == txs[..n] + [txs[n]];
    }
  }

  /** The "_total" entries of the months ms, added up. */
  ghost function MonthTotals(d: Dict<string, map<TrendKey, real>>, ms: seq<string>): real {
    if ms == [] then 0.0
    else MonthTotals(d, ms[..|ms| - 1])
         + (if ms[|ms| - 1] in d.vals then Cell(d.vals[ms[|ms| - 1]], Total) else 0.0)
  }

  lemma {:induction false} MonthTotalsAreParts(d: Dict<string, map<TrendKey, real>>, txs: seq<Tx>, ms: seq<string>)
    requires TrendOk(d, txs) && forall m :: m in ms ==> m in d.vals
    ensures MonthTotals(d, ms) == PartsTotal(Amount(), MonthOf(), ms, txs)
  {
    if ms != [] {
      var n := |ms| - 1;
      assert ms[n] in ms && forall m :: m in ms[..n] ==> m in ms;
      MonthTotalsAreParts(d, txs, ms[..n]);
    }
  }

  /** The monthly totals add up to the profile's total amount. */
  lemma TrendTotals(txs: seq<Tx>)
    ensures MonthTotals(TrendOf(txs), TrendOf(txs).order) == SumOf(Amount(), txs)
  {
    var d := TrendOf(txs);
    TrendCorrect(txs);
    OrderOk(d.order, d.vals.Keys, MonthOf(), txs);
    MonthTotalsAreParts(d, txs, d.order);
    forall tx | tx in txs ensures MonthOf()(tx) in d.order {
      assert MonthOf()(tx) in KeySet(MonthOf(), txs);
      assert MonthOf()(tx) in (set k | k in d.order);
    }
    PartsAddUp(Amount(), MonthOf(), d.order, txs);
  }

  /** In each month the categories add up to the month's total. */
  lemma MonthAddsUp(txs: seq<Tx>, m: string)
    requires m in TrendOf(txs).vals
    ensures Cell(TrendOf(txs).vals[m], Total) == PartsTotal(InMonth(m), CategoryOf(), CATEGORIES, txs)
    ensures forall c: Category :: Cell(TrendOf(txs).vals[m], Cat(c)) == SumOf(Part(InMonth(m), CategoryOf(), c), txs)
  {
    TrendCorrect(txs);
    CategoriesCover();
    PartsAddUp(InMonth(m), CategoryOf(), CATEGORIES, txs);
  }

  // ---- The store ---------------------------------------------------------------------------------------------------

  ghost predicate AllRecompute(users: map<string, Aggregates>) {
    forall u :: u in users ==> Recomputes(users[u], users[u].transactions)
  }

  lemma RecomputesAt(users: map<string, Aggregates>, u: string)
    requires AllRecompute(users) && u in users
    ensures Recomputes(users[u], users[u].transactions)
  {
  }

  lemma ApplyRecomputes(users: map<string, Aggregates>, op: Op)
    requires AllRecompute(users)
    ensures AllRecompute(Apply(users, op))
  {
    if op.Ingest? {
      var before := if op.tx.user in users then users[op.tx.user] else NOTHING;
      NothingRecomputes();
      AddRecomputes(before, before.transactions, op.tx);
    }
  }

  class ProfileStore {
    var users: map<string, UserStore>

    /** No two users share a record. */
    ghost predicate Separate()
      reads this
    {
      forall u, v :: u in users && v in users && u != v ==> users[u] != users[v]
    }

    /** Every record's aggregates are also those of its transactions. */
    ghost predicate Valid()
      reads this, users.Values
    {
      Separate() && AllRecompute(Contents())
    }

    ghost function Contents(): map<string, Aggregates>
      reads this, users.Values
    {
      map u | u in users :: users[u].Contents()
    }

    constructor ()
      ensures Valid() && Contents() == map[] && users == map[]
    {
      users := map[];
    }

    method Record(tx: Tx)
      requires Separate()
      modifies this, users.Values
      ensures Separate() && Contents() == Apply(old(Contents()), Ingest(tx))
      ensures fresh(users.Values - old(users.Values))
    {
      if tx.user !in users {
        var record := new UserStore();
        users := users[tx.user := record];
      }
      users[tx.user].Add(tx);
    }

    method IngestTx(tx: Tx)
      requires Valid()
      modifies this, users.Values
      ensures Valid() && Contents() == Apply(old(Contents()), Ingest(tx))
      ensures fresh(users.Values - old(users.Values))
    {
      Record(tx);
      ApplyRecomputes(old(Contents()), Ingest(tx));
    }

    method Drop(user: string)
      requires Separate()
      modifies this
      ensures Separate() && Contents() == Apply(old(Contents()), Delete(user)) && users == old(users) - {user}
    {
      users := users - {user};
    }

    method DeleteUser(user: string) returns (existed: bool)
      requires Valid()
      modifies this
      ensures Valid() && Contents() == Apply(old(Contents()), Delete(user))
      ensures existed <==> user in old(users)
    {
      existed := user in users;
      ApplyRecomputes(Contents(), Delete(user));
      if existed {
        Drop(user);
      } else {
        assert Apply(Contents(), Delete(user)) == Contents();
      }
    }

    method GetProfile(user: string) returns (p: Option<Profile>)
      requires Valid()
      ensures p.None? <==> user !in users || users[user].transactions == []
      ensures p.Some? ==> Listed(users[user].Contents()) && p == MakeProfile(users[user].Contents())
      ensures p.Some? ==> ProfileOf(p.value, users[user].transactions)
    {
      if user !in users || users[user].transactions == [] {
        return None;
      }
      var store := users[user];
      RecomputesAt(Contents(), user);
      ProfileCorrect(store.Contents());
      var totalAmount := SumValues(store.categoryTotals.order, store.categoryTotals.vals);
      var txCount := |store.transactions|;
      var peakHour := FirstLargest(store.hourCounts.order, AsReals(store.hourCounts.vals));
      var topCategory := FirstLargest(store.categoryTotals.order, store.categoryTotals.vals);
      var items := store.Breakdown(totalAmount);
      p := Some(Profile(txCount, totalAmount, totalAmount / txCount as real, store.maxAmount, peakHour, topCategory,
                        items));
    }
  }
}
