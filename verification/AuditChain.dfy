/** The audit hash chain and its retention policy, working on the same table.  digest stands for SHA-256 of the
    canonical JSON of (timestamp, entry, previous hash, index). */
module AuditChain {

  datatype Entry = Entry(transactionId: string, userId: string, action: string, score: real, reason: string,
                         amount: real)

  datatype Row = Row(id: nat, index: int, entry: Entry, blockTs: real, prevHash: string, blockHash: string,
                     createdAt: real)

  type Digest = (real, Entry, string, int) -> string

  function Genesis(): (hash: string)
    ensures |hash| == 64 && forall i :: 0 <= i < 64 ==> hash[i] == '0'
  {
    seq(64, _ => '0')
  }

  // ---- Reading the table in block order -----------------------------------------------------------------

  function Insert(row: Row, rows: seq<Row>): (r: seq<Row>)
    ensures multiset(r) == multiset(rows) + multiset{row}
  {
    if rows == [] || row.index <= rows[0].index then [row] + rows
    else
      assert rows == [rows[0]] + rows[1..];
      [rows[0]] + Insert(row, rows[1..])
  }

  /** SELECT ... ORDER BY block_index. */
  function OrderByIndex(rows: seq<Row>): (r: seq<Row>)
    ensures multiset(r) == multiset(rows)
  {
    if rows == [] then []
    else
      assert rows == [rows[0]] + rows[1..];
      Insert(rows[0], OrderByIndex(rows[1..]))
  }

  ghost predicate AscendingIndex(rows: seq<Row>) {
    forall i, j :: 0 <= i < j < |rows| ==> rows[i].index <= rows[j].index
  }

  lemma {:induction false} InsertAscends(row: Row, rows: seq<Row>)
    requires AscendingIndex(rows)
    ensures AscendingIndex(Insert(row, rows))
  {
    if rows != [] && row.index > rows[0].index {
      InsertAscends(row, rows[1..]);
      forall r | r in Insert(row, rows[1..]) ensures rows[0].index <= r.index {
        InsertMembers(row, rows[1..], r);
      }
    }
  }

  lemma InsertMembers(row: Row, rows: seq<Row>, r: Row)
    requires r in Insert(row, rows)
    ensures r == row || r in rows
  {
    assert r in multiset(Insert(row, rows));
  }

  lemma {:induction false} OrderAscends(rows: seq<Row>)
    ensures AscendingIndex(OrderByIndex(rows))
  {
    if rows != [] {
      OrderAscends(rows[1..]);
      InsertAscends(rows[0], OrderByIndex(rows[1..]));
    }
  }

  lemma {:induction false} OrderOfAscending(rows: seq<Row>)
    requires AscendingIndex(rows)
    ensures OrderByIndex(rows) == rows
  {
    if rows != [] {
      OrderOfAscending(rows[1..]);
      assert rows == [rows[0]] + rows[1..];
    }
  }

  /** Every row names the hash of the row before it. */
  ghost predicate Linked(rows: seq<Row>) {
    forall i :: 0 < i < |rows| ==> rows[i].prevHash == rows[i - 1].blockHash
  }

  // ---- Appending ------------------------------------------------------------------------------------------

  /** One more than the index of the last row in block order; 0 in an empty table. */
  function NextIndex(rows: seq<Row>): int {
    var ordered := OrderByIndex(rows);
    if ordered == [] then 0 else ordered[|ordered| - 1].index + 1
  }

  function PrevHash(rows: seq<Row>): string {
    var ordered := OrderByIndex(rows);
    if ordered == [] then Genesis() else ordered[|ordered| - 1].blockHash
  }

  function NewRow(digest: Digest, rows: seq<Row>, id: nat, entry: Entry, ts: real, createdAt: real): Row {
    var prev, index := PrevHash(rows), NextIndex(rows);
    Row(id, index, entry, ts, prev, digest(ts, entry, prev, index), createdAt)
  }

  /** Block 0 after the genesis hash in an empty table, and otherwise one more than the greatest index there is,
      naming the hash of such a row. */
  ghost predicate FollowsIn(rows: seq<Row>, row: Row) {
    if rows == [] then row.index == 0 && row.prevHash == Genesis()
    else exists tip :: tip in rows && row.index == tip.index + 1 && row.prevHash == tip.blockHash
                       && forall r :: r in rows ==> r.index <= tip.index
  }

  lemma OrderMembers(rows: seq<Row>, r: Row)
    ensures r in OrderByIndex(rows) <==> r in rows
  {
    assert r in multiset(rows) <==> r in rows;
    assert r in multiset(OrderByIndex(rows)) <==> r in OrderByIndex(rows);
  }

  lemma LastOfAscending(rows: seq<Row>, ordered: seq<Row>)
    requires rows != [] && AscendingIndex(ordered) && forall r :: r in ordered <==> r in rows
    ensures ordered != [] && ordered[|ordered| - 1] in rows
    ensures forall r :: r in rows ==> r.index <= ordered[|ordered| - 1].index
  {
    assert rows[0] in ordered;
  }

  lemma LastIsGreatest(rows: seq<Row>) returns (tip: Row)
    requires rows != []
    ensures OrderByIndex(rows) != [] && tip == OrderByIndex(rows)[|OrderByIndex(rows)| - 1]
    ensures tip in rows && forall r :: r in rows ==> r.index <= tip.index
  {
    forall r ensures r in OrderByIndex(rows) <==> r in rows { OrderMembers(rows, r); }
    OrderAscends(rows);
    LastOfAscending(rows, OrderByIndex(rows));
    tip := OrderByIndex(rows)[|OrderByIndex(rows)| - 1];
  }

  lemma NewRowFollows(digest: Digest, rows: seq<Row>, id: nat, entry: Entry, ts: real, createdAt: real)
    ensures FollowsIn(rows, NewRow(digest, rows, id, entry, ts, createdAt))
  {
    if rows != [] {
      var tip := LastIsGreatest(rows);
      var row := NewRow(digest, rows, id, entry, ts, createdAt);
      assert row.index == tip.index + 1 && row.prevHash == tip.blockHash;
    }
  }

  // ---- Retention ------------------------------------------------------------------------------------------

  function Retained(rows: seq<Row>, cutoff: real): seq<Row> {
    if rows == [] then []
    else var n := |rows| - 1;
      Retained(rows[..n], cutoff) + if rows[n].createdAt < cutoff then [] else [rows[n]]
  }

  function ExpiredIds(rows: seq<Row>, cutoff: real): (ids: set<nat>)
    ensures forall id :: id in ids <==> exists r :: r in rows && r.createdAt < cutoff && r.id == id
  {
    set r | r in rows && r.createdAt < cutoff :: r.id
  }

  function Without(rows: seq<Row>, ids: set<nat>): seq<Row> {
    if rows == [] then []
    else var n := |rows| - 1;
      Without(rows[..n], ids) + if rows[n].id in ids then [] else [rows[n]]
  }

  ghost predicate AscendingIds(rows: seq<Row>) {
    forall i, j :: 0 <= i < j < |rows| ==> rows[i].id < rows[j].id
  }

  lemma {:induction false} WithoutMembers(rows: seq<Row>, ids: set<nat>)
    ensures forall r :: r in Without(rows, ids) <==> r in rows && r.id !in ids
  {
    if rows != [] {
      var n := |rows| - 1;
      WithoutMembers(rows[..n], ids);
      assert rows == rows[..n] + [rows[n]];
    }
  }

  lemma {:induction false} WithoutAscends(rows: seq<Row>, ids: set<nat>)
    requires AscendingIds(rows)
    ensures AscendingIds(Without(rows, ids))
  {
    if rows != [] {
      var n := |rows| - 1;
      var front := Without(rows[..n], ids);
      WithoutAscends(rows[..n], ids);
      WithoutMembers(rows[..n], ids);
      forall i | 0 <= i < |front| ensures front[i].id < rows[n].id {
        assert front[i] in front;
        var k :| 0 <= k < n && rows[..n][k] == front[i];
      }
    }
  }

  lemma {:induction false} RetainedMembers(rows: seq<Row>, cutoff: real)
    ensures forall r :: r in Retained(rows, cutoff) <==> r in rows && r.createdAt >= cutoff
  {
    if rows != [] {
      var n := |rows| - 1;
      RetainedMembers(rows[..n], cutoff);
      assert rows == rows[..n] + [rows[n]];
    }
  }

  /** Deleting expired rows does not change what is to be retained. */
  lemma {:induction false} RetainedAfterDelete(rows: seq<Row>, cutoff: real, ids: set<nat>)
    requires forall r :: r in rows && r.id in ids ==> r.createdAt < cutoff
    ensures Retained(Without(rows, ids), cutoff) == Retained(rows, cutoff)
  {
    if rows != [] {
      var n := |rows| - 1;
      assert forall r :: r in rows[..n] ==> r in rows;
      RetainedAfterDelete(rows[..n], cutoff, ids);
      var front := Without(rows[..n], ids);
      if rows[n].id in ids {
        assert rows[n] in rows;
        assert Without(rows, ids) == front;
        assert Retained(rows, cutoff) == Retained(rows[..n], cutoff);
      } else {
        assert Without(rows, ids)[..|front|] == front;
      }
    }
  }

  lemma {:induction false} NothingExpired(rows: seq<Row>, cutoff: real)
    requires ExpiredIds(rows, cutoff) == {}
    ensures Retained(rows, cutoff) == rows
  {
    if rows != [] {
      var n := |rows| - 1;
      assert rows == rows[..n] + [rows[n]];
      assert rows[n] in rows;
      assert ExpiredIds(rows[..n], cutoff) <= ExpiredIds(rows, cutoff);
      NothingExpired(rows[..n], cutoff);
      assert rows[n].id !in ExpiredIds(rows, cutoff);
    }
  }

  lemma ExpiredAfterDelete(rows: seq<Row>, cutoff: real, ids: set<nat>)
    requires AscendingIds(rows) && ids <= ExpiredIds(rows, cutoff)
    ensures ExpiredIds(Without(rows, ids), cutoff) == ExpiredIds(rows, cutoff) - ids
    ensures forall r :: r in rows && r.id in ids ==> r.createdAt < cutoff
  {
    forall r | r in rows && r.id in ids ensures r.createdAt < cutoff {
      var s :| s in rows && s.createdAt < cutoff && s.id == r.id;
      OneRowPerId(rows, r, s);
    }
    WithoutMembers(rows, ids);
    var after := ExpiredIds(Without(rows, ids), cutoff);
    forall id ensures id in after <==> id in ExpiredIds(rows, cutoff) && id !in ids {}
  }

  lemma OneRowPerId(rows: seq<Row>, r: Row, s: Row)
    requires AscendingIds(rows) && r in rows && s in rows && r.id == s.id
    ensures r == s
  {
    var i :| 0 <= i < |rows| && rows[i] == r;
    var j :| 0 <= j < |rows| && rows[j] == s;
  }

  lemma DeleteBatch(rows: seq<Row>, cutoff: real, ids: set<nat>)
    requires AscendingIds(rows) && ids <= ExpiredIds(rows, cutoff)
    ensures var after := Without(rows, ids);
      && AscendingIds(after) && (forall r :: r in after ==> r in rows)
      && Retained(after, cutoff) == Retained(rows, cutoff)
      && ExpiredIds(after, cutoff) == ExpiredIds(rows, cutoff) - ids
      && |ExpiredIds(after, cutoff)| == |ExpiredIds(rows, cutoff)| - |ids|
  {
    ExpiredAfterDelete(rows, cutoff, ids);
    RetainedAfterDelete(rows, cutoff, ids);
    WithoutMembers(rows, ids);
    WithoutAscends(rows, ids);
  }

  lemma {:induction false} SubsetOfSize(s: set<nat>, k: nat) returns (t: set<nat>)
    requires k <= |s|
    ensures t <= s && |t| == k
  {
    if k == |s| {
      t := s;
    } else {
      var x :| x in s;
      t := SubsetOfSize(s - {x}, k);
    }
  }

  /** The rows expired at the time of the count, and those deleted by the batches. */
  datatype Report = Report(dryRun: bool, expiredCount: nat, deleted: nat)

  class AuditTable {
    const digest: Digest
    var rows: seq<Row>
    var nextId: nat

    ghost predicate Valid()
      reads this
    {
      AscendingIds(rows) && forall r :: r in rows ==> r.id < nextId
    }

    constructor (digest: Digest)
      ensures Valid() && rows == [] && nextId == 0 && this.digest == digest
    {
      this.digest := digest;
      rows, nextId := [], 0;
    }

    method LogAuditEntry(entry: Entry, ts: real, createdAt: real) returns (index: int, hash: string)
      requires Valid()
      modifies this
      ensures Valid()
      ensures State(rows, nextId) == StepLog(digest, State(old(rows), old(nextId)), entry, ts, createdAt)
      ensures |rows| == |old(rows)| + 1 && rows[..|old(rows)|] == old(rows)
      ensures index == rows[|rows| - 1].index && hash == digest(ts, entry, rows[|rows| - 1].prevHash, index)
      ensures Records(digest, rows[|rows| - 1], Log(entry, ts, createdAt))
      ensures FollowsIn(old(rows), rows[|rows| - 1])
    {
      var row := NewRow(digest, rows, nextId, entry, ts, createdAt);
      NewRowFollows(digest, rows, nextId, entry, ts, createdAt);
      rows, nextId := rows + [row], nextId + 1;
      index, hash := row.index, row.blockHash;
    }

    /** Some expired rows, as many as there are up to the batch size. */
    method SelectSome(cutoff: real, batch: nat) returns (ids: set<nat>)
      ensures ids <= ExpiredIds(rows, cutoff)
      ensures |ids| == if |ExpiredIds(rows, cutoff)| <= batch then |ExpiredIds(rows, cutoff)| else batch
    {
      var expired := ExpiredIds(rows, cutoff);
      var limit := if |expired| <= batch then |expired| else batch;
      ghost var witnessed := SubsetOfSize(expired, limit);
      ids :| ids <= expired && |ids| == limit;
    }

    method Delete(ids: set<nat>, ghost cutoff: real)
      requires Valid() && ids <= ExpiredIds(rows, cutoff)
      modifies this`rows
      ensures Valid() && rows == Without(old(rows), ids) && Retained(rows, cutoff) == Retained(old(rows), cutoff)
      ensures |ExpiredIds(rows, cutoff)| == |ExpiredIds(old(rows), cutoff)| - |ids|
    {
      DeleteBatch(rows, cutoff, ids);
      rows := Without(rows, ids);
    }

    /** Whatever the batch size and whichever expired rows each batch happens to pick, exactly the expired rows
        go, and the report says how many. */
    method PurgeDb(cutoff: real, dry: bool, batchSetting: int) returns (report: Report)
      requires Valid()
      modifies this`rows
      ensures Valid()
      ensures rows == if dry then old(rows) else Retained(old(rows), cutoff)
      ensures report.dryRun == dry && report.expiredCount == |ExpiredIds(old(rows), cutoff)|
      ensures report.deleted == if dry then 0 else report.expiredCount
    {
      var batch := if batchSetting < 1 then 1 else batchSetting;
      var expiredCount := |ExpiredIds(rows, cutoff)|;
      if dry || expiredCount == 0 {
        if !dry { NothingExpired(rows, cutoff); }
        return Report(dry, expiredCount, 0);
      }
      var deletedTotal := 0;
      while true
        invariant Valid()
        invariant Retained(rows, cutoff) == Retained(old(rows), cutoff)
        invariant deletedTotal + |ExpiredIds(rows, cutoff)| == expiredCount
        decreases |ExpiredIds(rows, cutoff)|
      {
        var ids := SelectSome(cutoff, batch);
        if ids == {} {
          break;
        }
        Delete(ids, cutoff);
        deletedTotal := deletedTotal + |ids|;
        if |ids| < batch {
          break;
        }
      }
      NothingExpired(rows, cutoff);
      report := Report(false, expiredCount, deletedTotal);
    }

    method VerifyAuditChain() returns (valid: bool, chainLength: nat)
      ensures valid <==> Linked(OrderByIndex(rows))
      ensures valid ==> chainLength == |rows|
    {
      var ordered := OrderByIndex(rows);
      assert |ordered| == |multiset(ordered)| == |multiset(rows)| == |rows|;
      for i := 0 to |ordered|
        invariant forall k :: 0 < k < i ==> ordered[k].prevHash == ordered[k - 1].blockHash
      {
        if i > 0 && ordered[i].prevHash != ordered[i - 1].blockHash {
          return false, 0;
        }
      }
      return true, |ordered|;
    }
  }

  // ---- Whole runs --------------------------------------------------------------------------------------------

  datatype State = State(rows: seq<Row>, nextId: nat)

  datatype Op = Log(entry: Entry, ts: real, createdAt: real) | Purge(cutoff: real, dry: bool)

  function StepLog(digest: Digest, s: State, entry: Entry, ts: real, createdAt: real): State {
    State(s.rows + [NewRow(digest, s.rows, s.nextId, entry, ts, createdAt)], s.nextId + 1)
  }

  ghost function Step(digest: Digest, s: State, op: Op): State {
    match op
    case Log(entry, ts, createdAt) => StepLog(digest, s, entry, ts, createdAt)
    case Purge(cutoff, dry) => if dry then s else s.(rows := Retained(s.rows, cutoff))
  }

  ghost function Run(digest: Digest, ops: seq<Op>): State {
    if ops == [] then State([], 0) else Step(digest, Run(digest, ops[..|ops| - 1]), ops[|ops| - 1])
  }

  /** created_at never decreases from one logged entry to a later one. */
  ghost predicate MonotoneClock(ops: seq<Op>) {
    forall i, j :: 0 <= i < j < |ops| && ops[i].Log? && ops[j].Log? ==> ops[i].createdAt <= ops[j].createdAt
  }

  /** Consecutive indices, linked hashes that recompute, and creation times in block order. */
  ghost predicate Chain(digest: Digest, rows: seq<Row>) {
    && (forall i :: 0 <= i < |rows| ==> rows[i].index == rows[0].index + i)
    && Linked(rows)
    && (forall r :: r in rows ==> r.blockHash == digest(r.blockTs, r.entry, r.prevHash, r.index))
  }

  ghost predicate AscendingTimes(rows: seq<Row>) {
    forall i, j :: 0 <= i < j < |rows| ==> rows[i].createdAt <= rows[j].createdAt
  }

  ghost predicate NotAfter(rows: seq<Row>, latest: real) {
    forall r :: r in rows ==> r.createdAt <= latest
  }

  lemma FollowsTip(digest: Digest, rows: seq<Row>, id: nat, entry: Entry, ts: real, createdAt: real)
    requires AscendingIndex(rows) && rows != []
    ensures var row, tip := NewRow(digest, rows, id, entry, ts, createdAt), rows[|rows| - 1];
      row.index == tip.index + 1 && row.prevHash == tip.blockHash
  {
    OrderOfAscending(rows);
  }

  lemma ConsecutiveAscends(rows: seq<Row>)
    requires forall i :: 0 <= i < |rows| ==> rows[i].index == rows[0].index + i
    ensures AscendingIndex(rows)
  {
  }

  lemma LogFollows(digest: Digest, rows: seq<Row>, id: nat, entry: Entry, ts: real, createdAt: real)
    requires Chain(digest, rows)
    ensures var row := NewRow(digest, rows, id, entry, ts, createdAt);
      && (rows == [] ==> row.index == 0 && row.prevHash == Genesis())
      && (rows != [] ==> row.index == rows[0].index + |rows| && row.prevHash == rows[|rows| - 1].blockHash)
  {
    if rows != [] {
      ConsecutiveAscends(rows);
      FollowsTip(digest, rows, id, entry, ts, createdAt);
    }
  }

  lemma LogKeepsChain(digest: Digest, rows: seq<Row>, id: nat, entry: Entry, ts: real, createdAt: real)
    requires Chain(digest, rows)
    ensures Chain(digest, rows + [NewRow(digest, rows, id, entry, ts, createdAt)])
  {
    LogFollows(digest, rows, id, entry, ts, createdAt);
    var row := NewRow(digest, rows, id, entry, ts, createdAt);
    if rows != [] {
      LinkedSnoc(rows, row);
    }
    assert row.blockHash == digest(row.blockTs, row.entry, row.prevHash, row.index);
  }

  lemma LogKeepsTimes(rows: seq<Row>, row: Row)
    requires AscendingTimes(rows) && NotAfter(rows, row.createdAt)
    ensures AscendingTimes(rows + [row]) && NotAfter(rows + [row], row.createdAt)
  {
    assert forall i :: 0 <= i < |rows| ==> rows[i] in rows;
  }

  lemma {:induction false} AllExpired(rows: seq<Row>, cutoff: real)
    requires forall i :: 0 <= i < |rows| ==> rows[i].createdAt < cutoff
    ensures Retained(rows, cutoff) == []
  {
    if rows != [] { AllExpired(rows[..|rows| - 1], cutoff); }
  }

  lemma LastExpiredCutsAll(rows: seq<Row>, cutoff: real)
    requires rows != [] && AscendingTimes(rows) && rows[|rows| - 1].createdAt < cutoff
    ensures Retained(rows, cutoff) == rows[|rows|..]
    ensures forall i :: 0 <= i < |rows| ==> rows[i].createdAt < cutoff
  {
    AllExpired(rows, cutoff);
  }

  lemma SuffixSnoc(rows: seq<Row>, k: nat)
    requires k < |rows|
    ensures rows[k..] == rows[..|rows| - 1][k..] + [rows[|rows| - 1]]
  {
  }

  /** With creation times in block order, a purge cuts off a prefix of the chain. */
  lemma {:induction false} PurgeCutsPrefix(rows: seq<Row>, cutoff: real) returns (k: nat)
    requires AscendingTimes(rows)
    ensures k <= |rows| && Retained(rows, cutoff) == rows[k..]
    ensures forall i :: 0 <= i < k ==> rows[i].createdAt < cutoff
    decreases |rows|, 1
  {
    if rows == [] {
      k := 0;
    } else if rows[|rows| - 1].createdAt < cutoff {
      k := |rows|;
      LastExpiredCutsAll(rows, cutoff);
    } else {
      k := CutBeforeLast(rows, cutoff);
    }
  }

  lemma {:induction false} CutBeforeLast(rows: seq<Row>, cutoff: real) returns (k: nat)
    requires rows != [] && AscendingTimes(rows) && rows[|rows| - 1].createdAt >= cutoff
    ensures k <= |rows| && Retained(rows, cutoff) == rows[k..]
    ensures forall i :: 0 <= i < k ==> rows[i].createdAt < cutoff
    decreases |rows|, 0
  {
    var n := |rows| - 1;
    var front := rows[..n];
    k := PurgeCutsPrefix(front, cutoff);
    SuffixSnoc(rows, k);
    forall i | 0 <= i < k ensures rows[i].createdAt < cutoff { assert rows[i] == front[i]; }
  }

  lemma PurgeKeepsChain(digest: Digest, rows: seq<Row>, cutoff: real, latest: real)
    requires Chain(digest, rows) && AscendingTimes(rows) && NotAfter(rows, latest)
    ensures var after := Retained(rows, cutoff);
      Chain(digest, after) && AscendingTimes(after) && NotAfter(after, latest)
  {
    var k := PurgeCutsPrefix(rows, cutoff);
    SuffixIsChain(digest, rows, k);
    SuffixKeepsTimes(rows, k, latest);
  }

  lemma SuffixIsChain(digest: Digest, rows: seq<Row>, k: nat)
    requires Chain(digest, rows) && k <= |rows|
    ensures Chain(digest, rows[k..])
  {
    var rest := rows[k..];
    assert forall i :: 0 <= i < |rest| ==> rest[i] == rows[k + i];
    assert forall r :: r in rest ==> r in rows;
  }

  lemma SuffixKeepsTimes(rows: seq<Row>, k: nat, latest: real)
    requires AscendingTimes(rows) && NotAfter(rows, latest) && k <= |rows|
    ensures AscendingTimes(rows[k..]) && NotAfter(rows[k..], latest)
  {
    assert forall r :: r in rows[k..] ==> r in rows;
  }

  lemma {:induction false} RunKeepsChain(digest: Digest, ops: seq<Op>, latest: real)
    requires MonotoneClock(ops)
    requires forall i :: 0 <= i < |ops| && ops[i].Log? ==> ops[i].createdAt <= latest
    ensures var rows := Run(digest, ops).rows; Chain(digest, rows) && AscendingTimes(rows) && NotAfter(rows, latest)
  {
    if ops != [] {
      var n := |ops| - 1;
      var before := Run(digest, ops[..n]);
      match ops[n]
      case Log(entry, ts, createdAt) =>
        RunKeepsChain(digest, ops[..n], createdAt);
        LogKeepsChain(digest, before.rows, before.nextId, entry, ts, createdAt);
        LogKeepsTimes(before.rows, NewRow(digest, before.rows, before.nextId, entry, ts, createdAt));
      case Purge(cutoff, dry) =>
        RunKeepsChain(digest, ops[..n], latest);
        PurgeKeepsChain(digest, before.rows, cutoff, latest);
    }
  }

  /** In every run of appends and completed purges under a monotone clock, the remaining rows have consecutive
      indices, their hashes recompute, and verification finds the chain valid. */
  lemma ChainSurvivesRetention(digest: Digest, ops: seq<Op>, latest: real)
    requires MonotoneClock(ops)
    requires forall i :: 0 <= i < |ops| && ops[i].Log? ==> ops[i].createdAt <= latest
    ensures var rows := Run(digest, ops).rows;
      Chain(digest, rows) && OrderByIndex(rows) == rows && Linked(OrderByIndex(rows))
  {
    RunKeepsChain(digest, ops, latest);
    OrderOfAscending(Run(digest, ops).rows);
  }

  // ---- What the table records ------------------------------------------------------------------------------------

  /** The row holds the entry of the operation, its times, and the digest of its data with the row's place in the
      chain. */
  ghost predicate Records(digest: Digest, row: Row, op: Op) {
    && op.Log? && row.entry == op.entry && row.blockTs == op.ts && row.createdAt == op.createdAt
    && row.blockHash == digest(op.ts, op.entry, row.prevHash, row.index)
  }

  /** Operation i logs an entry that no later purge of the run finds expired. */
  ghost predicate Survives(ops: seq<Op>, i: nat) {
    && i < |ops| && ops[i].Log?
    && forall j :: i < j < |ops| && ops[j].Purge? && !ops[j].dry ==> ops[i].createdAt >= ops[j].cutoff
  }

  ghost predicate Ascending(at: seq<nat>) { forall a, b :: 0 <= a < b < |at| ==> at[a] < at[b] }

  /** The rows record, in order, the operations at the given positions. */
  ghost predicate RecordsAt(digest: Digest, rows: seq<Row>, ops: seq<Op>, at: seq<nat>) {
    && |at| == |rows| && Ascending(at) && (forall k :: 0 <= k < |at| ==> at[k] < |ops|)
    && forall k :: 0 <= k < |rows| ==> Records(digest, rows[k], ops[at[k]])
  }

  lemma NewRowRecords(digest: Digest, rows: seq<Row>, id: nat, op: Op)
    requires op.Log?
    ensures Records(digest, NewRow(digest, rows, id, op.entry, op.ts, op.createdAt), op)
  {
  }

  lemma RecordsFront(digest: Digest, rows: seq<Row>, ops: seq<Op>, at: seq<nat>) returns (front: seq<nat>, last: nat)
    requires rows != [] && RecordsAt(digest, rows, ops, at)
    ensures at == front + [last] && RecordsAt(digest, rows[..|rows| - 1], ops, front)
    ensures last < |ops| && Records(digest, rows[|rows| - 1], ops[last])
    ensures forall i :: i in front ==> i < last
  {
    front, last := at[..|rows| - 1], at[|rows| - 1];
  }

  lemma RecordsSnoc(digest: Digest, rows: seq<Row>, ops: seq<Op>, at: seq<nat>, row: Row, i: nat)
    requires RecordsAt(digest, rows, ops, at) && i < |ops| && Records(digest, row, ops[i])
    requires forall k :: k in at ==> k < i
    ensures RecordsAt(digest, rows + [row], ops, at + [i])
  {
    assert forall a :: 0 <= a < |at| ==> at[a] in at;
  }

  ghost predicate KeptOp(ops: seq<Op>, i: nat, cutoff: real) {
    i < |ops| && ops[i].Log? && ops[i].createdAt >= cutoff
  }

  ghost predicate KeptOf(kept: seq<nat>, at: seq<nat>, ops: seq<Op>, cutoff: real) {
    forall i :: i in kept <==> i in at && KeptOp(ops, i, cutoff)
  }

  lemma KeptNext(kept: seq<nat>, front: seq<nat>, last: nat, ops: seq<Op>, cutoff: real)
    requires KeptOf(kept, front, ops, cutoff)
    ensures KeptOf(if KeptOp(ops, last, cutoff) then kept + [last] else kept, front + [last], ops, cutoff)
  {
  }

  ghost predicate KeepsRecords(digest: Digest, rows: seq<Row>, ops: seq<Op>, at: seq<nat>, cutoff: real,
                               kept: seq<nat>)
  {
    RecordsAt(digest, Retained(rows, cutoff), ops, kept) && KeptOf(kept, at, ops, cutoff)
  }

  lemma {:induction false} RetainedRecords(digest: Digest, rows: seq<Row>, ops: seq<Op>, at: seq<nat>, cutoff: real)
    requires RecordsAt(digest, rows, ops, at)
    ensures exists kept :: KeepsRecords(digest, rows, ops, at, cutoff, kept)
  {
    if rows == [] {
      assert KeepsRecords(digest, rows, ops, at, cutoff, []);
    } else {
      var n := |rows| - 1;
      var front, last := RecordsFront(digest, rows, ops, at);
      RetainedRecords(digest, rows[..n], ops, front, cutoff);
      var kept :| KeepsRecords(digest, rows[..n], ops, front, cutoff, kept);
      KeptNext(kept, front, last, ops, cutoff);
      if rows[n].createdAt >= cutoff {
        RecordsSnoc(digest, Retained(rows[..n], cutoff), ops, kept, rows[n], last);
        assert KeepsRecords(digest, rows, ops, at, cutoff, kept + [last]);
      } else {
        assert KeepsRecords(digest, rows, ops, at, cutoff, kept);
      }
    }
  }

  lemma RecordsInLonger(digest: Digest, rows: seq<Row>, ops: seq<Op>, n: nat, at: seq<nat>)
    requires n <= |ops| && RecordsAt(digest, rows, ops[..n], at)
    ensures RecordsAt(digest, rows, ops, at) && forall i :: i in at ==> i < n
  {
    assert forall k :: 0 <= k < |at| ==> ops[..n][at[k]] == ops[at[k]];
  }

  ghost predicate AllSurvivors(ops: seq<Op>, at: seq<nat>) { forall i :: i in at <==> Survives(ops, i) }

  lemma LogRecords(digest: Digest, ops: seq<Op>, at: seq<nat>)
    requires ops != [] && ops[|ops| - 1].Log? && AllSurvivors(ops[..|ops| - 1], at)
    requires RecordsAt(digest, Run(digest, ops[..|ops| - 1]).rows, ops[..|ops| - 1], at)
    ensures RecordsAt(digest, Run(digest, ops).rows, ops, at + [|ops| - 1]) && AllSurvivors(ops, at + [|ops| - 1])
  {
    var n := |ops| - 1;
    var s, op := Run(digest, ops[..n]), ops[n];
    NewRowRecords(digest, s.rows, s.nextId, op);
    RecordsInLonger(digest, s.rows, ops, n, at);
    RecordsSnoc(digest, s.rows, ops, at, NewRow(digest, s.rows, s.nextId, op.entry, op.ts, op.createdAt), n);
    SurvivesLog(ops);
  }

  /** The table records exactly the surviving operations, whose positions are given. */
  ghost predicate RecordsSurvivors(digest: Digest, ops: seq<Op>, at: seq<nat>) {
    RecordsAt(digest, Run(digest, ops).rows, ops, at) && AllSurvivors(ops, at)
  }

  lemma PurgeRecords(digest: Digest, ops: seq<Op>, at: seq<nat>)
    requires ops != [] && ops[|ops| - 1].Purge? && RecordsSurvivors(digest, ops[..|ops| - 1], at)
    ensures exists kept :: RecordsSurvivors(digest, ops, kept)
  {
    var n := |ops| - 1;
    var s, op := Run(digest, ops[..n]), ops[n];
    RecordsInLonger(digest, s.rows, ops, n, at);
    SurvivesPurge(ops);
    if op.dry {
      assert RecordsSurvivors(digest, ops, at);
    } else {
      RetainedRecords(digest, s.rows, ops, at, op.cutoff);
      var kept :| KeepsRecords(digest, s.rows, ops, at, op.cutoff, kept);
      assert RecordsSurvivors(digest, ops, kept);
    }
  }

  /** In every run of appends and purges the table records, in order and unaltered, exactly the logged entries that
      no later purge found expired. */
  lemma {:induction false} RunRecords(digest: Digest, ops: seq<Op>)
    ensures exists at :: RecordsSurvivors(digest, ops, at)
  {
    if ops == [] {
      assert RecordsSurvivors(digest, ops, []);
    } else {
      var n := |ops| - 1;
      RunRecords(digest, ops[..n]);
      var at :| RecordsSurvivors(digest, ops[..n], at);
      if ops[n].Log? {
        LogRecords(digest, ops, at);
        assert RecordsSurvivors(digest, ops, at + [n]);
      } else {
        PurgeRecords(digest, ops, at);
      }
    }
  }

  lemma SurvivesLog(ops: seq<Op>)
    requires ops != [] && ops[|ops| - 1].Log?
    ensures forall i: nat :: Survives(ops, i) <==> Survives(ops[..|ops| - 1], i) || i == |ops| - 1
  {
    var n := |ops| - 1;
    assert forall j :: 0 <= j < n ==> ops[..n][j] == ops[j];
  }

  lemma SurvivesPurge(ops: seq<Op>)
    requires ops != [] && ops[|ops| - 1].Purge?
    ensures forall i: nat :: Survives(ops, i) <==>
      Survives(ops[..|ops| - 1], i) && (!ops[|ops| - 1].dry ==> ops[i].createdAt >= ops[|ops| - 1].cutoff)
  {
    var n := |ops| - 1;
    assert forall j :: 0 <= j < n ==> ops[..n][j] == ops[j];
  }

  // ---- Without the clock assumption ----------------------------------------------------------------------------

  /** The expired rows leave no hole between retained ones. */
  ghost predicate NoHole(rows: seq<Row>, cutoff: real) {
    forall i, j, k :: 0 <= i < j < k < |rows| && rows[i].createdAt >= cutoff && rows[k].createdAt >= cutoff
      ==> rows[j].createdAt >= cutoff
  }

  ghost predicate DistinctHashes(rows: seq<Row>) {
    forall i, j :: 0 <= i < j < |rows| ==> rows[i].blockHash != rows[j].blockHash
  }

  /** For creation times in any order: after a purge the links still verify exactly when the purge left no hole. */
  lemma {:induction false} PurgedLinksIff(rows: seq<Row>, cutoff: real)
    requires Linked(rows) && DistinctHashes(rows)
    ensures Linked(Retained(rows, cutoff)) <==> NoHole(rows, cutoff)
  {
    if rows != [] {
      var n := |rows| - 1;
      PurgedLinksIff(rows[..n], cutoff);
      if rows[n].createdAt < cutoff {
        LastExpired(rows, cutoff);
      } else {
        LastRetained(rows, cutoff);
      }
    }
  }

  lemma LastExpired(rows: seq<Row>, cutoff: real)
    requires rows != [] && rows[|rows| - 1].createdAt < cutoff
    ensures var n := |rows| - 1;
      && Retained(rows, cutoff) == Retained(rows[..n], cutoff)
      && (NoHole(rows, cutoff) <==> NoHole(rows[..n], cutoff))
  {
    var n := |rows| - 1;
    var front := rows[..n];
    assert forall i :: 0 <= i < n ==> front[i] == rows[i];
    forall i, j, k | 0 <= i < j < k < |rows| && rows[i].createdAt >= cutoff && rows[k].createdAt >= cutoff
      ensures NoHole(front, cutoff) ==> rows[j].createdAt >= cutoff
    {
      assert k < n && front[i] == rows[i] && front[j] == rows[j] && front[k] == rows[k];
    }
  }

  /** The last retained row of a table, by its position. */
  lemma {:induction false} LastOfRetained(rows: seq<Row>, cutoff: real) returns (m: nat)
    requires Retained(rows, cutoff) != []
    ensures m < |rows| && rows[m].createdAt >= cutoff
    ensures var kept := Retained(rows, cutoff); kept[|kept| - 1] == rows[m]
    ensures forall j :: m < j < |rows| ==> rows[j].createdAt < cutoff
  {
    var n := |rows| - 1;
    if rows[n].createdAt >= cutoff {
      m := n;
    } else {
      m := LastOfRetained(rows[..n], cutoff);
      assert forall j :: 0 <= j < n ==> rows[..n][j] == rows[j];
    }
  }

  lemma LastRetained(rows: seq<Row>, cutoff: real)
    requires rows != [] && rows[|rows| - 1].createdAt >= cutoff
    requires Linked(rows) && DistinctHashes(rows)
    requires Linked(Retained(rows[..|rows| - 1], cutoff)) <==> NoHole(rows[..|rows| - 1], cutoff)
    ensures Linked(Retained(rows, cutoff)) <==> NoHole(rows, cutoff)
  {
    var n := |rows| - 1;
    var front := rows[..n];
    var kept := Retained(front, cutoff);
    if kept == [] {
      RetainedMembers(front, cutoff);
      forall i | 0 <= i < n ensures rows[i].createdAt < cutoff { assert front[i] == rows[i] && front[i] in front; }
    } else {
      var m := LastOfRetained(front, cutoff);
      LinkedSnoc(kept, rows[n]);
      assert front[m] == rows[m];
      assert rows[n].prevHash == rows[n - 1].blockHash;
      assert rows[n].prevHash == rows[m].blockHash <==> m == n - 1;
      HoleSnoc(rows, cutoff, m);
    }
  }

  lemma LinkedSnoc(kept: seq<Row>, row: Row)
    requires kept != []
    ensures Linked(kept + [row]) <==> Linked(kept) && row.prevHash == kept[|kept| - 1].blockHash
  {
    var all := kept + [row];
    assert forall i :: 0 <= i < |kept| ==> all[i] == kept[i];
    if Linked(all) { assert all[|kept|].prevHash == all[|kept| - 1].blockHash; }
  }

  lemma HoleSnoc(rows: seq<Row>, cutoff: real, m: nat)
    requires rows != [] && m < |rows| - 1 && rows[|rows| - 1].createdAt >= cutoff && rows[m].createdAt >= cutoff
    requires forall j :: m < j < |rows| - 1 ==> rows[j].createdAt < cutoff
    ensures NoHole(rows, cutoff) <==> NoHole(rows[..|rows| - 1], cutoff) && m == |rows| - 2
  {
    var n := |rows| - 1;
    var front := rows[..n];
    assert forall i :: 0 <= i < n ==> front[i] == rows[i];
    if NoHole(front, cutoff) && m == n - 1 {
      forall i, j, k | 0 <= i < j < k < |rows| && rows[i].createdAt >= cutoff && rows[k].createdAt >= cutoff
        ensures rows[j].createdAt >= cutoff
      {
        if k == n && j < m { assert front[j] == rows[j] && front[m] == rows[m] && front[i] == rows[i]; }
      }
    }
    if m < n - 1 {
      assert rows[m + 1].createdAt < cutoff;
      assert !NoHole(rows, cutoff);
    }
  }

  ghost predicate LogsOnly(ops: seq<Op>) {
    forall i :: 0 <= i < |ops| ==> ops[i].Log?
  }

  /** The rows are the blocks 0, 1, ... of the logged entries. */
  ghost predicate BlocksOf(rows: seq<Row>, ops: seq<Op>)
    requires LogsOnly(ops)
  {
    |rows| == |ops| &&
    forall i :: 0 <= i < |rows| ==>
      && rows[i].index == i && rows[i].createdAt == ops[i].createdAt
      && rows[i].entry == ops[i].entry && rows[i].blockTs == ops[i].ts
  }

  lemma NextBlock(rows: seq<Row>, ops: seq<Op>, row: Row)
    requires LogsOnly(ops) && ops != [] && BlocksOf(rows, ops[..|ops| - 1])
    requires row.index == |rows| && row.createdAt == ops[|ops| - 1].createdAt
    requires row.entry == ops[|ops| - 1].entry && row.blockTs == ops[|ops| - 1].ts
    ensures BlocksOf(rows + [row], ops)
  {
    var n := |ops| - 1;
    assert forall i :: 0 <= i < n ==> ops[..n][i] == ops[i];
  }

  /** Appends alone build one unbroken chain from block 0, whatever the creation times. */
  lemma {:induction false} LogsBuildChain(digest: Digest, ops: seq<Op>)
    requires LogsOnly(ops)
    ensures Chain(digest, Run(digest, ops).rows) && BlocksOf(Run(digest, ops).rows, ops)
  {
    if ops != [] {
      var n := |ops| - 1;
      var before := Run(digest, ops[..n]);
      LogsBuildChain(digest, ops[..n]);
      LogKeepsChain(digest, before.rows, before.nextId, ops[n].entry, ops[n].ts, ops[n].createdAt);
      LogFollows(digest, before.rows, before.nextId, ops[n].entry, ops[n].ts, ops[n].createdAt);
      NextBlock(before.rows, ops,
                NewRow(digest, before.rows, before.nextId, ops[n].entry, ops[n].ts, ops[n].createdAt));
    }
  }

  lemma {:induction false} RetainedAscends(rows: seq<Row>, cutoff: real)
    requires AscendingIndex(rows)
    ensures AscendingIndex(Retained(rows, cutoff))
  {
    if rows != [] {
      var n := |rows| - 1;
      RetainedAscends(rows[..n], cutoff);
      RetainedMembers(rows[..n], cutoff);
      var kept := Retained(rows[..n], cutoff);
      forall i | 0 <= i < |kept| ensures kept[i].index <= rows[n].index {
        assert kept[i] in kept;
        var k :| 0 <= k < n && rows[..n][k] == kept[i];
      }
    }
  }

  lemma RunThenPurge(digest: Digest, ops: seq<Op>, cutoff: real)
    ensures Run(digest, ops + [Purge(cutoff, false)]).rows == Retained(Run(digest, ops).rows, cutoff)
  {
    assert (ops + [Purge(cutoff, false)])[..|ops|] == ops;
  }

  lemma PurgedTableVerifiesIff(rows: seq<Row>, cutoff: real)
    requires AscendingIndex(rows) && Linked(rows) && DistinctHashes(rows)
    ensures Linked(OrderByIndex(Retained(rows, cutoff))) <==> NoHole(rows, cutoff)
  {
    RetainedAscends(rows, cutoff);
    OrderOfAscending(Retained(rows, cutoff));
    PurgedLinksIff(rows, cutoff);
  }

  /** No expired entry was logged between two retained ones. */
  ghost predicate NoHoleLogged(ops: seq<Op>, cutoff: real)
    requires LogsOnly(ops)
  {
    forall i, j, k :: 0 <= i < j < k < |ops| && ops[i].createdAt >= cutoff && ops[k].createdAt >= cutoff
      ==> ops[j].createdAt >= cutoff
  }

  lemma HolesOfLogs(rows: seq<Row>, ops: seq<Op>, cutoff: real)
    requires LogsOnly(ops) && BlocksOf(rows, ops)
    ensures NoHole(rows, cutoff) <==> NoHoleLogged(ops, cutoff)
    ensures AscendingIndex(rows)
  {
  }

  /** After any appends, with creation times in any order, and a purge: verification succeeds exactly when no
      expired entry was logged between two retained ones. */
  lemma PurgeVerifiesIff(digest: Digest, ops: seq<Op>, cutoff: real)
    requires LogsOnly(ops) && DistinctHashes(Run(digest, ops).rows)
    ensures Linked(OrderByIndex(Run(digest, ops + [Purge(cutoff, false)]).rows)) <==> NoHoleLogged(ops, cutoff)
  {
    LogsBuildChain(digest, ops);
    HolesOfLogs(Run(digest, ops).rows, ops, cutoff);
    PurgedTableVerifiesIff(Run(digest, ops).rows, cutoff);
    RunThenPurge(digest, ops, cutoff);
  }

  // ---- Any run, whatever the clock does -------------------------------------------------------------------------

  /** No table that a step of the run starts from holds two rows with the same hash. */
  ghost predicate NoCollision(digest: Digest, ops: seq<Op>) {
    forall i :: 0 <= i < |ops| ==> DistinctHashes(Run(digest, ops[..i]).rows)
  }

  /** later has the greater index, and names the hash of earlier exactly when its index is one more. */
  ghost predicate NamesIfNext(earlier: Row, later: Row) {
    earlier.index < later.index && (later.prevHash == earlier.blockHash <==> later.index == earlier.index + 1)
  }

  ghost predicate NamesOnlyNext(rows: seq<Row>) {
    forall i, j :: 0 <= i < j < |rows| ==> NamesIfNext(rows[i], rows[j])
  }

  ghost predicate Consecutive(rows: seq<Row>) {
    forall i :: 0 < i < |rows| ==> rows[i].index == rows[i - 1].index + 1
  }

  lemma LogNamesTip(digest: Digest, rows: seq<Row>, id: nat, entry: Entry, ts: real, createdAt: real)
    requires NamesOnlyNext(rows) && DistinctHashes(rows)
    ensures NamesOnlyNext(rows + [NewRow(digest, rows, id, entry, ts, createdAt)])
  {
    IndicesAscend(rows);
    if rows != [] {
      FollowsTip(digest, rows, id, entry, ts, createdAt);
    }
    AppendNamesTip(rows, NewRow(digest, rows, id, entry, ts, createdAt));
  }

  lemma AppendNamesTip(rows: seq<Row>, row: Row)
    requires NamesOnlyNext(rows) && DistinctHashes(rows)
    requires rows != [] ==> row.index == rows[|rows| - 1].index + 1 && row.prevHash == rows[|rows| - 1].blockHash
    ensures NamesOnlyNext(rows + [row])
  {
    var n := |rows|;
    forall i | 0 <= i < n ensures NamesIfNext(rows[i], row) {
      if i < n - 1 {
        assert NamesIfNext(rows[i], rows[n - 1]) && rows[i].blockHash != rows[n - 1].blockHash;
      }
    }
  }

  lemma IndicesAscend(rows: seq<Row>)
    requires NamesOnlyNext(rows)
    ensures AscendingIndex(rows)
  {
    forall i, j | 0 <= i < j < |rows| ensures rows[i].index < rows[j].index {
      assert NamesIfNext(rows[i], rows[j]);
    }
  }

  lemma {:induction false} PurgeNamesOnlyNext(rows: seq<Row>, cutoff: real)
    requires NamesOnlyNext(rows)
    ensures NamesOnlyNext(Retained(rows, cutoff))
  {
    if rows != [] {
      var n := |rows| - 1;
      PurgeNamesOnlyNext(rows[..n], cutoff);
      RetainedMembers(rows[..n], cutoff);
      var kept := Retained(rows[..n], cutoff);
      forall i | 0 <= i < |kept| ensures NamesIfNext(kept[i], rows[n]) {
        assert kept[i] in kept;
        var k :| 0 <= k < n && rows[..n][k] == kept[i];
        assert NamesIfNext(rows[k], rows[n]);
      }
    }
  }

  lemma {:induction false} RunNamesOnlyNext(digest: Digest, ops: seq<Op>)
    requires NoCollision(digest, ops)
    ensures NamesOnlyNext(Run(digest, ops).rows)
  {
    if ops != [] {
      var n := |ops| - 1;
      forall i | 0 <= i < n ensures DistinctHashes(Run(digest, ops[..n][..i]).rows) {
        assert ops[..n][..i] == ops[..i];
      }
      RunNamesOnlyNext(digest, ops[..n]);
      var before := Run(digest, ops[..n]);
      match ops[n]
      case Log(entry, ts, createdAt) => LogNamesTip(digest, before.rows, before.nextId, entry, ts, createdAt);
      case Purge(cutoff, dry) => PurgeNamesOnlyNext(before.rows, cutoff);
    }
  }

  lemma NamesOnlyNextLinkedIff(rows: seq<Row>)
    requires NamesOnlyNext(rows)
    ensures Linked(OrderByIndex(rows)) <==> Consecutive(rows)
  {
    IndicesAscend(rows);
    OrderOfAscending(rows);
    forall i | 0 < i < |rows|
      ensures rows[i].prevHash == rows[i - 1].blockHash <==> rows[i].index == rows[i - 1].index + 1
    {
      assert NamesIfNext(rows[i - 1], rows[i]);
    }
  }

  /** In every run of appends and purges in any order, with creation times in any order: verification succeeds
      exactly when the indices of the remaining rows have no gap. */
  lemma RunVerifiesIff(digest: Digest, ops: seq<Op>)
    requires NoCollision(digest, ops)
    ensures Linked(OrderByIndex(Run(digest, ops).rows)) <==> Consecutive(Run(digest, ops).rows)
  {
    RunNamesOnlyNext(digest, ops);
    NamesOnlyNextLinkedIff(Run(digest, ops).rows);
  }

  /** One more purge of a table that verifies, after any run: it verifies again exactly when no row about to be
      deleted lies between two retained ones. */
  lemma NextPurgeVerifiesIff(digest: Digest, ops: seq<Op>, cutoff: real)
    requires NoCollision(digest, ops + [Purge(cutoff, false)]) && Linked(OrderByIndex(Run(digest, ops).rows))
    ensures Linked(OrderByIndex(Run(digest, ops + [Purge(cutoff, false)]).rows))
       <==> NoHole(Run(digest, ops).rows, cutoff)
  {
    var all, rows := ops + [Purge(cutoff, false)], Run(digest, ops).rows;
    forall i | 0 <= i <= |ops| ensures DistinctHashes(Run(digest, ops[..i]).rows) {
      assert all[..i] == ops[..i];
    }
    assert ops[..|ops|] == ops;
    RunNamesOnlyNext(digest, ops);
    IndicesAscend(rows);
    OrderOfAscending(rows);
    PurgedTableVerifiesIff(rows, cutoff);
    RunThenPurge(digest, ops, cutoff);
  }

  /** A digest without collisions between blocks of different index. */
  function IndexDigest(): Digest {
    (ts: real, e: Entry, prev: string, index: int) => seq(if index < 0 then 0 else index, _ => 'x')
  }

  lemma IndexDigestDistinct(ops: seq<Op>)
    requires LogsOnly(ops)
    ensures DistinctHashes(Run(IndexDigest(), ops).rows)
  {
    LogsBuildChain(IndexDigest(), ops);
    var rows := Run(IndexDigest(), ops).rows;
    forall i | 0 <= i < |rows| ensures |rows[i].blockHash| == i { assert rows[i] in rows; }
  }

  /** A concrete run in which the clock steps back once: the purge takes the middle block out, and verification
      fails. */
  lemma ClockStepBreaksChain(e: Entry)
    ensures var ops := [Log(e, 0.0, 10.0), Log(e, 0.0, 0.0), Log(e, 0.0, 10.0)];
      !Linked(OrderByIndex(Run(IndexDigest(), ops + [Purge(5.0, false)]).rows))
  {
    var ops := [Log(e, 0.0, 10.0), Log(e, 0.0, 0.0), Log(e, 0.0, 10.0)];
    IndexDigestDistinct(ops);
    PurgeVerifiesIff(IndexDigest(), ops, 5.0);
    assert ops[1].createdAt < 5.0 <= ops[0].createdAt <= ops[2].createdAt;
  }

  /** Three appends, the middle one dated before the first cutoff and only the last one after the second. */
  ghost predicate OldMiddle(ops: seq<Op>, first: real, second: real) {
    && |ops| == 3 && LogsOnly(ops)
    && ops[1].createdAt < first <= ops[0].createdAt < second <= ops[2].createdAt && first <= ops[2].createdAt
  }

  lemma OldMiddleBreaks(ops: seq<Op>, first: real, second: real)
    requires OldMiddle(ops, first, second)
    ensures !Linked(OrderByIndex(Run(IndexDigest(), ops + [Purge(first, false)]).rows))
  {
    IndexDigestDistinct(ops);
    PurgeVerifiesIff(IndexDigest(), ops, first);
  }

  lemma OldMiddleRepaired(ops: seq<Op>, first: real, second: real)
    requires OldMiddle(ops, first, second)
    ensures |Run(IndexDigest(), ops + [Purge(first, false)] + [Purge(second, false)]).rows| == 1
  {
    LogsBuildChain(IndexDigest(), ops);
    var rows := Run(IndexDigest(), ops).rows;
    assert rows == [rows[0], rows[1], rows[2]];
    TwoCutoffs(rows[0], rows[1], rows[2], first, second);
    RunThenPurge(IndexDigest(), ops, first);
    RunThenPurge(IndexDigest(), ops + [Purge(first, false)], second);
  }

  /** A concrete run in which a purge breaks the chain and the next purge repairs it. */
  lemma NextPurgeRepairs(e: Entry)
    ensures var ops := [Log(e, 0.0, 10.0), Log(e, 0.0, 0.0), Log(e, 0.0, 20.0)];
      && !Linked(OrderByIndex(Run(IndexDigest(), ops + [Purge(5.0, false)]).rows))
      && Run(IndexDigest(), ops + [Purge(5.0, false)] + [Purge(15.0, false)]).rows != []
      && Linked(OrderByIndex(Run(IndexDigest(), ops + [Purge(5.0, false)] + [Purge(15.0, false)]).rows))
  {
    var ops := [Log(e, 0.0, 10.0), Log(e, 0.0, 0.0), Log(e, 0.0, 20.0)];
    OldMiddleBreaks(ops, 5.0, 15.0);
    OldMiddleRepaired(ops, 5.0, 15.0);
    OrderOfAscending(Run(IndexDigest(), ops + [Purge(5.0, false)] + [Purge(15.0, false)]).rows);
  }

  lemma TwoCutoffs(a: Row, b: Row, c: Row, first: real, second: real)
    requires b.createdAt < first <= a.createdAt < second <= c.createdAt && first <= c.createdAt
    ensures Retained(Retained([a, b, c], first), second) == [c]
  {
    assert [a, b, c][..2] == [a, b] && [a, b][..1] == [a] && [a][..0] == [];
    assert Retained([a], first) == [a] && Retained([a, b], first) == [a] && Retained([a, b, c], first) == [a, c];
    assert [a, c][..1] == [a];
    assert Retained([a], second) == [];
  }

  // ---- Age classes -----------------------------------------------------------------------------------------------

  const SECONDS_PER_DAY: real := 86400.0

  datatype AgeClass = Active | Warning | Expired

  /** Times in seconds; days is at least 1 as the configuration enforces. */
  function ClassifyAge(ts: real, now: real, days: nat): AgeClass {
    var age := (now - ts) / SECONDS_PER_DAY;
    if age > days as real then Expired else if age > days as real - 30.0 then Warning else Active
  }

  function Cutoff(now: real, days: nat): real {
    now - days as real * SECONDS_PER_DAY
  }

  /** The classes by creation time: expired when older than the retention period, and warning in the last thirty days
      of it. */
  lemma AgeClassIff(ts: real, now: real, days: nat)
    ensures ClassifyAge(ts, now, days) == Expired <==> ts < now - days as real * 86400.0
    ensures ClassifyAge(ts, now, days) == Warning <==>
      now - days as real * 86400.0 <= ts < now - (days as real - 30.0) * 86400.0
  {
    var age := (now - ts) / SECONDS_PER_DAY;
    assert age * 86400.0 == now - ts;
  }

  /** The dashboard's "expired" class is exactly what a purge at the same moment deletes. */
  lemma ExpiredIsPurged(row: Row, now: real, days: nat)
    ensures ClassifyAge(row.createdAt, now, days) == Expired <==> Retained([row], Cutoff(now, days)) == []
  {
    var age := (now - row.createdAt) / SECONDS_PER_DAY;
    assert age * SECONDS_PER_DAY == now - row.createdAt;
    assert [row][..0] == [];
    assert Retained([], Cutoff(now, days)) == [];
  }
}
