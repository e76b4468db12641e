/** The one-time FIDO2 challenge store: Redis first, process memory when Redis is away.  A Redis command that raises
    has no effect. */
module ChallengeStore {
  import opened Options

  datatype Scope = Register | Auth | Login

  type Bytes = seq<bv8>

  /** A stored challenge.  origin numbers the stores of a run; the program does not keep it. */
  datatype Entry = Entry(value: Bytes, expiresAt: real, origin: nat)

  /** How Redis answers: no client, a command that raises, or a command that works. */
  datatype Link = Unavailable | Raising | Working

  datatype Store = Store(redis: map<string, Entry>, local: map<string, Entry>, next: nat)

  const EMPTY: Store := Store(map[], map[], 0)

  function ScopeName(scope: Scope): string {
    match scope
    case Register => "register"
    case Auth => "auth"
    case Login => "login"
  }

  function Key(scope: Scope, key: string): string {
    "fido:ch:" + ScopeName(scope) + ":" + key
  }

  /** Different scopes or keys never share a slot. */
  lemma KeyInjective(scope: Scope, key: string, scope': Scope, key': string)
    ensures Key(scope, key) == Key(scope', key') <==> scope == scope' && key == key'
  {
    var k, k' := Key(scope, key), Key(scope', key');
    var n, n' := |ScopeName(scope)|, |ScopeName(scope')|;
    assert k[8] == ScopeName(scope)[0] && k'[8] == ScopeName(scope')[0];
    assert k[9 + n..] == key && k'[9 + n'..] == key';
  }

  // ---- The operations as functions --------------------------------------------------------------------

  /** Redis refuses a non-positive expiry, which counts as a raising command. */
  predicate StoresInRedis(link: Link, ttl: int) { link == Working && ttl > 0 }

  function SetAt(s: Store, k: string, value: Bytes, expiresAt: real, inRedis: bool): Store {
    var entry := Entry(value, expiresAt, s.next);
    if inRedis then s.(redis := s.redis[k := entry], next := s.next + 1)
    else s.(local := s.local[k := entry], next := s.next + 1)
  }

  function SetChallenge(s: Store, scope: Scope, key: string, value: Bytes, ttl: int, now: real, link: Link): Store {
    SetAt(s, Key(scope, key), value, now + ttl as real, StoresInRedis(link, ttl))
  }

  predicate Live(m: map<string, Entry>, k: string, now: real) {
    k in m && now <= m[k].expiresAt
  }

  /** Redis can answer with a challenge: an unexpired one that is not empty. */
  predicate RedisHit(s: Store, k: string, now: real, link: Link) {
    link == Working && Live(s.redis, k, now) && s.redis[k].value != []
  }

  function PopAt(s: Store, k: string, now: real, link: Link): (Store, Option<Entry>) {
    var s1 := if link == Working then s.(redis := s.redis - {k}) else s;
    if RedisHit(s, k, now, link) then (s1, Some(s.redis[k]))
    else (s1.(local := s.local - {k}), if Live(s.local, k, now) then Some(s.local[k]) else None)
  }

  function PopChallenge(s: Store, scope: Scope, key: string, now: real, link: Link): (Store, Option<Entry>) {
    PopAt(s, Key(scope, key), now, link)
  }

  function ClearExpired(s: Store, now: real): Store {
    s.(local := map k | k in s.local && s.local[k].expiresAt >= now :: s.local[k])
  }

  function ExpiredKeys(s: Store, now: real): set<string> { set k | k in s.local && s.local[k].expiresAt < now }

  /** After clearing, no local entry that expired before now remains, every other one does, Redis and its entries are
      untouched, and the number of entries that went is that of the expired ones. */
  lemma ClearExact(s: Store, now: real)
    ensures var s' := ClearExpired(s, now);
      && s'.redis == s.redis && s'.next == s.next && s'.local.Keys == s.local.Keys - ExpiredKeys(s, now)
      && (forall k :: k in s.local && s.local[k].expiresAt >= now ==> k in s'.local && s'.local[k] == s.local[k])
      && (forall k :: k in s'.local ==> s'.local[k].expiresAt >= now)
      && |s.local| - |s'.local| == |ExpiredKeys(s, now)|
  {
    var s' := ClearExpired(s, now);
    assert s.local.Keys == s'.local.Keys + ExpiredKeys(s, now);
    assert |s.local.Keys| == |s.local| && |s'.local.Keys| == |s'.local|;
  }

  class Challenges {
    var redis: map<string, Entry>
    var local: map<string, Entry>
    var next: nat

    function Contents(): Store
      reads this
    {
      Store(redis, local, next)
    }

    constructor ()
      ensures Contents() == EMPTY
    {
      redis, local, next := map[], map[], 0;
    }

    method Set(scope: Scope, key: string, challenge: Bytes, ttl: int, now: real, link: Link)
      modifies this
      ensures Contents() == SetChallenge(old(Contents()), scope, key, challenge, ttl, now, link)
    {
      var fullKey := Key(scope, key);
      var entry := Entry(challenge, now + ttl as real, next);
      next := next + 1;
      if link != Unavailable {
        if link == Working && ttl > 0 {
          redis := redis[fullKey := entry];
          return;
        }
      }
      local := local[fullKey := entry];
    }

    method Pop(scope: Scope, key: string, now: real, link: Link) returns (r: Option<Entry>)
      modifies this
      ensures (Contents(), r) == PopChallenge(old(Contents()), scope, key, now, link)
    {
      var fullKey := Key(scope, key);
      if link == Working {
        var encoded := if fullKey in redis && now <= redis[fullKey].expiresAt then Some(redis[fullKey]) else None;
        redis := redis - {fullKey};
        if encoded.Some? && encoded.value.value != [] {
          return encoded;
        }
      }
      if fullKey !in local {
        assert local - {fullKey} == local;
        return None;
      }
      var entry := local[fullKey];
      local := local - {fullKey};
      if now > entry.expiresAt {
        return None;
      }
      return Some(entry);
    }

    method ClearExpiredLocal(now: real) returns (removed: nat)
      modifies this`local
      ensures Contents() == ClearExpired(old(Contents()), now)
      ensures removed == |ExpiredKeys(old(Contents()), now)|
    {
      var keys := local.Keys;
      removed := 0;
      while keys != {}
        invariant keys <= old(local).Keys
        invariant local == map k | k in old(local) && (k in keys || old(local)[k].expiresAt >= now) :: old(local)[k]
        invariant removed + |local| == |old(local)|
        decreases keys
      {
        var k :| k in keys;
        keys := keys - {k};
        if local[k].expiresAt < now {
          assert (local - {k}).Keys == local.Keys - {k};
          assert |(local - {k}).Keys| == |local.Keys| - 1;
          local := local - {k};
          removed := removed + 1;
        }
      }
      ClearExact(old(Contents()), now);
    }
  }

  // ---- Whole runs ------------------------------------------------------------------------------------------

  datatype Op = Put(scope: Scope, key: string, value: Bytes, ttl: int, now: real, link: Link)
              | Take(scope: Scope, key: string, now: real, link: Link)
              | Clear(now: real)

  ghost function Step(s: Store, op: Op): (Store, Option<Entry>) {
    match op
    case Put(scope, key, value, ttl, now, link) => (SetChallenge(s, scope, key, value, ttl, now, link), None)
    case Take(scope, key, now, link) => PopChallenge(s, scope, key, now, link)
    case Clear(now) => (ClearExpired(s, now), None)
  }

  ghost function Run(ops: seq<Op>): Store {
    if ops == [] then EMPTY else Step(Run(ops[..|ops| - 1]), ops[|ops| - 1]).0
  }

  /** What operation i of the run hands to its caller. */
  ghost function Returned(ops: seq<Op>, i: nat): Option<Entry>
    requires i < |ops|
  {
    Step(Run(ops[..i]), ops[i]).1
  }

  lemma RunSnoc(ops: seq<Op>, op: Op)
    ensures Run(ops + [op]) == Step(Run(ops), op).0 && Returned(ops + [op], |ops|) == Step(Run(ops), op).1
  {
    assert (ops + [op])[..|ops|] == ops;
  }

  /** The number of challenges stored so far. */
  ghost function Puts(ops: seq<Op>): nat {
    if ops == [] then 0 else Puts(ops[..|ops| - 1]) + if ops[|ops| - 1].Put? then 1 else 0
  }

  ghost function Held(s: Store): set<nat> {
    (set k | k in s.redis :: s.redis[k].origin) + (set k | k in s.local :: s.local[k].origin)
  }

  /** Every held entry has an origin of its own. */
  ghost predicate OwnOrigins(s: Store) {
    && (forall o :: o in Held(s) ==> o < s.next)
    && (forall k, k' :: k in s.redis && k' in s.redis && k != k' ==> s.redis[k].origin != s.redis[k'].origin)
    && (forall k, k' :: k in s.local && k' in s.local && k != k' ==> s.local[k].origin != s.local[k'].origin)
    && (forall k, k' :: k in s.redis && k' in s.local ==> s.redis[k].origin != s.local[k'].origin)
  }

  /** The step from s to s' keeps the origins apart, and the only new one is the next. */
  ghost predicate KeepsOrigins(s: Store, s': Store, put: bool) {
    && OwnOrigins(s') && s'.next == s.next + (if put then 1 else 0)
    && forall o :: o in Held(s') ==> o in Held(s) || (put && o == s.next)
  }

  lemma RedisKeepsOrigins(s: Store, k: string, e: Entry)
    requires OwnOrigins(s) && e.origin == s.next
    ensures KeepsOrigins(s, s.(redis := s.redis[k := e], next := s.next + 1), true)
  {
    forall j | j in s.redis ensures s.redis[j].origin in Held(s) {}
    forall j | j in s.local ensures s.local[j].origin in Held(s) {}
  }

  lemma LocalKeepsOrigins(s: Store, k: string, e: Entry)
    requires OwnOrigins(s) && e.origin == s.next
    ensures KeepsOrigins(s, s.(local := s.local[k := e], next := s.next + 1), true)
  {
    forall j | j in s.redis ensures s.redis[j].origin in Held(s) {}
    forall j | j in s.local ensures s.local[j].origin in Held(s) {}
  }

  /** Losing entries loses nothing else. */
  lemma FewerKeepsOrigins(s: Store, s': Store)
    requires OwnOrigins(s) && s'.next == s.next
    requires forall k :: k in s'.redis ==> k in s.redis && s'.redis[k] == s.redis[k]
    requires forall k :: k in s'.local ==> k in s.local && s'.local[k] == s.local[k]
    ensures KeepsOrigins(s, s', false)
  {
    assert Held(s') <= Held(s);
  }

  lemma TakeKeepsOrigins(s: Store, k: string, now: real, link: Link)
    requires OwnOrigins(s)
    ensures KeepsOrigins(s, PopAt(s, k, now, link).0, false)
  {
    FewerKeepsOrigins(s, PopAt(s, k, now, link).0);
  }

  lemma TakeRemoves(s: Store, k: string, now: real, link: Link)
    requires OwnOrigins(s) && PopAt(s, k, now, link).1.Some?
    ensures var (s', r) := PopAt(s, k, now, link); r.value.origin in Held(s) && r.value.origin !in Held(s')
  {
  }

  lemma ClearKeepsOrigins(s: Store, now: real)
    requires OwnOrigins(s)
    ensures KeepsOrigins(s, ClearExpired(s, now), false)
  {
    FewerKeepsOrigins(s, ClearExpired(s, now));
  }

  lemma StepKeepsOrigins(s: Store, op: Op)
    requires OwnOrigins(s)
    ensures KeepsOrigins(s, Step(s, op).0, op.Put?)
  {
    match op
    case Put(scope, key, value, ttl, now, link) =>
      var entry := Entry(value, now + ttl as real, s.next);
      if StoresInRedis(link, ttl) {
        RedisKeepsOrigins(s, Key(scope, key), entry);
      } else {
        LocalKeepsOrigins(s, Key(scope, key), entry);
      }
    case Take(scope, key, now, link) => TakeKeepsOrigins(s, Key(scope, key), now, link);
    case Clear(now) => ClearKeepsOrigins(s, now);
  }

  lemma {:induction false} RunKeepsOrigins(ops: seq<Op>)
    ensures OwnOrigins(Run(ops))
  {
    if ops != [] {
      var n := |ops| - 1;
      RunKeepsOrigins(ops[..n]);
      StepKeepsOrigins(Run(ops[..n]), ops[n]);
    }
  }

  lemma {:induction false} RunCountsPuts(ops: seq<Op>)
    ensures Run(ops).next == Puts(ops)
  {
    if ops != [] {
      RunCountsPuts(ops[..|ops| - 1]);
    }
  }

  /** The origin has been used, and no entry has it. */
  ghost predicate Gone(s: Store, origin: nat) { origin !in Held(s) && origin < s.next }

  /** A used origin does not come back. */
  lemma GoneStaysGone(s: Store, op: Op, origin: nat)
    requires OwnOrigins(s) && Gone(s, origin)
    ensures Gone(Step(s, op).0, origin)
  {
    StepKeepsOrigins(s, op);
  }

  lemma TakeForgets(s: Store, op: Op)
    requires OwnOrigins(s) && Step(s, op).1.Some?
    ensures Gone(Step(s, op).0, Step(s, op).1.value.origin)
  {
    TakeRemoves(s, Key(op.scope, op.key), op.now, op.link);
  }

  lemma RunUpTo(ops: seq<Op>, n: nat)
    requires n < |ops|
    ensures Run(ops[..n + 1]) == Step(Run(ops[..n]), ops[n]).0
  {
    assert ops[..n + 1] == ops[..n] + [ops[n]];
    RunSnoc(ops[..n], ops[n]);
  }

  lemma {:induction false} GoneFrom(ops: seq<Op>, m: nat, n: nat, origin: nat)
    requires m <= n <= |ops| && Gone(Run(ops[..m]), origin)
    ensures Gone(Run(ops[..n]), origin)
  {
    if m < n {
      GoneFrom(ops, m, n - 1, origin);
      RunKeepsOrigins(ops[..n - 1]);
      RunUpTo(ops, n - 1);
      GoneStaysGone(Run(ops[..n - 1]), ops[n - 1], origin);
    }
  }

  lemma TakenIsGoneBy(ops: seq<Op>, i: nat, n: nat)
    requires i < n <= |ops| && Returned(ops, i).Some?
    ensures Gone(Run(ops[..n]), Returned(ops, i).value.origin)
  {
    RunKeepsOrigins(ops[..i]);
    TakeForgets(Run(ops[..i]), ops[i]);
    RunUpTo(ops, i);
    GoneFrom(ops, i + 1, n, Returned(ops, i).value.origin);
  }

  /** A challenge that has been taken is not in the store any more, and cannot come back. */
  lemma TakenIsGone(ops: seq<Op>, i: nat)
    requires i < |ops| && Returned(ops, i).Some?
    ensures Gone(Run(ops), Returned(ops, i).value.origin)
  {
    TakenIsGoneBy(ops, i, |ops|);
    assert ops[..|ops|] == ops;
  }

  /** At most once: in every run, with Redis failing at any step, no two pops return the same stored challenge. */
  lemma AtMostOnce(ops: seq<Op>, i: nat, j: nat)
    requires i < j < |ops| && Returned(ops, i).Some? && Returned(ops, j).Some?
    ensures Returned(ops, i).value.origin != Returned(ops, j).value.origin
  {
    TakenIsGoneBy(ops, i, j);
    RunKeepsOrigins(ops[..j]);
    TakeRemoves(Run(ops[..j]), Key(ops[j].scope, ops[j].key), ops[j].now, ops[j].link);
  }

  // ---- Where a popped challenge comes from --------------------------------------------------------------------

  /** op stores e under k, as the n-th store of its run. */
  ghost predicate StoreOf(op: Op, n: nat, k: string, e: Entry) {
    && op.Put? && n == e.origin && Key(op.scope, op.key) == k && op.value == e.value
    && e.expiresAt == op.now + op.ttl as real
  }

  /** The entry under k was stored by operation p of the run, under that key and with that expiry. */
  ghost predicate StoredBy(ops: seq<Op>, p: nat, k: string, e: Entry) {
    p < |ops| && StoreOf(ops[p], Puts(ops[..p]), k, e)
  }

  ghost predicate Stored(ops: seq<Op>, k: string, e: Entry) {
    exists p: nat :: StoredBy(ops, p, k, e)
  }

  lemma StoredEarlier(ops: seq<Op>, k: string, e: Entry)
    requires ops != [] && Stored(ops[..|ops| - 1], k, e)
    ensures Stored(ops, k, e)
  {
    var n := |ops| - 1;
    var p: nat :| StoredBy(ops[..n], p, k, e);
    assert ops[..n][..p] == ops[..p];
    assert StoredBy(ops, p, k, e);
  }

  ghost predicate AllFrom(ops: seq<Op>, m: map<string, Entry>) {
    forall k :: k in m ==> Stored(ops, k, m[k])
  }

  lemma StillFrom(ops: seq<Op>, m: map<string, Entry>, m': map<string, Entry>)
    requires ops != [] && AllFrom(ops[..|ops| - 1], m)
    requires forall k :: k in m' ==> (k in m && m'[k] == m[k]) || StoredBy(ops, |ops| - 1, k, m'[k])
    ensures AllFrom(ops, m')
  {
    forall k | k in m' ensures Stored(ops, k, m'[k]) {
      if !StoredBy(ops, |ops| - 1, k, m'[k]) {
        StoredEarlier(ops, k, m[k]);
      }
    }
  }

  lemma StepStores(s: Store, op: Op)
    ensures var s' := Step(s, op).0;
      && (forall k :: k in s'.redis ==>
            (k in s.redis && s'.redis[k] == s.redis[k]) || StoreOf(op, s.next, k, s'.redis[k]))
      && (forall k :: k in s'.local ==>
            (k in s.local && s'.local[k] == s.local[k]) || StoreOf(op, s.next, k, s'.local[k]))
  {
  }

  lemma {:induction false} AllStored(ops: seq<Op>)
    ensures AllFrom(ops, Run(ops).redis) && AllFrom(ops, Run(ops).local)
  {
    if ops != [] {
      var n := |ops| - 1;
      AllStored(ops[..n]);
      RunCountsPuts(ops[..n]);
      StepStores(Run(ops[..n]), ops[n]);
      StillFrom(ops, Run(ops[..n]).redis, Run(ops).redis);
      StillFrom(ops, Run(ops[..n]).local, Run(ops).local);
    }
  }

  /** A popped challenge was stored earlier in the run under the same scope and key, with the same bytes, and its
      time to live has not run out. */
  lemma Provenance(ops: seq<Op>, j: nat) returns (p: nat)
    requires j < |ops| && Returned(ops, j).Some?
    ensures p < j && ops[p].Put? && Puts(ops[..p]) == Returned(ops, j).value.origin
    ensures ops[p].scope == ops[j].scope && ops[p].key == ops[j].key
    ensures ops[p].value == Returned(ops, j).value.value
    ensures ops[j].now <= ops[p].now + ops[p].ttl as real
  {
    AllStored(ops[..j]);
    var e, k := Returned(ops, j).value, Key(ops[j].scope, ops[j].key);
    assert Stored(ops[..j], k, e);
    p :| StoredBy(ops[..j], p, k, e);
    assert ops[..j][..p] == ops[..p];
    KeyInjective(ops[p].scope, ops[p].key, ops[j].scope, ops[j].key);
  }

  // ---- Clearing never shows --------------------------------------------------------------------------------------

  /** Two stores that differ at most in local entries already expired at time now. */
  ghost predicate Indistinguishable(s: Store, t: Store, now: real) {
    && s.redis == t.redis && s.next == t.next
    && (forall k :: Live(s.local, k, now) || Live(t.local, k, now) ==>
          k in s.local && k in t.local && s.local[k] == t.local[k])
  }

  lemma StepIndistinguishable(s: Store, t: Store, now: real, op: Op)
    requires Indistinguishable(s, t, now) && now <= op.now
    ensures Indistinguishable(Step(s, op).0, Step(t, op).0, op.now)
    ensures Step(s, op).1 == Step(t, op).1
  {
    if op.Take? {
      var k := Key(op.scope, op.key);
      assert Live(s.local, k, op.now) ==> Live(s.local, k, now);
      assert Live(t.local, k, op.now) ==> Live(t.local, k, now);
    }
    var s', t' := Step(s, op).0, Step(t, op).0;
    forall k | Live(s'.local, k, op.now) || Live(t'.local, k, op.now)
      ensures k in s'.local && k in t'.local && s'.local[k] == t'.local[k]
    {
      assert Live(s.local, k, op.now) ==> Live(s.local, k, now);
      assert Live(t.local, k, op.now) ==> Live(t.local, k, now);
    }
  }

  /** What a sequence of operations returns, started in s. */
  ghost function Outputs(s: Store, ops: seq<Op>): seq<Option<Entry>>
    decreases ops
  {
    if ops == [] then [] else [Step(s, ops[0]).1] + Outputs(Step(s, ops[0]).0, ops[1..])
  }

  ghost predicate NotBefore(ops: seq<Op>, now: real) {
    (forall i :: 0 <= i < |ops| ==> now <= ops[i].now) &&
    (forall i, j :: 0 <= i <= j < |ops| ==> ops[i].now <= ops[j].now)
  }

  lemma {:induction false} SameOutputs(s: Store, t: Store, now: real, ops: seq<Op>)
    requires Indistinguishable(s, t, now) && NotBefore(ops, now)
    ensures Outputs(s, ops) == Outputs(t, ops)
    decreases ops
  {
    if ops != [] {
      StepIndistinguishable(s, t, now, ops[0]);
      SameOutputs(Step(s, ops[0]).0, Step(t, ops[0]).0, ops[0].now, ops[1..]);
    }
  }

  /** Clearing expired entries at any point never changes what any later operation returns. */
  lemma ClearNeverShows(s: Store, now: real, ops: seq<Op>)
    requires NotBefore(ops, now)
    ensures Outputs(ClearExpired(s, now), ops) == Outputs(s, ops)
  {
    SameOutputs(ClearExpired(s, now), s, now, ops);
  }

  // ---- When a pop returns the latest challenge ---------------------------------------------------------------------

  /** A pop right after a set returns that challenge exactly when Redis answers the pop as it answered the set: the
      set reached Redis and so does the pop, or it fell back to memory and Redis offers the pop nothing older. */
  lemma PopReturnsLatestIff(s: Store, scope: Scope, key: string, value: Bytes, ttl: int, now: real, setLink: Link,
                            later: real, popLink: Link)
    requires value != [] && ttl >= 0 && now <= later <= now + ttl as real && OwnOrigins(s)
    ensures var s1 := SetChallenge(s, scope, key, value, ttl, now, setLink);
      PopChallenge(s1, scope, key, later, popLink).1 == Some(Entry(value, now + ttl as real, s.next))
      <==> if StoresInRedis(setLink, ttl) then popLink == Working
           else !RedisHit(s, Key(scope, key), later, popLink)
  {
    var k := Key(scope, key);
    forall j | j in s.redis ensures s.redis[j].origin in Held(s) {}
    forall j | j in s.local ensures s.local[j].origin in Held(s) {}
  }

  /** After a successful pop, a second pop of the same key returns another, older challenge exactly when the other
      of the two stores still holds a live one that the second pop can reach. */
  lemma SecondPopIff(s: Store, scope: Scope, key: string, now: real, link: Link, later: real, link': Link)
    requires PopChallenge(s, scope, key, now, link).1.Some? && now <= later
    ensures var k, s1 := Key(scope, key), PopChallenge(s, scope, key, now, link).0;
      PopChallenge(s1, scope, key, later, link').1.Some?
      <==> if RedisHit(s, k, now, link) then Live(s.local, k, later)
           else link != Working && RedisHit(s, k, later, link')
  {
  }

  // ---- Operations on other keys ------------------------------------------------------------------------------------

  /** op clears, at a time no later than the given one, or works on another key. */
  ghost predicate Elsewhere(op: Op, scope: Scope, key: string, later: real) {
    if op.Clear? then op.now <= later else op.scope != scope || op.key != key
  }

  /** What the two stores hold under k, as far as it is not expired in memory at the given time. */
  ghost function Visible(s: Store, k: string, later: real): (Option<Entry>, Option<Entry>) {
    (if k in s.redis then Some(s.redis[k]) else None, if Live(s.local, k, later) then Some(s.local[k]) else None)
  }

  lemma ElsewhereKeeps(s: Store, op: Op, scope: Scope, key: string, later: real)
    requires Elsewhere(op, scope, key, later)
    ensures Visible(Step(s, op).0, Key(scope, key), later) == Visible(s, Key(scope, key), later)
  {
    if !op.Clear? {
      KeyInjective(op.scope, op.key, scope, key);
    }
  }

  lemma {:induction false} AllElsewhereKeep(ops: seq<Op>, m: nat, scope: Scope, key: string, later: real)
    requires m <= |ops| && forall i :: m <= i < |ops| ==> Elsewhere(ops[i], scope, key, later)
    ensures Visible(Run(ops), Key(scope, key), later) == Visible(Run(ops[..m]), Key(scope, key), later)
  {
    if m == |ops| {
      assert ops[..m] == ops;
    } else {
      var n := |ops| - 1;
      assert ops[..n][..m] == ops[..m];
      AllElsewhereKeep(ops[..n], m, scope, key, later);
      ElsewhereKeeps(Run(ops[..n]), ops[n], scope, key, later);
    }
  }

  /** Operations on other keys, and clears, never change what a pop returns. */
  lemma OthersNeverShow(ops: seq<Op>, between: seq<Op>, scope: Scope, key: string, later: real, link: Link)
    requires forall i :: 0 <= i < |between| ==> Elsewhere(between[i], scope, key, later)
    ensures var take := Take(scope, key, later, link);
      Returned(ops + between + [take], |ops| + |between|) == Returned(ops + [take], |ops|)
  {
    assert (ops + between)[..|ops|] == ops;
    AllElsewhereKeep(ops + between, |ops|, scope, key, later);
    RunSnoc(ops, Take(scope, key, later, link));
    RunSnoc(ops + between, Take(scope, key, later, link));
  }

  /** In every run, after a set and any operations on other keys and clears, a pop returns that challenge exactly when
      Redis answers it as it answered the set, or the set fell back to memory and Redis offers nothing older. */
  lemma RunPopReturnsLatestIff(ops: seq<Op>, scope: Scope, key: string, value: Bytes, ttl: int, now: real,
                               setLink: Link, between: seq<Op>, later: real, popLink: Link)
    requires value != [] && ttl >= 0 && now <= later <= now + ttl as real
    requires forall i :: 0 <= i < |between| ==> Elsewhere(between[i], scope, key, later)
    ensures var longer := ops + [Put(scope, key, value, ttl, now, setLink)] + between;
      Returned(longer + [Take(scope, key, later, popLink)], |longer|)
         == Some(Entry(value, now + ttl as real, Puts(ops)))
      <==> if StoresInRedis(setLink, ttl) then popLink == Working
           else !RedisHit(Run(ops), Key(scope, key), later, popLink)
  {
    var put := Put(scope, key, value, ttl, now, setLink);
    RunKeepsOrigins(ops);
    RunCountsPuts(ops);
    PopReturnsLatestIff(Run(ops), scope, key, value, ttl, now, setLink, later, popLink);
    OthersNeverShow(ops + [put], between, scope, key, later, popLink);
    RunSnoc(ops + [put], Take(scope, key, later, popLink));
    assert (ops + [put])[..|ops|] == ops;
  }

  /** A concrete run: a challenge is set, Redis is away while it is replaced, and comes back.  The next pop returns
      the older challenge, and a second pop the newer one. */
  lemma OutageReturnsOlder(scope: Scope, key: string, older: Bytes, newer: Bytes)
    requires older != []
    ensures var ops := [Put(scope, key, older, 300, 0.0, Working), Put(scope, key, newer, 300, 1.0, Unavailable),
                        Take(scope, key, 2.0, Working), Take(scope, key, 3.0, Working)];
      && Returned(ops, 2) == Some(Entry(older, 300.0, 0))
      && Returned(ops, 3) == Some(Entry(newer, 301.0, 1))
  {
    var put, again := Put(scope, key, older, 300, 0.0, Working), Put(scope, key, newer, 300, 1.0, Unavailable);
    var take, second := Take(scope, key, 2.0, Working), Take(scope, key, 3.0, Working);
    var k := Key(scope, key);
    assert [put, again, take, second][..3] == [put, again, take];
    assert [put, again, take, second][..2] == [put, again, take][..2] == [put, again];
    assert [put, again][..1] == [put] && [put][..0] == [];
    assert Run([]) == EMPTY;
    assert Run([put]) == Store(map[k := Entry(older, 300.0, 0)], map[], 1);
    assert Run([put, again]) == Store(map[k := Entry(older, 300.0, 0)], map[k := Entry(newer, 301.0, 1)], 2);
    assert Run([put, again, take]) == Store(map[], map[k := Entry(newer, 301.0, 1)], 2);
  }
}
