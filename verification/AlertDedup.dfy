/** Duplicate suppression for alerts: a cache of expiry times per (user, kind, message digest). */
module AlertDedup {

  /** The truncated MD5 digest of "kind|message". */
  type Digest = string -> string

  function Key(digest: Digest, user: string, kind: string, message: string): string {
    user + "|" + kind + "|" + digest(kind + "|" + message)
  }

  type Cache = map<string, real>

  /** Expired entries go. */
  function Collect(cache: Cache, now: real): Cache {
    map k | k in cache && cache[k] > now :: cache[k]
  }

  function AllowAt(cache: Cache, ttl: int, k: string, now: real, gc: bool): (Cache, bool) {
    var kept := if gc then Collect(cache, now) else cache;
    if k in kept && kept[k] > now then (kept, false) else (kept[k := now + ttl as real], true)
  }

  /** An alert without a user or a kind always passes and is not recorded. */
  function AllowAlert(digest: Digest, cache: Cache, ttl: int, user: string, kind: string, message: string, now: real)
    : (Cache, bool)
  {
    if user == "" || kind == "" then (cache, true) else AllowAt(cache, ttl, Key(digest, user, kind, message), now, true)
  }

  datatype Who = Everyone | User(name: string)

  predicate Affects(who: Who, k: string) {
    who.Everyone? || who.name + "|" <= k
  }

  function ResetCache(cache: Cache, who: Who): Cache {
    map k | k in cache && !Affects(who, k) :: cache[k]
  }

  class Dedup {
    const ttl: int
    const digest: Digest
    var cache: Cache

    constructor (ttl: int, digest: Digest)
      ensures this.ttl == ttl && this.digest == digest && cache == map[]
    {
      this.ttl, this.digest, cache := ttl, digest, map[];
    }

    method Gc(now: real)
      modifies this
      ensures cache == Collect(old(cache), now)
      ensures forall k :: k in cache <==> k in old(cache) && old(cache)[k] > now
      ensures forall k :: k in cache ==> cache[k] == old(cache)[k]
    {
      var expired := set k | k in cache && cache[k] <= now;
      while expired != {}
        invariant expired <= cache.Keys <= old(cache).Keys
        invariant forall k :: k in cache ==> cache[k] == old(cache)[k] && (k in expired <==> cache[k] <= now)
        invariant forall k :: k in old(cache) && old(cache)[k] > now ==> k in cache
        decreases expired
      {
        var k :| k in expired;
        expired := expired - {k};
        cache := cache - {k};
      }
    }

    method Allow(user: string, kind: string, message: string, now: real) returns (send: bool)
      modifies this
      ensures (cache, send) == AllowAlert(digest, old(cache), ttl, user, kind, message, now)
    {
      if user == "" || kind == "" {
        return true;
      }
      var key := Key(digest, user, kind, message);
      Gc(now);
      if key in cache && cache[key] > now {
        return false;
      }
      cache := cache[key := now + ttl as real];
      return true;
    }

    method Reset(who: Who)
      modifies this
      ensures cache == ResetCache(old(cache), who)
    {
      if who.Everyone? {
        cache := map[];
        return;
      }
      var keys := cache.Keys;
      while keys != {}
        invariant keys <= cache.Keys <= old(cache).Keys
        invariant forall k :: k in cache ==> cache[k] == old(cache)[k] && (k in keys || !Affects(who, k))
        invariant forall k :: k in old(cache) && !Affects(who, k) ==> k in cache
        decreases keys
      {
        var k :| k in keys;
        keys := keys - {k};
        if who.name + "|" <= k {
          cache := cache - {k};
        }
      }
    }
  }

  // ---- Whole runs --------------------------------------------------------------------------------------

  /** Alert is a call of allow for the cache key k; Unrecorded is one without a user or a kind. */
  datatype Op = Alert(k: string, now: real) | Unrecorded | Forget(who: Who)

  ghost function Run(ttl: int, gc: bool, ops: seq<Op>): Cache {
    if ops == [] then map[]
    else
      var before := Run(ttl, gc, ops[..|ops| - 1]);
      match ops[|ops| - 1]
      case Alert(k, now) => AllowAt(before, ttl, k, now, gc).0
      case Unrecorded => before
      case Forget(who) => ResetCache(before, who)
  }

  /** The answer to alert i of the run. */
  ghost predicate Sent(ttl: int, gc: bool, ops: seq<Op>, i: nat)
    requires i < |ops| && ops[i].Alert?
  {
    AllowAt(Run(ttl, gc, ops[..i]), ttl, ops[i].k, ops[i].now, gc).1
  }

  ghost predicate MonotoneClock(ops: seq<Op>) {
    forall i, j :: 0 <= i <= j < |ops| && ops[i].Alert? && ops[j].Alert? ==> ops[i].now <= ops[j].now
  }

  datatype Last = Never | AtTime(time: real)

  /** When the key was last sent, as far as no reset has forgotten it. */
  ghost function LastSent(ttl: int, gc: bool, ops: seq<Op>, k: string): Last {
    if ops == [] then Never
    else
      var n := |ops| - 1;
      match ops[n]
      case Alert(j, now) => if j == k && Sent(ttl, gc, ops, n) then AtTime(now) else LastSent(ttl, gc, ops[..n], k)
      case Unrecorded => LastSent(ttl, gc, ops[..n], k)
      case Forget(who) => if Affects(who, k) then Never else LastSent(ttl, gc, ops[..n], k)
  }

  /** The cache knows about the key what its last send says, as long as that matters at time now. */
  ghost predicate Remembers(cache: Cache, ttl: int, k: string, last: Last, now: real) {
    && (k in cache ==> last.AtTime? && cache[k] == last.time + ttl as real)
    && (last.AtTime? && last.time + ttl as real > now ==> k in cache)
  }

  lemma AlertRemembers(cache: Cache, ttl: int, gc: bool, j: string, k: string, last: Last, earlier: real, now: real)
    requires Remembers(cache, ttl, k, last, earlier) && earlier <= now
    ensures var (after, sent) := AllowAt(cache, ttl, j, now, gc);
      Remembers(after, ttl, k, if j == k && sent then AtTime(now) else last, now)
  {
  }

  lemma ResetRemembers(cache: Cache, ttl: int, who: Who, k: string, last: Last, now: real)
    requires Remembers(cache, ttl, k, last, now)
    ensures Remembers(ResetCache(cache, who), ttl, k, if Affects(who, k) then Never else last, now)
  {
  }

  lemma LaterRemembers(cache: Cache, ttl: int, k: string, last: Last, now: real, later: real)
    requires Remembers(cache, ttl, k, last, now) && now <= later
    ensures Remembers(cache, ttl, k, last, later)
  {
  }

  lemma {:induction false} RunRemembers(ttl: int, gc: bool, ops: seq<Op>, k: string, now: real)
    requires MonotoneClock(ops) && forall i :: 0 <= i < |ops| && ops[i].Alert? ==> ops[i].now <= now
    ensures Remembers(Run(ttl, gc, ops), ttl, k, LastSent(ttl, gc, ops, k), now)
  {
    if ops != [] {
      var n := |ops| - 1;
      var cache, last := Run(ttl, gc, ops[..n]), LastSent(ttl, gc, ops[..n], k);
      match ops[n]
      case Alert(j, t) =>
        RunRemembers(ttl, gc, ops[..n], k, t);
        AlertRemembers(cache, ttl, gc, j, k, last, t, t);
        LaterRemembers(Run(ttl, gc, ops), ttl, k, LastSent(ttl, gc, ops, k), t, now);
      case Unrecorded => RunRemembers(ttl, gc, ops[..n], k, now);
      case Forget(who) =>
        RunRemembers(ttl, gc, ops[..n], k, now);
        ResetRemembers(cache, ttl, who, k, last, now);
    }
  }

  /** An alert is sent exactly when its key was never sent, has been forgotten by a reset since, or was last sent at
      least the time to live ago.  Suppressed alerts in between do not count: they do not extend the window. */
  lemma SentIff(ttl: int, gc: bool, ops: seq<Op>, i: nat)
    requires MonotoneClock(ops) && i < |ops| && ops[i].Alert?
    ensures var last := LastSent(ttl, gc, ops[..i], ops[i].k);
      Sent(ttl, gc, ops, i) <==> last.Never? || ops[i].now - last.time >= ttl as real
  {
    RunRemembers(ttl, gc, ops[..i], ops[i].k, ops[i].now);
  }

  lemma {:induction false} SameLast(ttl: int, ops: seq<Op>, k: string)
    requires MonotoneClock(ops)
    ensures LastSent(ttl, true, ops, k) == LastSent(ttl, false, ops, k)
    decreases |ops|
  {
    if ops != [] {
      var n := |ops| - 1;
      SameLast(ttl, ops[..n], k);
      if ops[n].Alert? {
        SameLast(ttl, ops[..n], ops[n].k);
        SentIff(ttl, true, ops, n);
        SentIff(ttl, false, ops, n);
      }
    }
  }

  /** Collecting expired entries never changes an answer. */
  lemma CollectionNeverShows(ttl: int, ops: seq<Op>, i: nat)
    requires MonotoneClock(ops) && i < |ops| && ops[i].Alert?
    ensures Sent(ttl, true, ops, i) == Sent(ttl, false, ops, i)
  {
    SameLast(ttl, ops[..i], ops[i].k);
    SentIff(ttl, true, ops, i);
    SentIff(ttl, false, ops, i);
  }

  // ---- Runs of calls ---------------------------------------------------------------------------------------

  /** The calls as they come: allow with its arguments and the clock's reading, or reset. */
  datatype Call = Ask(user: string, kind: string, message: string, now: real) | Reset(who: Who)

  ghost function CacheAfter(digest: Digest, ttl: int, calls: seq<Call>): Cache {
    if calls == [] then map[]
    else
      var before := CacheAfter(digest, ttl, calls[..|calls| - 1]);
      match calls[|calls| - 1]
      case Ask(user, kind, message, now) => AllowAlert(digest, before, ttl, user, kind, message, now).0
      case Reset(who) => ResetCache(before, who)
  }

  /** The answer to call i. */
  ghost predicate Allowed(digest: Digest, ttl: int, calls: seq<Call>, i: nat)
    requires i < |calls| && calls[i].Ask?
  {
    var c := calls[i];
    AllowAlert(digest, CacheAfter(digest, ttl, calls[..i]), ttl, c.user, c.kind, c.message, c.now).1
  }

  ghost predicate ClockOfCalls(calls: seq<Call>) {
    forall i, j :: 0 <= i <= j < |calls| && calls[i].Ask? && calls[j].Ask? ==> calls[i].now <= calls[j].now
  }

  /** What identifies an alert: its user, its kind and the digest of kind and message, joined. */
  function Identity(digest: Digest, c: Call): string
    requires c.Ask?
  {
    c.user + "|" + c.kind + "|" + digest(c.kind + "|" + c.message)
  }

  function OpOf(digest: Digest, c: Call): Op {
    match c
    case Ask(user, kind, message, now) =>
      if Recorded(user, kind) then Alert(Key(digest, user, kind, message), now) else Unrecorded
    case Reset(who) => Forget(who)
  }

  function OpsOf(digest: Digest, calls: seq<Call>): (ops: seq<Op>)
    ensures |ops| == |calls| && forall i :: 0 <= i < |calls| ==> ops[i] == OpOf(digest, calls[i])
  {
    seq(|calls|, i requires 0 <= i < |calls| => OpOf(digest, calls[i]))
  }

  lemma OpsOfFront(digest: Digest, calls: seq<Call>, i: nat)
    requires i <= |calls|
    ensures OpsOf(digest, calls[..i]) == OpsOf(digest, calls)[..i]
  {
  }

  lemma {:induction false} SameCache(digest: Digest, ttl: int, calls: seq<Call>)
    ensures CacheAfter(digest, ttl, calls) == Run(ttl, true, OpsOf(digest, calls))
  {
    if calls != [] {
      var n := |calls| - 1;
      SameCache(digest, ttl, calls[..n]);
      OpsOfFront(digest, calls, n);
    }
  }

  lemma SameAnswer(digest: Digest, ttl: int, calls: seq<Call>, i: nat)
    requires i < |calls| && calls[i].Ask? && Recorded(calls[i].user, calls[i].kind)
    ensures Allowed(digest, ttl, calls, i) == Sent(ttl, true, OpsOf(digest, calls), i)
  {
    SameCache(digest, ttl, calls[..i]);
    OpsOfFront(digest, calls, i);
  }

  /** Call j sent the same alert as call i asks for, less than the time to live before, and no reset since forgot it. */
  ghost predicate Blocks(digest: Digest, ttl: int, calls: seq<Call>, j: nat, i: nat)
    requires i < |calls| && calls[i].Ask?
  {
    && j < i && calls[j].Ask? && calls[j].user != "" && calls[j].kind != ""
    && Identity(digest, calls[j]) == Identity(digest, calls[i])
    && Allowed(digest, ttl, calls, j) && calls[i].now - calls[j].now < ttl as real
    && forall m :: j < m < i && calls[m].Reset? ==>
         calls[m].who.User? && !(calls[m].who.name + "|" <= Identity(digest, calls[i]))
  }

  /** The last send of a key is that of some call that no reset has forgotten since. */
  lemma {:induction false} LastSentBy(ttl: int, gc: bool, ops: seq<Op>, k: string, n: nat) returns (j: nat)
    requires n <= |ops| && LastSent(ttl, gc, ops[..n], k).AtTime?
    ensures j < n && ops[j].Alert? && ops[j].k == k && Sent(ttl, gc, ops, j)
    ensures LastSent(ttl, gc, ops[..n], k) == AtTime(ops[j].now)
    ensures forall m :: j < m < n && ops[m].Forget? ==> !Affects(ops[m].who, k)
  {
    assert ops[..n][..n - 1] == ops[..n - 1];
    if ops[n - 1].Alert? && ops[n - 1].k == k && Sent(ttl, gc, ops[..n], n - 1) {
      j := n - 1;
    } else {
      j := LastSentBy(ttl, gc, ops, k, n - 1);
    }
  }

  lemma BlocksIfSuppressed(digest: Digest, ttl: int, calls: seq<Call>, i: nat)
    requires ClockOfCalls(calls) && i < |calls| && calls[i].Ask? && Recorded(calls[i].user, calls[i].kind)
    requires !Allowed(digest, ttl, calls, i)
    ensures exists j: nat :: Blocks(digest, ttl, calls, j, i)
  {
    var ops := OpsOf(digest, calls);
    SameAnswer(digest, ttl, calls, i);
    SentIff(ttl, true, ops, i);
    var j := LastSentBy(ttl, true, ops, ops[i].k, i);
    SameAnswer(digest, ttl, calls, j);
    forall m | j < m < i && calls[m].Reset?
      ensures calls[m].who.User? && !(calls[m].who.name + "|" <= Identity(digest, calls[i]))
    {
      assert ops[m].Forget?;
    }
    assert Blocks(digest, ttl, calls, j, i);
  }

  lemma SuppressedIfBlocked(digest: Digest, ttl: int, calls: seq<Call>, i: nat, j: nat)
    requires ClockOfCalls(calls) && i < |calls| && calls[i].Ask? && Recorded(calls[i].user, calls[i].kind)
    requires Blocks(digest, ttl, calls, j, i)
    ensures !Allowed(digest, ttl, calls, i)
  {
    var ops := OpsOf(digest, calls);
    SameAnswer(digest, ttl, calls, i);
    SameAnswer(digest, ttl, calls, j);
    SentIff(ttl, true, ops, i);
    SentSince(ttl, true, ops, j, i);
  }

  /** In every run of calls, an alert is sent exactly when it lacks a user or a kind, or no earlier call sent the same
      alert less than the time to live before without a reset having forgotten it since. */
  lemma CallSentIff(digest: Digest, ttl: int, calls: seq<Call>, i: nat)
    requires ClockOfCalls(calls) && i < |calls| && calls[i].Ask?
    ensures Allowed(digest, ttl, calls, i) <==>
      calls[i].user == "" || calls[i].kind == "" || !exists j: nat :: Blocks(digest, ttl, calls, j, i)
  {
    if Recorded(calls[i].user, calls[i].kind) {
      if !Allowed(digest, ttl, calls, i) {
        BlocksIfSuppressed(digest, ttl, calls, i);
      }
      if j: nat :| Blocks(digest, ttl, calls, j, i) {
        SuppressedIfBlocked(digest, ttl, calls, i, j);
      }
    }
  }

  /** For users and kinds without the separator, alerts are the same exactly when user, kind and digest are: different
      digests never suppress each other. */
  lemma SameIdentityIff(digest: Digest, c: Call, d: Call)
    requires c.Ask? && d.Ask?
    requires '|' !in c.user && '|' !in c.kind && '|' !in d.user && '|' !in d.kind
    ensures Identity(digest, c) == Identity(digest, d) <==>
      c.user == d.user && c.kind == d.kind && digest(c.kind + "|" + c.message) == digest(d.kind + "|" + d.message)
  {
    var t, u := digest(c.kind + "|" + c.message), digest(d.kind + "|" + d.message);
    SplitAtSeparator(c.user, c.kind + "|" + t, d.user, d.kind + "|" + u);
    SplitAtSeparator(c.kind, t, d.kind, u);
    assert Identity(digest, c) == c.user + "|" + (c.kind + "|" + t);
    assert Identity(digest, d) == d.user + "|" + (d.kind + "|" + u);
  }

  lemma SplitAtSeparator(a: string, rest: string, a': string, rest': string)
    requires '|' !in a && '|' !in a'
    ensures a + "|" + rest == a' + "|" + rest' <==> a == a' && rest == rest'
  {
    var s, s' := a + "|" + rest, a' + "|" + rest';
    assert s[|a|] == '|' && s'[|a'|] == '|';
    assert forall i :: 0 <= i < |a| ==> s[i] == a[i] && a[i] in a;
    assert forall i :: 0 <= i < |a'| ==> s'[i] == a'[i] && a'[i] in a';
    if s == s' {
      assert |a| == |a'|;
      assert a == s[..|a|] && a' == s'[..|a'|];
      assert rest == s[|a| + 1..] && rest' == s'[|a'| + 1..];
    }
  }

  // ---- Whose alerts a reset forgets -----------------------------------------------------------------------

  /** allow records alerts that have a user and a kind only. */
  predicate Recorded(user: string, kind: string) { user != "" && kind != "" }

  /** One of two names is the other one followed by the separator and anything. */
  predicate Continues(user: string, other: string) { user + "|" <= other || other + "|" <= user }

  /** A reset of user forgets some alert of other. */
  ghost predicate Reaches(digest: Digest, user: string, other: string) {
    exists kind, message :: Recorded(other, kind) && Affects(User(user), Key(digest, other, kind, message))
  }

  /** A reset forgets all alerts of its own user, and can forget one of another user exactly when one of the two
      names continues the other one with the separator. */
  lemma ResetReachesIff(digest: Digest, user: string, other: string)
    ensures user == other ==> forall kind, message :: Affects(User(user), Key(digest, other, kind, message))
    ensures user != other ==> (Reaches(digest, user, other) <==> other != "" && Continues(user, other))
  {
    forall kind, message ensures Affects(User(user), Key(digest, other, kind, message))
      ==> user == other || Continues(user, other)
    {
      AffectedNames(user, other, kind + "|" + digest(kind + "|" + message));
      KeyParts(digest, other, kind, message);
    }
    if user != other && other != "" && Continues(user, other) {
      var kind := ReachedKind(digest, user, other);
      assert Recorded(other, kind) && Affects(User(user), Key(digest, other, kind, ""));
    }
  }

  /** A kind for which a reset of the one name forgets an alert of the other. */
  lemma ReachedKind(digest: Digest, user: string, other: string) returns (kind: string)
    requires Continues(user, other)
    ensures kind != "" && Affects(User(user), Key(digest, other, kind, ""))
  {
    if user + "|" <= other {
      kind := "x";
      AffectsContinued(user, other[|user| + 1..], "x|" + digest("x|"));
      assert other == user + "|" + other[|user| + 1..];
      KeyParts(digest, other, "x", "");
    } else {
      var rest := user[|other| + 1..];
      kind := rest + "|";
      assert user == other + "|" + rest;
      assert Key(digest, other, kind, "") == user + "|" + ("|" + digest(kind + "|" + ""));
    }
  }

  lemma KeyParts(digest: Digest, user: string, kind: string, message: string)
    ensures Key(digest, user, kind, message) == user + "|" + (kind + "|" + digest(kind + "|" + message))
  {
  }

  /** user + "|" starts other + "|" + tail only if the names are equal or one continues the other. */
  lemma AffectedNames(user: string, other: string, tail: string)
    ensures user + "|" <= other + "|" + tail ==> user == other || user + "|" <= other || other + "|" <= user
  {
    var p, k := user + "|", other + "|" + tail;
    if p <= k {
      if |user| < |other| {
        assert k[..|p|] == other[..|p|];
      } else if |user| > |other| {
        assert user == p[..|user|] == k[..|user|];
        assert user[..|other| + 1] == k[..|other| + 1] == other + "|";
      } else {
        assert user == p[..|user|] == k[..|user|] == other;
      }
    }
  }

  lemma AffectsContinued(user: string, rest: string, tail: string)
    ensures user + "|" <= user + "|" + rest + "|" + tail
  {
  }

  /** A reset forgets, of all recorded alerts, exactly those of its own user, if and only if neither name continues
      the other one. */
  lemma ResetExact(digest: Digest, user: string, other: string)
    ensures (forall kind, message :: Recorded(other, kind) ==>
               (Affects(User(user), Key(digest, other, kind, message)) <==> user == other))
       <==> other == "" || !Continues(user, other)
  {
    ResetReachesIff(digest, user, other);
    if user == other {
      NeverContinuesItself(user);
    } else if other != "" && Continues(user, other) {
      var kind := ReachedKind(digest, user, other);
      assert Recorded(other, kind) && Affects(User(user), Key(digest, other, kind, ""));
    }
  }

  lemma NeverContinuesItself(user: string)
    ensures !Continues(user, user)
  {
  }

  /** In particular among names without the separator. */
  lemma SeparatorFree(user: string, other: string)
    requires '|' !in user && '|' !in other
    ensures !Continues(user, other)
  {
    assert (user + "|")[|user|] == '|' && (other + "|")[|other|] == '|';
  }

  // ---- What a reset lets through ----------------------------------------------------------------------------

  /** Alert i of the run is one of other's; alert j repeats it within the time to live; both are sent, although every
      reset in between is one of user. */
  ghost predicate Resent(digest: Digest, ttl: int, gc: bool, ops: seq<Op>, i: nat, j: nat, user: string, other: string)
  {
    && MonotoneClock(ops) && i < j < |ops| && ops[i].Alert? && ops[j].Alert? && ops[i].k == ops[j].k
    && (exists kind, message :: Recorded(other, kind) && ops[i].k == Key(digest, other, kind, message))
    && Sent(ttl, gc, ops, i) && Sent(ttl, gc, ops, j) && ops[j].now - ops[i].now < ttl as real
    && forall m :: i < m < j && ops[m].Forget? ==> ops[m].who == User(user)
  }

  /** Once sent and not forgotten, the last send is no earlier. */
  lemma {:induction false} SentSince(ttl: int, gc: bool, ops: seq<Op>, i: nat, n: nat)
    requires MonotoneClock(ops) && i < n <= |ops| && ops[i].Alert? && Sent(ttl, gc, ops, i)
    requires forall m :: i < m < n && ops[m].Forget? ==> !Affects(ops[m].who, ops[i].k)
    ensures var last := LastSent(ttl, gc, ops[..n], ops[i].k); last.AtTime? && last.time >= ops[i].now
  {
    var before := ops[..n - 1];
    assert ops[..n][..n - 1] == before;
    assert ops[..n][n - 1] == ops[n - 1];
    if i == n - 1 {
      assert Sent(ttl, gc, ops[..n], n - 1) == Sent(ttl, gc, ops, i);
    } else {
      SentSince(ttl, gc, ops, i, n - 1);
    }
  }

  lemma ResentReaches(digest: Digest, ttl: int, gc: bool, ops: seq<Op>, i: nat, j: nat, user: string, other: string)
    requires Resent(digest, ttl, gc, ops, i, j, user, other)
    ensures ttl > 0 && Reaches(digest, user, other)
  {
    var kind, message :| Recorded(other, kind) && ops[i].k == Key(digest, other, kind, message);
    if forall m :: i < m < j && ops[m].Forget? ==> !Affects(ops[m].who, ops[i].k) {
      SentSince(ttl, gc, ops, i, j);
      SentIff(ttl, gc, ops, j);
    } else {
      assert Affects(User(user), Key(digest, other, kind, message));
    }
  }

  /** A run in which one and the same alert is sent twice at once, around a reset that affects it. */
  lemma ResetSendsAgain(ttl: int, gc: bool, k: string, who: Who, now: real, later: real)
    requires Affects(who, k)
    ensures var ops := [Alert(k, now), Forget(who), Alert(k, later)]; Sent(ttl, gc, ops, 0) && Sent(ttl, gc, ops, 2)
  {
    var ops := [Alert(k, now), Forget(who), Alert(k, later)];
    assert ops[..0] == [] && ops[..1] == [Alert(k, now)] && ops[..2] == [Alert(k, now), Forget(who)];
    assert [Alert(k, now), Forget(who)][..1] == [Alert(k, now)];
    assert k !in Run(ttl, gc, ops[..2]);
  }

  /** Over all runs: a reset of user lets an alert of other through a second time within the time to live if and only
      if they are the same user or one name continues the other one. */
  lemma ResetResendsIff(digest: Digest, ttl: int, gc: bool, user: string, other: string)
    ensures (exists ops, i, j :: Resent(digest, ttl, gc, ops, i, j, user, other))
       <==> ttl > 0 && other != "" && (user == other || Continues(user, other))
  {
    ResetReachesIff(digest, user, other);
    if ops, i, j :| Resent(digest, ttl, gc, ops, i, j, user, other) {
      ResentReaches(digest, ttl, gc, ops, i, j, user, other);
    }
    if ttl > 0 && other != "" && (user == other || Continues(user, other)) {
      var kind := "x";
      if user != other { kind := ReachedKind(digest, user, other); }
      var k := Key(digest, other, kind, "");
      ResetSendsAgain(ttl, gc, k, User(user), 0.0, 0.0);
      assert Recorded(other, kind);
      assert Resent(digest, ttl, gc, [Alert(k, 0.0), Forget(User(user)), Alert(k, 0.0)], 0, 2, user, other);
    }
  }

  /** A concrete run: resetting "a" lets an alert of user "a|b" through again after a second. */
  lemma ResetForgetsOther(digest: Digest, kind: string, message: string)
    ensures var k := Key(digest, "a|b", kind, message);
      var ops := [Alert(k, 0.0), Forget(User("a")), Alert(k, 1.0)];
      Sent(60, true, ops, 0) && Sent(60, true, ops, 2)
  {
    var k := Key(digest, "a|b", kind, message);
    AffectsContinued("a", "b", kind + "|" + digest(kind + "|" + message));
    assert "a" + "|" + "b" == "a|b";
    KeyParts(digest, "a|b", kind, message);
    ResetSendsAgain(60, true, k, User("a"), 0.0, 1.0);
  }
}
