/** Approval of transactions on edge nodes under tiered spending limits. */
module EdgeApproval {
  import opened Numbers
  import opened Options

  datatype Policy = Policy(singleTxLimit: real, dailyLimit: real, requireMfaAbove: real, autoApproveBelow: real,
                           riskScoreThreshold: real)

  datatype NodeInfo = NodeInfo(id: string, region: string, baseLatencyMs: real, capacityTps: int, isActive: bool)

  datatype Tx = Tx(user: string, tier: string, amount: real, risk: real, region: string)

  datatype Decision = Approved | Denied | MfaRequired | Escalated

  /** The edge node that handles a transaction, or none: the central cloud does. */
  datatype Edge = Cloud | Node(index: nat)

  datatype Result = Result(decision: Decision, edge: Edge, latencyMs: real)

  datatype Config = Config(nodes: seq<NodeInfo>, cloudLatencyMs: real, policies: map<string, Policy>) {
    /** A fallback policy exists, and every node has a capacity. */
    ghost predicate Valid() {
      BASIC in policies && forall i :: 0 <= i < |nodes| ==> nodes[i].capacityTps > 0
    }
  }

  const BASIC: string := "basic"

  const DEFAULT_POLICIES: map<string, Policy> := map[
    "basic" := Policy(500000.0, 2000000.0, 300000.0, 50000.0, 0.6),
    "standard" := Policy(2000000.0, 10000000.0, 1000000.0, 200000.0, 0.7),
    "premium" := Policy(10000000.0, 50000000.0, 5000000.0, 500000.0, 0.75),
    "vip" := Policy(50000000.0, 200000000.0, 20000000.0, 2000000.0, 0.8)]

  function PolicyFor(config: Config, tier: string): Policy
    requires config.Valid()
  {
    if tier in config.policies then config.policies[tier] else config.policies[BASIC]
  }

  // ---- Choosing a node --------------------------------------------------------------------------------------

  function EffectiveLatency(base: real, load: real): real {
    var over := Max(0.0, load - 0.5);
    base * (1.0 + over * over * 10.0)
  }

  /** The positions of the active nodes, of one region or of all. */
  function ActiveNodes(nodes: seq<NodeInfo>, region: string, anyRegion: bool): (r: seq<nat>)
    ensures forall i :: i in r <==> 0 <= i < |nodes| && nodes[i].isActive && (anyRegion || nodes[i].region == region)
  {
    if nodes == [] then []
    else
      var n := |nodes| - 1;
      var front := ActiveNodes(nodes[..n], region, anyRegion);
      if nodes[n].isActive && (anyRegion || nodes[n].region == region) then front + [n] else front
  }

  /** min(candidates, key=key): the first with the least key. */
  function FirstLeast(candidates: seq<nat>, key: nat -> real): (best: nat)
    requires candidates != []
    ensures best in candidates && forall i :: i in candidates ==> key(best) <= key(i)
  {
    var n := |candidates| - 1;
    assert candidates == candidates[..n] + [candidates[n]];
    if n == 0 then candidates[0]
    else
      var best := FirstLeast(candidates[..n], key);
      if key(candidates[n]) < key(best) then candidates[n] else best
  }

  function LatencyKey(nodes: seq<NodeInfo>, loads: seq<real>): nat -> real
    requires |loads| == |nodes|
  {
    (i: nat) => if i < |nodes| then EffectiveLatency(nodes[i].baseLatencyMs, loads[i]) else 0.0
  }

  function LoadKey(loads: seq<real>): nat -> real {
    (i: nat) => if i < |loads| then loads[i] else 0.0
  }

  /** The quickest active node of the region; without one, the least loaded active node; without any, the cloud. */
  function SelectEdge(nodes: seq<NodeInfo>, loads: seq<real>, region: string): (r: Edge)
    requires |loads| == |nodes|
    ensures r.Cloud? <==> forall i :: 0 <= i < |nodes| ==> !nodes[i].isActive
    ensures r.Node? ==> r.index < |nodes| && nodes[r.index].isActive
    ensures forall i :: 0 <= i < |nodes| && nodes[i].isActive && nodes[i].region == region ==>
      && r.Node? && nodes[r.index].region == region
      && EffectiveLatency(nodes[r.index].baseLatencyMs, loads[r.index])
         <= EffectiveLatency(nodes[i].baseLatencyMs, loads[i])
    ensures r.Node? && nodes[r.index].region != region ==>
      forall i :: 0 <= i < |nodes| && nodes[i].isActive ==> loads[r.index] <= loads[i]
  {
    var local := ActiveNodes(nodes, region, false);
    if local != [] then
      var best := FirstLeast(local, LatencyKey(nodes, loads));
      assert forall i :: i in local ==> LatencyKey(nodes, loads)(best) <= LatencyKey(nodes, loads)(i);
      Node(best)
    else
      var active := ActiveNodes(nodes, region, true);
      if active == [] then Cloud
      else
        var best := FirstLeast(active, LoadKey(loads));
        assert forall i :: i in active ==> LoadKey(loads)(best) <= LoadKey(loads)(i);
        Node(best)
  }

  // ---- Deciding -----------------------------------------------------------------------------------------------

  datatype State = State(spent: map<string, real>, loads: seq<real>)

  function Spent(spent: map<string, real>, user: string): real {
    if user in spent then spent[user] else 0.0
  }

  function Decide(p: Policy, spent: real, amount: real, risk: real): Decision {
    if spent + amount > p.dailyLimit then Denied
    else if amount > p.singleTxLimit then Denied
    else if amount <= p.autoApproveBelow && risk < 0.3 then Approved
    else if amount >= p.requireMfaAbove then MfaRequired
    else if risk >= p.riskScoreThreshold then Escalated
    else Approved
  }

  function Latency(config: Config, s: State, edge: Edge): real
    requires |s.loads| == |config.nodes| && (edge.Node? ==> edge.index < |config.nodes|)
  {
    match edge
    case Cloud => config.cloudLatencyMs
    case Node(i) => EffectiveLatency(config.nodes[i].baseLatencyMs, s.loads[i])
  }

  function Charge(config: Config, s: State, tx: Tx, edge: Edge): State
    requires config.Valid() && |s.loads| == |config.nodes| && (edge.Node? ==> edge.index < |config.nodes|)
  {
    State(s.spent[tx.user := Spent(s.spent, tx.user) + tx.amount],
          match edge
          case Cloud => s.loads
          case Node(i) => AddedLoad(config, s.loads, i))
  }

  function AddedLoad(config: Config, loads: seq<real>, i: nat): (r: seq<real>)
    requires config.Valid() && |loads| == |config.nodes| && i < |loads|
    ensures |r| == |loads|
  {
    loads[i := Min(1.0, loads[i] + 1.0 / config.nodes[i].capacityTps as real)]
  }

  /** What a transaction does to the state: nothing unless it is approved. */
  function NextState(config: Config, s: State, tx: Tx): (s': State)
    requires config.Valid() && |s.loads| == |config.nodes|
    ensures |s'.loads| == |s.loads|
  {
    if Decide(PolicyFor(config, tx.tier), Spent(s.spent, tx.user), tx.amount, tx.risk) == Approved
    then Charge(config, s, tx, SelectEdge(config.nodes, s.loads, tx.region)) else s
  }

  /** What it answers; noise is the random jitter of the latency. */
  function Answer(config: Config, s: State, tx: Tx, noise: real): Result
    requires config.Valid() && |s.loads| == |config.nodes|
  {
    var p := PolicyFor(config, tx.tier);
    var edge := SelectEdge(config.nodes, s.loads, tx.region);
    var latency := Latency(config, s, edge);
    match Decide(p, Spent(s.spent, tx.user), tx.amount, tx.risk)
    case Approved =>
      var auto := tx.amount <= p.autoApproveBelow && tx.risk < 0.3;
      Result(Approved, edge, if auto then latency + noise else Max(1.0, latency + noise))
    case Escalated =>
      var edgeLatency := if edge.Node? then latency else 0.0;
      Result(Escalated, edge, edgeLatency + (config.cloudLatencyMs + noise))
    case other => Result(other, edge, latency)
  }

  class MecNode {
    const info: NodeInfo
    var currentLoad: real

    constructor (info: NodeInfo, load: real)
      ensures this.info == info && currentLoad == load
    {
      this.info, currentLoad := info, load;
    }
  }

  class Processor {
    const config: Config
    const mecNodes: seq<MecNode>
    var dailySpent: map<string, real>

    /** Distinct node objects, described by the configuration. */
    ghost predicate Valid() {
      && config.Valid() && |mecNodes| == |config.nodes|
      && (forall i :: 0 <= i < |mecNodes| ==> mecNodes[i].info == config.nodes[i])
      && (forall i, j :: 0 <= i < j < |mecNodes| ==> mecNodes[i] != mecNodes[j])
    }

    function Loads(): (r: seq<real>)
      reads mecNodes
      ensures |r| == |mecNodes|
    {
      seq(|mecNodes|, i requires 0 <= i < |mecNodes| reads mecNodes => mecNodes[i].currentLoad)
    }

    function Contents(): State
      reads this, mecNodes
    {
      State(dailySpent, Loads())
    }

    constructor (config: Config, mecNodes: seq<MecNode>)
      requires config.Valid() && |mecNodes| == |config.nodes|
      requires forall i :: 0 <= i < |mecNodes| ==> mecNodes[i].info == config.nodes[i]
      requires forall i, j :: 0 <= i < j < |mecNodes| ==> mecNodes[i] != mecNodes[j]
      ensures Valid() && this.config == config && this.mecNodes == mecNodes && dailySpent == map[]
    {
      this.config, this.mecNodes, dailySpent := config, mecNodes, map[];
    }

    method AddLoad(i: nat)
      requires Valid() && i < |mecNodes|
      modifies mecNodes[i]
      ensures Loads() == AddedLoad(config, old(Loads()), i)
    {
      var node := mecNodes[i];
      node.currentLoad := Min(1.0, node.currentLoad + 1.0 / node.info.capacityTps as real);
    }

    method ChargeUser(tx: Tx)
      modifies this
      ensures dailySpent == old(dailySpent)[tx.user := Spent(old(dailySpent), tx.user) + tx.amount]
      ensures Loads() == old(Loads())
    {
      dailySpent := dailySpent[tx.user := Spent(dailySpent, tx.user) + tx.amount];
    }

    method UpdateState(tx: Tx, edge: Edge)
      requires Valid() && (edge.Node? ==> edge.index < |mecNodes|)
      modifies this, mecNodes
      ensures Contents() == Charge(config, old(Contents()), tx, edge)
    {
      ChargeUser(tx);
      if edge.Node? {
        AddLoad(edge.index);
      }
    }

    method ProcessTransaction(tx: Tx, noise: real) returns (r: Result)
      requires Valid()
      modifies this, mecNodes
      ensures Contents() == NextState(config, old(Contents()), tx)
      ensures r == Answer(config, old(Contents()), tx, noise)
    {
      ghost var before := Contents();
      var policy := PolicyFor(config, tx.tier);
      var spent := Spent(dailySpent, tx.user);
      var edge := SelectEdge(config.nodes, Loads(), tx.region);
      var latency := Latency(config, Contents(), edge);
      if spent + tx.amount > policy.dailyLimit {
        return Result(Denied, edge, latency);
      }
      if tx.amount > policy.singleTxLimit {
        return Result(Denied, edge, latency);
      }
      if tx.amount <= policy.autoApproveBelow && tx.risk < 0.3 {
        UpdateState(tx, edge);
        assert Contents() == Charge(config, before, tx, edge);
        return Result(Approved, edge, latency + noise);
      }
      if tx.amount >= policy.requireMfaAbove {
        return Result(MfaRequired, edge, latency);
      }
      if tx.risk >= policy.riskScoreThreshold {
        var cloudLatency := config.cloudLatencyMs + noise;
        return Result(Escalated, edge, (if edge.Node? then latency else 0.0) + cloudLatency);
      }
      UpdateState(tx, edge);
      assert Contents() == Charge(config, before, tx, edge);
      return Result(Approved, edge, Max(1.0, latency + noise));
    }
  }

  // ---- Single decisions ------------------------------------------------------------------------------------------

  /** Exactly which amounts are approved: within both limits, and either small at low risk, or below both the MFA
      amount and the risk threshold. */
  lemma ApprovedIff(p: Policy, spent: real, amount: real, risk: real)
    ensures Decide(p, spent, amount, risk) == Approved <==>
      && spent + amount <= p.dailyLimit && amount <= p.singleTxLimit
      && ((amount <= p.autoApproveBelow && risk < 0.3) || (amount < p.requireMfaAbove && risk < p.riskScoreThreshold))
  {
  }

  predicate WithinLimits(p: Policy, spent: real, amount: real) {
    spent + amount <= p.dailyLimit && amount <= p.singleTxLimit
  }

  predicate SmallAndSafe(p: Policy, amount: real, risk: real) { amount <= p.autoApproveBelow && risk < 0.3 }

  /** Exactly when each of the other answers is given. */
  lemma RefusedIff(p: Policy, spent: real, amount: real, risk: real)
    ensures Decide(p, spent, amount, risk) == Denied <==> spent + amount > p.dailyLimit || amount > p.singleTxLimit
    ensures Decide(p, spent, amount, risk) == MfaRequired <==>
      WithinLimits(p, spent, amount) && !SmallAndSafe(p, amount, risk) && amount >= p.requireMfaAbove
    ensures Decide(p, spent, amount, risk) == Escalated <==>
      && WithinLimits(p, spent, amount) && !SmallAndSafe(p, amount, risk)
      && amount < p.requireMfaAbove && risk >= p.riskScoreThreshold
  {
  }

  /** The latency of an edge node is its base latency up to half load, and grows with the square of the overload. */
  lemma EdgeLatencyLaw(base: real, load: real)
    ensures load <= 0.5 ==> EffectiveLatency(base, load) == base
    ensures load > 0.5 ==> EffectiveLatency(base, load) == base + base * (10.0 * ((load - 0.5) * (load - 0.5)))
  {
    if load > 0.5 {
      var over := load - 0.5;
      assert Max(0.0, over) == over;
      assert over * over * 10.0 == 10.0 * (over * over);
    }
  }

  /** What every answer carries: the selected node, and its latency for a refusal; an escalation adds the cloud's to
      it; an approval has the jitter, and at least a millisecond unless it was automatic. */
  lemma ResultLaw(config: Config, s: State, tx: Tx, noise: real)
    requires config.Valid() && |s.loads| == |config.nodes|
    ensures var r, edge := Answer(config, s, tx, noise), SelectEdge(config.nodes, s.loads, tx.region);
      var p := PolicyFor(config, tx.tier);
      var onEdge := if edge.Cloud? then 0.0
                    else EffectiveLatency(config.nodes[edge.index].baseLatencyMs, s.loads[edge.index]);
      var latency := if edge.Cloud? then config.cloudLatencyMs else onEdge;
      && r.decision == Decide(p, Spent(s.spent, tx.user), tx.amount, tx.risk) && r.edge == edge
      && (r.decision == Denied || r.decision == MfaRequired ==> r.latencyMs == latency)
      && (r.decision == Escalated ==> r.latencyMs == onEdge + config.cloudLatencyMs + noise)
      && (r.decision == Approved && (SmallAndSafe(p, tx.amount, tx.risk) || latency + noise >= 1.0) ==>
            r.latencyMs == latency + noise)
      && (r.decision == Approved && !SmallAndSafe(p, tx.amount, tx.risk) && latency + noise < 1.0 ==>
            r.latencyMs == 1.0)
  {
  }

  /** The tier's own policy, or the basic one for an unknown tier. */
  lemma PolicyLaw(config: Config, tier: string)
    requires config.Valid()
    ensures tier in config.policies ==> PolicyFor(config, tier) == config.policies[tier]
    ensures tier !in config.policies ==> PolicyFor(config, tier) == config.policies["basic"]
  {
  }

  /** Under a policy no approval ever reaches the MFA amount exactly when that amount is out of reach of automatic
      approval: above the automatic ceiling or above one of the two limits. */
  lemma MfaRespectedIff(p: Policy)
    requires p.requireMfaAbove >= 0.0
    ensures (forall spent, amount, risk :: spent >= 0.0 && Decide(p, spent, amount, risk) == Approved
              ==> amount < p.requireMfaAbove)
       <==> p.autoApproveBelow < p.requireMfaAbove || p.singleTxLimit < p.requireMfaAbove
            || p.dailyLimit < p.requireMfaAbove
  {
    if p.autoApproveBelow >= p.requireMfaAbove && p.singleTxLimit >= p.requireMfaAbove
       && p.dailyLimit >= p.requireMfaAbove {
      assert Decide(p, 0.0, p.requireMfaAbove, 0.0) == Approved;
    }
  }

  /** Automatic approval looks at a fixed risk of 0.3 only.  Under a policy no approval of a non-negative amount ever
      reaches the risk threshold exactly when that threshold is at least 0.3, or nothing can be approved
      automatically at all. */
  lemma RiskRespectedIff(p: Policy)
    ensures (forall spent, amount, risk :: spent >= 0.0 && amount >= 0.0 && Decide(p, spent, amount, risk) == Approved
              ==> risk < p.riskScoreThreshold)
       <==> p.riskScoreThreshold >= 0.3 || p.autoApproveBelow < 0.0 || p.singleTxLimit < 0.0 || p.dailyLimit < 0.0
  {
    if p.riskScoreThreshold < 0.3 && p.autoApproveBelow >= 0.0 && p.singleTxLimit >= 0.0 && p.dailyLimit >= 0.0 {
      assert Decide(p, 0.0, 0.0, p.riskScoreThreshold) == Approved;
    }
  }

  /** A concrete custom policy under which one approval breaks both conditions. */
  lemma CustomPolicyBypasses()
    ensures var p := Policy(100.0, 1000.0, 50.0, 80.0, 0.2);
      Decide(p, 0.0, 60.0, 0.25) == Approved && 60.0 >= p.requireMfaAbove && 0.25 >= p.riskScoreThreshold
  {
  }

  /** Automatic approval stays below the MFA amount and the risk threshold. */
  predicate Protective(p: Policy) { p.autoApproveBelow < p.requireMfaAbove && p.riskScoreThreshold >= 0.3 }

  lemma DefaultPoliciesProtective(tier: string)
    requires tier in DEFAULT_POLICIES
    ensures Protective(DEFAULT_POLICIES[tier])
  {
  }

  // ---- Whole runs ---------------------------------------------------------------------------------------------------

  /** A transaction to process, and the jitter its latency happens to get. */
  datatype Call = Call(tx: Tx, noise: real)

  ghost function Run(config: Config, start: seq<real>, calls: seq<Call>): (s: State)
    requires config.Valid() && |start| == |config.nodes|
    ensures |s.loads| == |config.nodes|
  {
    if calls == [] then State(map[], start)
    else
      NextState(config, Run(config, start, calls[..|calls| - 1]), calls[|calls| - 1].tx)
  }

  /** The decision on call i of the run. */
  ghost predicate ApprovedAt(config: Config, start: seq<real>, calls: seq<Call>, i: nat)
    requires config.Valid() && |start| == |config.nodes| && i < |calls|
  {
    var s, tx := Run(config, start, calls[..i]), calls[i].tx;
    Decide(PolicyFor(config, tx.tier), Spent(s.spent, tx.user), tx.amount, tx.risk) == Approved
  }

  /** The sum of the user's approved amounts. */
  ghost function ApprovedSum(config: Config, start: seq<real>, calls: seq<Call>, user: string): real
    requires config.Valid() && |start| == |config.nodes|
  {
    if calls == [] then 0.0
    else var n := |calls| - 1;
      ApprovedSum(config, start, calls[..n], user)
      + (if calls[n].tx.user == user && ApprovedAt(config, start, calls, n) then calls[n].tx.amount else 0.0)
  }

  /** The jitters have no influence on the state. */
  lemma {:induction false} JitterNeverShows(config: Config, start: seq<real>, calls: seq<Call>, calls': seq<Call>)
    requires config.Valid() && |start| == |config.nodes|
    requires |calls| == |calls'| && forall i :: 0 <= i < |calls| ==> calls[i].tx == calls'[i].tx
    ensures Run(config, start, calls) == Run(config, start, calls')
  {
    if calls != [] {
      JitterNeverShows(config, start, calls[..|calls| - 1], calls'[..|calls| - 1]);
    }
  }

  /** Conservation: what is recorded as spent is the sum of the approved amounts. */
  lemma {:induction false} SpentIsApproved(config: Config, start: seq<real>, calls: seq<Call>, user: string)
    requires config.Valid() && |start| == |config.nodes|
    ensures Spent(Run(config, start, calls).spent, user) == ApprovedSum(config, start, calls, user)
  {
    if calls != [] {
      var n := |calls| - 1;
      SpentIsApproved(config, start, calls[..n], user);
      SpendingStep(config, Run(config, start, calls[..n]), calls[n].tx, user);
    }
  }

  /** Every approved transaction keeps its user's spending so far, plus its amount, within the daily limit of its
      tier, and its amount within the single limit; under protective policies it is also below the MFA amount and
      the risk threshold. */
  lemma ApprovalsRespectConditions(config: Config, start: seq<real>, calls: seq<Call>, i: nat)
    requires config.Valid() && |start| == |config.nodes| && i < |calls|
    ensures ApprovedAt(config, start, calls, i) ==>
      var p, tx := PolicyFor(config, calls[i].tx.tier), calls[i].tx;
      && ApprovedSum(config, start, calls[..i], tx.user) + tx.amount <= p.dailyLimit
      && tx.amount <= p.singleTxLimit
      && (Protective(p) ==> tx.amount < p.requireMfaAbove && tx.risk < p.riskScoreThreshold)
  {
    SpentIsApproved(config, start, calls[..i], calls[i].tx.user);
  }

  /** Under the default policies every approval of every run respects all four conditions. */
  lemma DefaultApprovalsRespectConditions(config: Config, start: seq<real>, calls: seq<Call>, i: nat)
    requires config.Valid() && |start| == |config.nodes| && i < |calls|
    ensures config.policies == DEFAULT_POLICIES && ApprovedAt(config, start, calls, i) ==>
      var p, tx := PolicyFor(config, calls[i].tx.tier), calls[i].tx;
      && ApprovedSum(config, start, calls[..i], tx.user) + tx.amount <= p.dailyLimit
      && tx.amount <= p.singleTxLimit && tx.amount < p.requireMfaAbove && tx.risk < p.riskScoreThreshold
  {
    if config.policies == DEFAULT_POLICIES && ApprovedAt(config, start, calls, i) {
      ApprovalsRespectConditions(config, start, calls, i);
      DefaultPoliciesProtective(if calls[i].tx.tier in DEFAULT_POLICIES then calls[i].tx.tier else BASIC);
    }
  }

  /** The limits that apply to the user's transactions are at most bound. */
  ghost predicate LimitedBy(config: Config, calls: seq<Call>, user: string, bound: real)
    requires config.Valid()
  {
    forall i :: 0 <= i < |calls| && calls[i].tx.user == user ==> PolicyFor(config, calls[i].tx.tier).dailyLimit <= bound
  }

  /** A user's spending never exceeds a bound on the daily limits of the tiers it was approved under: the largest
      tier's limit in general, the user's own when the tier never changes. */
  lemma {:induction false} SpendingBounded(config: Config, start: seq<real>, calls: seq<Call>, user: string,
                                           bound: real)
    requires config.Valid() && |start| == |config.nodes| && bound >= 0.0 && LimitedBy(config, calls, user, bound)
    ensures Spent(Run(config, start, calls).spent, user) <= bound
  {
    if calls != [] {
      var n := |calls| - 1;
      SpendingBounded(config, start, calls[..n], user, bound);
      SpendingStep(config, Run(config, start, calls[..n]), calls[n].tx, user);
    }
  }

  /** A transaction changes its own user's spending only, by its amount if approved and not at all otherwise; an
      approved one stays within the daily limit, and any other changes nothing at all. */
  lemma SpendingStep(config: Config, s: State, tx: Tx, user: string)
    requires config.Valid() && |s.loads| == |config.nodes|
    ensures var s', p := NextState(config, s, tx), PolicyFor(config, tx.tier);
      var decision := Decide(p, Spent(s.spent, tx.user), tx.amount, tx.risk);
      && Spent(s'.spent, user) - Spent(s.spent, user)
         == (if decision == Approved && user == tx.user then tx.amount else 0.0)
      && (decision == Approved ==> Spent(s'.spent, tx.user) <= p.dailyLimit)
      && (decision != Approved ==> s' == s)
  {
  }

  ghost predicate LoadsOk(loads: seq<real>) {
    forall i :: 0 <= i < |loads| ==> 0.0 <= loads[i] <= 1.0
  }

  lemma ChargeLoads(config: Config, s: State, tx: Tx, edge: Edge)
    requires config.Valid() && |s.loads| == |config.nodes| && LoadsOk(s.loads)
    requires edge.Node? ==> edge.index < |config.nodes|
    ensures var loads := Charge(config, s, tx, edge).loads;
      LoadsOk(loads) && |loads| == |s.loads| && forall i :: 0 <= i < |s.loads| ==> s.loads[i] <= loads[i]
  {
    if edge.Node? {
      assert 1.0 / config.nodes[edge.index].capacityTps as real > 0.0;
    }
  }

  lemma LoadStep(config: Config, s: State, tx: Tx)
    requires config.Valid() && |s.loads| == |config.nodes| && LoadsOk(s.loads)
    ensures var s' := NextState(config, s, tx);
      LoadsOk(s'.loads) && |s'.loads| == |s.loads| && forall i :: 0 <= i < |s.loads| ==> s.loads[i] <= s'.loads[i]
  {
    ChargeLoads(config, s, tx, SelectEdge(config.nodes, s.loads, tx.region));
  }

  /** Node loads stay within [0, 1] and never fall. */
  lemma {:induction false} LoadsWithinBounds(config: Config, start: seq<real>, calls: seq<Call>)
    requires config.Valid() && |start| == |config.nodes| && LoadsOk(start)
    ensures LoadsOk(Run(config, start, calls).loads)
    ensures forall i :: 0 <= i < |start| ==> start[i] <= Run(config, start, calls).loads[i]
  {
    if calls != [] {
      var n := |calls| - 1;
      LoadsWithinBounds(config, start, calls[..n]);
      LoadStep(config, Run(config, start, calls[..n]), calls[n].tx);
    }
  }

  /** The approved transactions that node i handled. */
  ghost function Handled(config: Config, start: seq<real>, calls: seq<Call>, i: nat): nat
    requires config.Valid() && |start| == |config.nodes|
  {
    if calls == [] then 0
    else var n := |calls| - 1;
      Handled(config, start, calls[..n], i) + (if HandledAt(config, start, calls, n, i) then 1 else 0)
  }

  /** Call n of the run is approved on node i. */
  ghost predicate HandledAt(config: Config, start: seq<real>, calls: seq<Call>, n: nat, i: nat)
    requires config.Valid() && |start| == |config.nodes| && n < |calls|
  {
    && ApprovedAt(config, start, calls, n)
    && SelectEdge(config.nodes, Run(config, start, calls[..n]).loads, calls[n].tx.region) == Node(i)
  }

  lemma LoadAfter(config: Config, s: State, tx: Tx, i: nat)
    requires config.Valid() && |s.loads| == |config.nodes| && i < |s.loads|
    ensures NextState(config, s, tx).loads[i]
         == if Decide(PolicyFor(config, tx.tier), Spent(s.spent, tx.user), tx.amount, tx.risk) == Approved
               && SelectEdge(config.nodes, s.loads, tx.region) == Node(i)
            then Min(1.0, s.loads[i] + ShareOf(config, i)) else s.loads[i]
  {
  }

  /** The load after k transactions that each take a share of the capacity. */
  function LoadWith(start: real, k: nat, share: real): real { Min(1.0, start + k as real * share) }

  ghost function ShareOf(config: Config, i: nat): real
    requires config.Valid() && i < |config.nodes|
  {
    1.0 / config.nodes[i].capacityTps as real
  }

  lemma OneMore(start: real, k: nat, share: real)
    requires share > 0.0
    ensures Min(1.0, LoadWith(start, k, share) + share) == LoadWith(start, k + 1, share)
  {
    assert (k + 1) as real * share == k as real * share + share;
  }

  lemma NoneYet(start: real, share: real)
    requires start <= 1.0
    ensures LoadWith(start, 0, share) == start
  {
    assert 0 as real * share == 0.0;
  }

  /** A node's load after a run is its initial load and a share of its capacity for every approved transaction it
      handled, capped at one. */
  lemma {:induction false} LoadIsHandled(config: Config, start: seq<real>, calls: seq<Call>, i: nat)
    requires config.Valid() && |start| == |config.nodes| && i < |start| && LoadsOk(start)
    ensures Run(config, start, calls).loads[i]
         == LoadWith(start[i], Handled(config, start, calls, i), ShareOf(config, i))
  {
    if calls == [] {
      NoneYet(start[i], ShareOf(config, i));
    } else {
      var n := |calls| - 1;
      LoadIsHandled(config, start, calls[..n], i);
      LoadAfter(config, Run(config, start, calls[..n]), calls[n].tx, i);
      OneMore(start[i], Handled(config, start, calls[..n], i), ShareOf(config, i));
    }
  }

  // ---- Construction ------------------------------------------------------------------------------------------------

  const DEFAULT_NODES: seq<NodeInfo> := [
    NodeInfo("mec-seoul-1", "seoul", 5.0, 1000, true), NodeInfo("mec-seoul-2", "seoul", 6.0, 800, true),
    NodeInfo("mec-busan-1", "busan", 7.0, 600, true), NodeInfo("mec-daegu-1", "daegu", 8.0, 500, true),
    NodeInfo("mec-gwangju-1", "gwangju", 9.0, 400, true)]

  /** mec_nodes or the default ones: an empty list counts as not given. */
  function InitialNodes(given: Option<seq<NodeInfo>>): seq<NodeInfo> {
    if given.None? || given.value == [] then DEFAULT_NODES else given.value
  }

  /** A processor works on the cloud alone exactly when it was given nodes and all of them are inactive; an empty
      node list, as the cloud-only simulation passes it, still yields the default edge nodes. */
  lemma CloudOnlyIff(given: Option<seq<NodeInfo>>, loads: seq<real>, region: string)
    requires |loads| == |InitialNodes(given)|
    ensures SelectEdge(InitialNodes(given), loads, region) == Cloud
       <==> given.Some? && given.value != [] && forall i :: 0 <= i < |given.value| ==> !given.value[i].isActive
  {
    assert DEFAULT_NODES[0].isActive;
  }
}
