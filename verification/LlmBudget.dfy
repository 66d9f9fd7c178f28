/**
 Agent spend limits and the key budgets that mirror them (api/domains/agents/llm_budget.py,
 api/domains/agent_settings/service.py). Money is real-valued.
 */
module LlmBudget {
  import opened Common

  type AgentId = nat

  datatype OrgLimit = OrgLimit(limit: real, onCredit: bool, window: string)
  datatype Source = FromAgent | FromDefault | FromOrganization
  datatype Resolved = Resolved(limit: real, source: Source)
  /** A live Agent that has a key. */
  datatype Agent = Agent(id: AgentId, own: Option<real>)
  /** What a key carries at the proxy. */
  datatype Budget = Budget(limit: real, window: string)

  function ResolveLimit(own: Option<real>, default_: real, org: OrgLimit): Resolved {
    if org.onCredit then Resolved(org.limit, FromOrganization)
    else
      var wanted := if own.Some? then own.value else default_;
      if wanted > org.limit then Resolved(org.limit, FromOrganization)
      else Resolved(wanted, if own.Some? then FromAgent else FromDefault)
  }

  /**
   Outside credit the limit is the smaller of the wanted one and the Organization's, and the source says
   which rule decided.
   */
  lemma ResolveLimitIsCap(own: Option<real>, default_: real, org: OrgLimit)
    ensures var r := ResolveLimit(own, default_, org);
            && r.limit <= org.limit && (r.source == FromOrganization ==> r.limit == org.limit)
            && (org.onCredit ==> r.source == FromOrganization)
            && (r.source == FromAgent ==> own == Some(r.limit))
            && (r.source == FromDefault ==> own == None && r.limit == default_)
            && (!org.onCredit ==> (r.source == FromOrganization <==>
                  (if own.Some? then own.value else default_) > org.limit))
  {
  }

  function BudgetOf(a: Agent, default_: real, org: OrgLimit): Budget {
    Budget(ResolveLimit(a.own, default_, org).limit, org.window)
  }

  ghost predicate Distinct(agents: seq<Agent>) {
    forall i, j :: 0 <= i < j < |agents| ==> agents[i].id != agents[j].id
  }

  /** The stored row once a limit above the Organization's has been pulled down to it. */
  function LoweredRow(a: Agent, limit: real): Agent {
    if a.own.Some? && a.own.value > limit then a.(own := Some(limit)) else a
  }

  function Lowered(agents: seq<Agent>, limit: real): seq<Agent> {
    seq(|agents|, i requires 0 <= i < |agents| => LoweredRow(agents[i], limit))
  }

  /** The limit in force never exceeds the Organization's, and lowering a stored row never moves it. */
  lemma LoweringChangesNoLimit(a: Agent, default_: real, org: OrgLimit)
    ensures BudgetOf(LoweredRow(a, org.limit), default_, org) == BudgetOf(a, default_, org)
    ensures BudgetOf(a, default_, org).limit <= org.limit
    ensures LoweredRow(a, org.limit).own.Some? ==> LoweredRow(a, org.limit).own.value <= org.limit
  {
  }

  /** The snapshot taken before an Organization-wide change. */
  function KeyLimits(agents: seq<Agent>, default_: real, org: OrgLimit): map<AgentId, Budget> {
    if agents == [] then map[]
    else
      var last := agents[|agents| - 1];
      KeyLimits(agents[..|agents| - 1], default_, org)[last.id := BudgetOf(last, default_, org)]
  }

  lemma {:induction false} KeyLimitsOf(agents: seq<Agent>, default_: real, org: OrgLimit, i: nat)
    requires Distinct(agents) && i < |agents|
    ensures agents[i].id in KeyLimits(agents, default_, org)
    ensures KeyLimits(agents, default_, org)[agents[i].id] == BudgetOf(agents[i], default_, org)
  {
    if i < |agents| - 1 { KeyLimitsOf(agents[..|agents| - 1], default_, org, i); }
  }

  /** Every key carries its Agent's resolved limit and the Organization's window. */
  ghost predicate InStep(keys: map<AgentId, Budget>, agents: seq<Agent>, default_: real, org: OrgLimit) {
    forall i :: 0 <= i < |agents| ==> agents[i].id in keys && keys[agents[i].id] == BudgetOf(agents[i], default_, org)
  }

  /** The keys a fit rewrites: all of them, or those whose resolved budget differs from the snapshot. */
  predicate Moves(a: Agent, default_: real, org: OrgLimit, before: Option<map<AgentId, Budget>>) {
    before.None? || a.id !in before.value || before.value[a.id] != BudgetOf(a, default_, org)
  }

  class Proxy {
    var keys: map<AgentId, Budget>

    /** Writes one key's budget; an unreachable proxy leaves it as it was. */
    method Push(a: Agent, default_: real, org: OrgLimit, reachable: bool) returns (ok: bool)
      modifies this
      ensures ok == reachable
      ensures keys == if reachable then old(keys)[a.id := BudgetOf(a, default_, org)] else old(keys)
    {
      if reachable { keys := keys[a.id := Budget(ResolveLimit(a.own, default_, org).limit, org.window)]; }
      ok := reachable;
    }
  }

  predicate SameKey(keys: map<AgentId, Budget>, was: map<AgentId, Budget>, id: AgentId) {
    (id in keys <==> id in was) && (id in keys ==> keys[id] == was[id])
  }

  predicate Among(agents: seq<Agent>, id: AgentId) { exists i :: 0 <= i < |agents| && agents[i].id == id }

  ghost predicate OthersKept(keys: map<AgentId, Budget>, was: map<AgentId, Budget>, agents: seq<Agent>) {
    forall id :: !Among(agents, id) ==> SameKey(keys, was, id)
  }

  lemma WriteKeepsOthers(keys: map<AgentId, Budget>, was: map<AgentId, Budget>, agents: seq<Agent>, n: nat,
                         budget: Budget)
    requires OthersKept(keys, was, agents) && n < |agents|
    ensures OthersKept(keys[agents[n].id := budget], was, agents)
  {
    forall id | !Among(agents, id) ensures SameKey(keys[agents[n].id := budget], was, id) {
      assert agents[n].id != id && SameKey(keys, was, id);
    }
  }

  /** The key of one Agent after a fit over `agents`. */
  ghost predicate Fitted(keys: map<AgentId, Budget>, was: map<AgentId, Budget>, a: Agent, default_: real, org: OrgLimit,
                         before: Option<map<AgentId, Budget>>, reachable: set<AgentId>) {
    if Moves(a, default_, org, before) && a.id in reachable
    then a.id in keys && keys[a.id] == BudgetOf(a, default_, org)
    else SameKey(keys, was, a.id)
  }

  ghost predicate AllFitted(keys: map<AgentId, Budget>, was: map<AgentId, Budget>, agents: seq<Agent>, default_: real,
                            org: OrgLimit, before: Option<map<AgentId, Budget>>, reachable: set<AgentId>) {
    forall i :: 0 <= i < |agents| ==> Fitted(keys, was, agents[i], default_, org, before, reachable)
  }

  function Failures(agents: seq<Agent>, default_: real, org: OrgLimit, before: Option<map<AgentId, Budget>>,
                    reachable: set<AgentId>): seq<Agent> {
    Filter(agents, (a: Agent) => Moves(a, default_, org, before) && a.id !in reachable)
  }

  /** Lowers the rows, then rewrites every key that moved. Returns how many could not be written. */
  method FitToOrganization(proxy: Proxy, agents: seq<Agent>, default_: real, org: OrgLimit,
                           before: Option<map<AgentId, Budget>>, reachable: set<AgentId>, configured: bool)
    returns (rows: seq<Agent>, failures: nat)
    requires Distinct(agents)
    modifies proxy
    ensures rows == Lowered(agents, org.limit)
    ensures configured ==> AllFitted(proxy.keys, old(proxy.keys), agents, default_, org, before, reachable)
    ensures OthersKept(proxy.keys, old(proxy.keys), agents)
    ensures configured ==> failures == |Failures(agents, default_, org, before, reachable)|
    ensures !configured ==> proxy.keys == old(proxy.keys) && failures == 0
  {
    rows := Lowered(agents, org.limit);
    failures := 0;
    if !configured { return; }
    for n := 0 to |rows|
      invariant forall i :: 0 <= i < n ==>
                    Fitted(proxy.keys, old(proxy.keys), agents[i], default_, org, before, reachable)
      invariant forall i :: n <= i < |agents| ==>
                  (agents[i].id in proxy.keys <==> agents[i].id in old(proxy.keys))
                  && (agents[i].id in proxy.keys ==> proxy.keys[agents[i].id] == old(proxy.keys)[agents[i].id])
      invariant OthersKept(proxy.keys, old(proxy.keys), agents)
      invariant failures == |Failures(agents[..n], default_, org, before, reachable)|
    {
      LoweringChangesNoLimit(agents[n], default_, org);
      assert agents[..n + 1][..n] == agents[..n];
      var limit := ResolveLimit(rows[n].own, default_, org).limit;
      var budget := Budget(limit, org.window);
      if before.Some? && rows[n].id in before.value && before.value[rows[n].id] == budget { continue; }
      WriteKeepsOthers(proxy.keys, old(proxy.keys), agents, n, BudgetOf(rows[n], default_, org));
      var ok := proxy.Push(rows[n], default_, org, rows[n].id in reachable);
      if !ok { failures := failures + 1; }
    }
    assert agents[..|agents|] == agents;
  }

  // ----- The incremental mirror agrees with a full rebuild -----

  ghost predicate Matches(keys: map<AgentId, Budget>, agents: seq<Agent>, before: map<AgentId, Budget>) {
    forall i :: 0 <= i < |agents| ==>
      agents[i].id in before && agents[i].id in keys && keys[agents[i].id] == before[agents[i].id]
  }

  /**
   If every key matched the snapshot and every push succeeds, rewriting only what moved leaves the same key
   budgets as rewriting all.
   */
  lemma IncrementalEqualsFull(was: map<AgentId, Budget>, agents: seq<Agent>, default_: real, org: OrgLimit,
                              before: map<AgentId, Budget>, reachable: set<AgentId>,
                              some: map<AgentId, Budget>, all: map<AgentId, Budget>)
    requires Matches(was, agents, before) && forall i :: 0 <= i < |agents| ==> agents[i].id in reachable
    requires AllFitted(some, was, agents, default_, org, Some(before), reachable)
    requires AllFitted(all, was, agents, default_, org, None, reachable)
    ensures InStep(some, agents, default_, org) && InStep(all, agents, default_, org)
    ensures forall i :: 0 <= i < |agents| ==>
              && some[agents[i].id] == all[agents[i].id] && some[agents[i].id].limit <= org.limit
              && some[agents[i].id].limit == ResolveLimit(agents[i].own, default_, org).limit
              && some[agents[i].id].window == org.window
  {
    forall i | 0 <= i < |agents|
      ensures agents[i].id in some && some[agents[i].id] == BudgetOf(agents[i], default_, org)
      ensures agents[i].id in all && all[agents[i].id] == BudgetOf(agents[i], default_, org)
    {
      assert Fitted(some, was, agents[i], default_, org, Some(before), reachable);
      assert Fitted(all, was, agents[i], default_, org, None, reachable);
    }
  }

  /**
   After an incremental fit exactly the keys whose push failed are out of step, so the returned count is
   their number.
   */
  lemma OutOfStepIsFailed(was: map<AgentId, Budget>, agents: seq<Agent>, default_: real, org: OrgLimit,
                          before: map<AgentId, Budget>, reachable: set<AgentId>, keys: map<AgentId, Budget>)
    requires Matches(was, agents, before) && AllFitted(keys, was, agents, default_, org, Some(before), reachable)
    ensures Failures(agents, default_, org, Some(before), reachable) ==
              Filter(agents, (a: Agent) => !(a.id in keys && keys[a.id] == BudgetOf(a, default_, org)))
  {
    forall a | a in agents
      ensures (Moves(a, default_, org, Some(before)) && a.id !in reachable) <==>
                !(a.id in keys && keys[a.id] == BudgetOf(a, default_, org))
    {
      var i :| 0 <= i < |agents| && agents[i] == a;
      assert Fitted(keys, was, agents[i], default_, org, Some(before), reachable);
    }
    FilterAgree(agents, (a: Agent) => Moves(a, default_, org, Some(before)) && a.id !in reachable,
                (a: Agent) => !(a.id in keys && keys[a.id] == BudgetOf(a, default_, org)));
  }

  // ----- Reconciliation -----

  /** The Agents of one Organization; `broken` when reading its limits fails. */
  datatype Group = Group(agents: seq<Agent>, default_: real, org: OrgLimit, broken: bool)

  ghost predicate Apart(g: Group, h: Group) {
    forall i, j :: 0 <= i < |g.agents| && 0 <= j < |h.agents| ==> g.agents[i].id != h.agents[j].id
  }

  /** A reachable key carries its Agent's resolved limit; any other is as it was. */
  ghost predicate Repaired(g: Group, keys: map<AgentId, Budget>, was: map<AgentId, Budget>, reachable: set<AgentId>) {
    forall i :: 0 <= i < |g.agents| ==>
      var a := g.agents[i];
      if !g.broken && a.id in reachable then a.id in keys && keys[a.id] == BudgetOf(a, g.default_, g.org)
      else SameKey(keys, was, a.id)
  }

  ghost predicate Untouched(g: Group, keys: map<AgentId, Budget>, was: map<AgentId, Budget>) {
    forall i :: 0 <= i < |g.agents| ==> SameKey(keys, was, g.agents[i].id)
  }

  /** The Agent belongs to none of the groups. */
  predicate Outside(groups: seq<Group>, id: AgentId) {
    forall g :: 0 <= g < |groups| ==> !Among(groups[g].agents, id)
  }

  function Unreached(groups: seq<Group>, reachable: set<AgentId>): nat {
    if groups == [] then 0
    else
      var g := groups[|groups| - 1];
      Unreached(groups[..|groups| - 1], reachable)
      + if g.broken then 1 else |Filter(g.agents, (a: Agent) => a.id !in reachable)|
  }

  /**
   The scheduled repair: whatever the keys held before, every reachable key of a readable Organization ends
   with its Agent's resolved limit, no other key changes, and one broken Organization stops no other.
   */
  method Reconcile(proxy: Proxy, groups: seq<Group>, reachable: set<AgentId>, configured: bool) returns (failures: nat)
    requires forall g :: 0 <= g < |groups| ==> Distinct(groups[g].agents)
    requires forall g, h :: 0 <= g < h < |groups| ==> Apart(groups[g], groups[h])
    modifies proxy
    ensures configured ==> forall g :: 0 <= g < |groups| ==> Repaired(groups[g], proxy.keys, old(proxy.keys), reachable)
    ensures configured ==> failures == Unreached(groups, reachable)
    ensures forall id :: Outside(groups, id) ==> SameKey(proxy.keys, old(proxy.keys), id)
    ensures !configured ==> proxy.keys == old(proxy.keys)
  {
    failures := 0;
    if !configured { return; }
    for n := 0 to |groups|
      invariant forall g :: 0 <= g < n ==> Repaired(groups[g], proxy.keys, old(proxy.keys), reachable)
      invariant forall g :: n <= g < |groups| ==> Untouched(groups[g], proxy.keys, old(proxy.keys))
      invariant failures == Unreached(groups[..n], reachable)
      invariant forall id :: Outside(groups, id) ==> SameKey(proxy.keys, old(proxy.keys), id)
    {
      assert groups[..n + 1][..n] == groups[..n];
      ghost var was := proxy.keys;
      var g := groups[n];
      if g.broken {
        failures := failures + 1;
      } else {
        var _, failed := FitToOrganization(proxy, g.agents, g.default_, g.org, None, reachable, true);
        failures := failures + failed;
        AllUnreachable(g, reachable);
        forall id | Outside(groups, id) ensures SameKey(proxy.keys, was, id) { assert !Among(groups[n].agents, id); }
        FitRepairs(g, proxy.keys, was, old(proxy.keys), reachable);
        forall h | 0 <= h < |groups| && h != n ensures Untouched(groups[h], proxy.keys, was) {
          assert if h < n then Apart(groups[h], groups[n]) else Apart(groups[n], groups[h]);
        }
      }
      forall h | 0 <= h < n ensures Repaired(groups[h], proxy.keys, old(proxy.keys), reachable) {
        if !g.broken { assert Untouched(groups[h], proxy.keys, was); }
      }
    }
    assert groups[..|groups|] == groups;
  }

  lemma AllUnreachable(g: Group, reachable: set<AgentId>)
    ensures Failures(g.agents, g.default_, g.org, None, reachable) == Filter(g.agents, (a: Agent) => a.id !in reachable)
  {
    FilterAgree(g.agents, (a: Agent) => Moves(a, g.default_, g.org, None) && a.id !in reachable,
                (a: Agent) => a.id !in reachable);
  }

  lemma FitRepairs(g: Group, keys: map<AgentId, Budget>, was: map<AgentId, Budget>, start: map<AgentId, Budget>,
                   reachable: set<AgentId>)
    requires !g.broken && AllFitted(keys, was, g.agents, g.default_, g.org, None, reachable) && Untouched(g, was, start)
    ensures Repaired(g, keys, start, reachable)
  {
    forall i | 0 <= i < |g.agents| ensures Fitted(keys, was, g.agents[i], g.default_, g.org, None, reachable) { }
  }

  /**
   Storing a new default: snapshot, write, fit. Keys of Agents with a limit of their own are left alone.
   From keys that were in step, a key ends out of step exactly when its budget moved and its push failed.
   */
  method StoreDefault(proxy: Proxy, agents: seq<Agent>, default_: real, candidate: real, org: OrgLimit,
                      reachable: set<AgentId>, configured: bool)
    returns (rows: seq<Agent>)
    requires Distinct(agents)
    modifies proxy
    ensures rows == Lowered(agents, org.limit)
    ensures forall i :: 0 <= i < |agents| && agents[i].own.Some? ==> SameKey(proxy.keys, old(proxy.keys), agents[i].id)
    ensures configured && InStep(old(proxy.keys), agents, default_, org) ==> forall i :: 0 <= i < |agents| ==>
              && agents[i].id in proxy.keys
              && (proxy.keys[agents[i].id] == BudgetOf(agents[i], candidate, org) <==>
                    BudgetOf(agents[i], candidate, org) == BudgetOf(agents[i], default_, org)
                      || agents[i].id in reachable)
  {
    var before := KeyLimits(agents, default_, org);
    forall i | 0 <= i < |agents|
      ensures agents[i].id in before && before[agents[i].id] == BudgetOf(agents[i], default_, org)
    {
      KeyLimitsOf(agents, default_, org, i);
    }
    var failures;
    rows, failures := FitToOrganization(proxy, agents, candidate, org, Some(before), reachable, configured);
    if configured {
      forall i | 0 <= i < |agents|
        ensures Fitted(proxy.keys, old(proxy.keys), agents[i], candidate, org, Some(before), reachable) { }
    }
  }
}
