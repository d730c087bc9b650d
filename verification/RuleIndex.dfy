/**
 The per-generation lookup snapshot: an exact-match hash, a longest-prefix table and an action
 store, built from rule lists. DPDK tables are given their contract: `rte_hash` is a map, `rte_lpm`
 a map from prefix and depth searched from depth 32 down; allocations and insertions may fail.
 */
module RuleIndex {
  import opened Wrappers
  import opened Bytes
  import opened Actions
  import opened Parser
  import opened Rules

  // ---------- Allocation ----------

  /** What the environment answers to an allocation: granted, or refused with `rte_errno`. */
  datatype Grant = Granted | Refused(errno: nat)

  /** Every answer of the environment during one build. Insertions return a negative code on failure. */
  datatype BuildEnv = BuildEnv(snapshot: Grant, actions: Grant, flowTable: Grant, routeTable: Grant,
                               addFlow: nat -> int, addRoute: nat -> int)

  ghost predicate Grants(env: BuildEnv, rs: RuleSet) {
    && env.snapshot.Granted?
    && (rs.flows != [] || rs.routes != [] ==> env.actions.Granted?)
    && (rs.flows != [] ==> env.flowTable.Granted?)
    && (rs.routes != [] ==> env.routeTable.Granted?)
    && (forall i | 0 <= i < |rs.flows| :: env.addFlow(i) >= 0)
    && (forall i | 0 <= i < |rs.routes| :: env.addRoute(i) >= 0)
  }

  function Refusal(g: Grant): (ret: int)
    requires g.Refused?
    ensures ret < 0 && (g.errno != 0 ==> ret == 0 - g.errno)
    ensures g.errno == 0 ==> ret == -12
  {
    0 - if g.errno != 0 then g.errno else ENOMEM
  }

  /** How many objects of each kind are alive. */
  datatype Live = Live(snapshots: nat, stores: nat, flowTables: nat, routeTables: nat) {
    function Plus(other: Live): Live {
      Live(snapshots + other.snapshots, stores + other.stores, flowTables + other.flowTables, routeTables + other.routeTables)
    }

    predicate Covers(other: Live) {
      snapshots >= other.snapshots && stores >= other.stores && flowTables >= other.flowTables && routeTables >= other.routeTables
    }
  }

  /** The live DPDK objects of the rule path. */
  class Heap {
    var live: Live

    constructor ()
      ensures live == Live(0, 0, 0, 0)
    {
      live := Live(0, 0, 0, 0);
    }
  }

  /** The counters of `dp_stats` that rule snapshots touch. */
  class RuleStats {
    var flowTableFreed: bool
    var routeTableFreed: bool
    var actionStoreFreed: bool
    var snapshotFreed: bool
    var reclaimed: nat
  }

  // ---------- The snapshot ----------

  class Snapshot {
    var flowTable: Option<map<FlowKey, nat>>
    var routeTable: Option<map<RouteKey, nat>>
    var actions: seq<RuleAction>
    const generation: nat

    constructor (generation: nat)
      ensures this.generation == generation && flowTable.None? && routeTable.None? && actions == []
    {
      this.generation := generation;
      flowTable, routeTable, actions := None, None, [];
    }
  }

  function Count(present: bool): nat {
    if present then 1 else 0
  }

  /** The objects a snapshot owns. */
  function Resources(s: Snapshot): Live
    reads s
  {
    Live(1, Count(s.actions != []), Count(s.flowTable.Some?), Count(s.routeTable.Some?))
  }

  /** Flow `i` of the list is entry `i` of the store, and the hash holds the listed keys and no others. */
  ghost predicate FlowsIndexed(table: map<FlowKey, nat>, actions: seq<RuleAction>, flows: seq<FlowRule>) {
    && |flows| <= |actions|
    && (forall i | 0 <= i < |flows| ::
          FlowRuleKey(flows[i]) in table && table[FlowRuleKey(flows[i])] == i && actions[i] == flows[i].action)
    && (forall k | k in table :: exists i | 0 <= i < |flows| :: FlowRuleKey(flows[i]) == k)
  }

  /** Route `i` is entry `base + i` of the store. */
  ghost predicate RoutesIndexed(table: map<RouteKey, nat>, actions: seq<RuleAction>, base: nat, routes: seq<RouteRule>) {
    && base + |routes| <= |actions|
    && (forall i | 0 <= i < |routes| ::
          RouteRuleKey(routes[i]) in table && table[RouteRuleKey(routes[i])] == base + i && actions[base + i] == routes[i].action)
    && (forall k | k in table :: exists i | 0 <= i < |routes| :: RouteRuleKey(routes[i]) == k)
  }

  /** The snapshot is the index of `rs`. */
  ghost predicate Indexes(s: Snapshot, rs: RuleSet)
    reads s
  {
    && |s.actions| == |rs.flows| + |rs.routes|
    && s.flowTable.Some? == (rs.flows != []) && s.routeTable.Some? == (rs.routes != [])
    && (s.flowTable.Some? ==> FlowsIndexed(s.flowTable.value, s.actions, rs.flows))
    && (s.routeTable.Some? ==> RoutesIndexed(s.routeTable.value, s.actions, |rs.flows|, rs.routes))
  }

  // ---------- Free and build ----------

  /** The two tables of a snapshot, each freed if it exists. */
  method FreeTables(heap: Heap, s: Snapshot, record: bool, stats: RuleStats)
    requires heap.live.Covers(Resources(s))
    modifies heap, stats`flowTableFreed, stats`routeTableFreed
    ensures var before := old(heap.live);
            heap.live == before.(flowTables := before.flowTables - Count(s.flowTable.Some?),
                                 routeTables := before.routeTables - Count(s.routeTable.Some?))
    ensures stats.flowTableFreed == (old(stats.flowTableFreed) || (record && s.flowTable.Some?))
    ensures stats.routeTableFreed == (old(stats.routeTableFreed) || (record && s.routeTable.Some?))
    ensures !record ==> unchanged(stats)
  {
    if s.flowTable.Some? {
      heap.live := heap.live.(flowTables := heap.live.flowTables - 1);
      if record {
        stats.flowTableFreed := true;
      }
    }
    if s.routeTable.Some? {
      heap.live := heap.live.(routeTables := heap.live.routeTables - 1);
      if record {
        stats.routeTableFreed := true;
      }
    }
  }

  method SnapshotFree(heap: Heap, s: Snapshot, reclaimed: bool, record: bool, stats: RuleStats)
    requires heap.live.Covers(Resources(s))
    modifies heap, stats
    ensures heap.live.Plus(Resources(s)) == old(heap.live)
    ensures stats.reclaimed == old(stats.reclaimed) + if reclaimed then 1 else 0
    ensures stats.flowTableFreed == (old(stats.flowTableFreed) || (record && s.flowTable.Some?))
    ensures stats.routeTableFreed == (old(stats.routeTableFreed) || (record && s.routeTable.Some?))
    ensures stats.actionStoreFreed == (old(stats.actionStoreFreed) || (record && s.actions != []))
    ensures stats.snapshotFreed == (old(stats.snapshotFreed) || record)
    ensures !record && !reclaimed ==> unchanged(stats)
  {
    FreeTables(heap, s, record, stats);
    if s.actions != [] {
      heap.live := heap.live.(stores := heap.live.stores - 1);
      if record {
        stats.actionStoreFreed := true;
      }
    }
    heap.live := heap.live.(snapshots := heap.live.snapshots - 1);
    if record {
      stats.snapshotFreed := true;
    }
    if reclaimed {
      stats.reclaimed := stats.reclaimed + 1;
    }
  }

  /**
   `dp_snapshot_build`. It succeeds exactly for a valid rule set in a granting environment; then the
   result indexes the rules and owns its objects. A failed build leaves no object behind.
   */
  method SnapshotBuild(heap: Heap, rs: RuleSet, generation: nat, env: BuildEnv, stats: RuleStats)
    returns (ret: int, result: Snapshot?)
    modifies heap, stats
    ensures ret == 0 || ret < 0
    ensures unchanged(stats)
    ensures ret < 0 <==> result == null
    ensures ret == 0 <==> ValidRules(rs) && Grants(env, rs)
    ensures BuildCode(rs, env, ret)
    ensures result != null ==> fresh(result) && result.generation == generation && Indexes(result, rs)
    ensures heap.live == if result != null then old(heap.live).Plus(Resources(result)) else old(heap.live)
  {
    hide ValidRules, Grants, FlowsInsertable, RoutesInsertable, FlowsCode, RoutesCode, Indexes;
    BuildsExactly(rs, env);
    if |rs.flows| > MAX_FLOW_RULES || |rs.routes| > MAX_ROUTE_RULES {
      return -ENOSPC, null;
    }
    if env.snapshot.Refused? {
      return Refusal(env.snapshot), null;
    }
    var s := new Snapshot(generation);
    heap.live := heap.live.(snapshots := heap.live.snapshots + 1);
    ret := AllocateTables(heap, s, rs, env);
    if ret == 0 {
      ret := FillTables(s, rs, env);
    }
    if ret < 0 {
      SnapshotFree(heap, s, false, false, stats);
      return ret, null;
    }
    return 0, s;
  }

  /** What the checks of a build amount to. */
  lemma BuildsExactly(rs: RuleSet, env: BuildEnv)
    ensures ValidRules(rs) && Grants(env, rs) <==>
            && |rs.flows| <= MAX_FLOW_RULES && |rs.routes| <= MAX_ROUTE_RULES
            && env.snapshot.Granted? && AllocationCode(rs, env) == 0
            && FlowsInsertable(rs.flows, env) && RoutesInsertable(rs.routes, env)
  {
    hide ValidFlow, ValidRoute, DistinctFlows, DistinctRoutes;
  }

  const ZEROED := RuleAction(0, 0, 0, 0, 0, 0)

  method AllocateTables(heap: Heap, s: Snapshot, rs: RuleSet, env: BuildEnv) returns (ret: int)
    requires s.flowTable.None? && s.routeTable.None? && s.actions == []
    modifies heap, s
    ensures heap.live.Plus(Live(1, 0, 0, 0)) == old(heap.live).Plus(Resources(s))
    ensures ret == AllocationCode(rs, env) <= 0
    ensures ret == 0 <==> (rs.flows != [] || rs.routes != [] ==> env.actions.Granted?)
                          && (rs.flows != [] ==> env.flowTable.Granted?) && (rs.routes != [] ==> env.routeTable.Granted?)
    ensures ret == 0 ==>
              && |s.actions| == |rs.flows| + |rs.routes|
              && s.flowTable == (if rs.flows != [] then Some(map[]) else None)
              && s.routeTable == (if rs.routes != [] then Some(map[]) else None)
  {
    var total := |rs.flows| + |rs.routes|;
    if total != 0 {
      if env.actions.Refused? {
        return Refusal(env.actions);
      }
      s.actions := seq(total, _ => ZEROED);
      heap.live := heap.live.(stores := heap.live.stores + 1);
    }
    if |rs.flows| != 0 {
      if env.flowTable.Refused? {
        return Refusal(env.flowTable);
      }
      s.flowTable := Some(map[]);
      heap.live := heap.live.(flowTables := heap.live.flowTables + 1);
    }
    if |rs.routes| != 0 {
      if env.routeTable.Refused? {
        return Refusal(env.routeTable);
      }
      s.routeTable := Some(map[]);
      heap.live := heap.live.(routeTables := heap.live.routeTables + 1);
    }
    return 0;
  }

  /** The rules as the builder checks them one by one; the counts were checked before. */
  ghost predicate FlowsInsertable(flows: seq<FlowRule>, env: BuildEnv) {
    (forall i | 0 <= i < |flows| :: ValidFlow(flows[i]) && env.addFlow(i) >= 0) && DistinctFlows(flows)
  }

  ghost predicate RoutesInsertable(routes: seq<RouteRule>, env: BuildEnv) {
    (forall i | 0 <= i < |routes| :: ValidRoute(routes[i]) && env.addRoute(i) >= 0) && DistinctRoutes(routes)
  }

  /** What inserting flow `i` returns when the flows before it are in the table. */
  ghost function FlowCode(flows: seq<FlowRule>, i: nat, env: BuildEnv): int
    requires i < |flows|
  {
    if !ValidFlow(flows[i]) then -EINVAL
    else if exists j | 0 <= j < i :: FlowRuleKey(flows[j]) == FlowRuleKey(flows[i]) then -EEXIST
    else if env.addFlow(i) < 0 then env.addFlow(i)
    else 0
  }

  ghost function RouteCode(routes: seq<RouteRule>, i: nat, env: BuildEnv): int
    requires i < |routes|
  {
    if !ValidRoute(routes[i]) then -EINVAL
    else if exists j | 0 <= j < i :: RouteRuleKey(routes[j]) == RouteRuleKey(routes[i]) then -EEXIST
    else if env.addRoute(i) < 0 then env.addRoute(i)
    else 0
  }

  /** `ret` is the code of the first flow that cannot be inserted, 0 if all can. */
  ghost predicate FlowsCode(flows: seq<FlowRule>, env: BuildEnv, ret: int) {
    if FlowsInsertable(flows, env) then ret == 0
    else exists i | 0 <= i < |flows| :: FirstFlow(flows, i, env) && ret == FlowCode(flows, i, env) < 0
  }

  /** All flows before `i` can be inserted. */
  ghost predicate FirstFlow(flows: seq<FlowRule>, i: nat, env: BuildEnv)
    requires i <= |flows|
  {
    FlowsInsertable(flows[..i], env)
  }

  ghost predicate RoutesCode(routes: seq<RouteRule>, env: BuildEnv, ret: int) {
    if RoutesInsertable(routes, env) then ret == 0
    else exists i | 0 <= i < |routes| :: FirstRoute(routes, i, env) && ret == RouteCode(routes, i, env) < 0
  }

  ghost predicate FirstRoute(routes: seq<RouteRule>, i: nat, env: BuildEnv)
    requires i <= |routes|
  {
    RoutesInsertable(routes[..i], env)
  }

  /** What the allocations of a build return: the first refusal. */
  function AllocationCode(rs: RuleSet, env: BuildEnv): int {
    if (rs.flows != [] || rs.routes != []) && env.actions.Refused? then Refusal(env.actions)
    else if rs.flows != [] && env.flowTable.Refused? then Refusal(env.flowTable)
    else if rs.routes != [] && env.routeTable.Refused? then Refusal(env.routeTable)
    else 0
  }

  /** What `dp_snapshot_build` returns: counts, allocations, flows, routes, in this order. */
  ghost predicate BuildCode(rs: RuleSet, env: BuildEnv, ret: int) {
    if |rs.flows| > MAX_FLOW_RULES || |rs.routes| > MAX_ROUTE_RULES then ret == -ENOSPC
    else if env.snapshot.Refused? then ret == Refusal(env.snapshot)
    else if AllocationCode(rs, env) < 0 then ret == AllocationCode(rs, env)
    else if !FlowsInsertable(rs.flows, env) then FlowsCode(rs.flows, env, ret)
    else RoutesCode(rs.routes, env, ret)
  }

  method FillTables(s: Snapshot, rs: RuleSet, env: BuildEnv) returns (ret: int)
    requires |s.actions| == |rs.flows| + |rs.routes|
    requires s.flowTable == if rs.flows != [] then Some(map[]) else None
    requires s.routeTable == if rs.routes != [] then Some(map[]) else None
    modifies s
    ensures Resources(s) == old(Resources(s))
    ensures ret <= 0 && (ret == 0 <==> FlowsInsertable(rs.flows, env) && RoutesInsertable(rs.routes, env))
    ensures if !FlowsInsertable(rs.flows, env) then FlowsCode(rs.flows, env, ret) else RoutesCode(rs.routes, env, ret)
    ensures ret == 0 ==> Indexes(s, rs)
  {
    ret := 0;
    if |rs.flows| != 0 {
      ret := InsertFlows(s, rs.flows, env);
    }
    ghost var filled := s.actions;
    if ret == 0 && |rs.routes| != 0 {
      ret := InsertRoutes(s, |rs.flows|, rs.routes, env);
    }
    if ret == 0 && rs.flows != [] {
      FlowsKept(s.flowTable.value, filled, s.actions, rs.flows);
    }
  }

  lemma FlowsKept(table: map<FlowKey, nat>, before: seq<RuleAction>, after: seq<RuleAction>, flows: seq<FlowRule>)
    requires FlowsIndexed(table, before, flows)
    requires |flows| <= |after| && after[..|flows|] == before[..|flows|]
    ensures FlowsIndexed(table, after, flows)
  {
    assert forall i | 0 <= i < |flows| :: after[..|flows|][i] == before[..|flows|][i];
  }

  method CheckFlow(flow: FlowRule) returns (ret: int)
    ensures ret == if ValidFlow(flow) then 0 else -EINVAL
  {
    if flow.l4Proto != IPPROTO_TCP && flow.l4Proto != IPPROTO_UDP {
      return -EINVAL;
    }
    ret := ValidateAction(flow.action, RESERVED);
  }

  method CheckRoute(route: RouteRule) returns (ret: int)
    ensures ret == if ValidRoute(route) then 0 else -EINVAL
  {
    if route.depth == 0 || route.depth > 32 {
      return -EINVAL;
    }
    if Masked(route.prefix, route.depth) != route.prefix {
      return -EINVAL;
    }
    ret := ValidateAction(route.action, RESERVED);
  }

  method InsertFlows(s: Snapshot, flows: seq<FlowRule>, env: BuildEnv) returns (ret: int)
    requires |flows| <= |s.actions| && s.flowTable == Some(map[])
    modifies s`flowTable, s`actions
    ensures |s.actions| == old(|s.actions|) && s.flowTable.Some?
    ensures ret <= 0 && FlowsCode(flows, env, ret)
    ensures ret == 0 <==> FlowsInsertable(flows, env)
    ensures ret == 0 ==> FlowsIndexed(s.flowTable.value, s.actions, flows)
  {
    for i := 0 to |flows|
      invariant |s.actions| == old(|s.actions|) && s.flowTable.Some?
      invariant FlowsInsertable(flows[..i], env)
      invariant FlowsIndexed(s.flowTable.value, s.actions, flows[..i])
    {
      ret := InsertFlow(s, flows, i, env);
      FlowsInsertableStep(flows, i, env);
      if ret < 0 {
        assert FirstFlow(flows, i, env);
        return ret;
      }
    }
    assert flows[..|flows|] == flows;
    return 0;
  }

  lemma FlowsInsertableStep(flows: seq<FlowRule>, i: nat, env: BuildEnv)
    requires i < |flows| && FlowsInsertable(flows[..i], env)
    ensures var ok := ValidFlow(flows[i]) && env.addFlow(i) >= 0
                      && forall j | 0 <= j < i :: FlowRuleKey(flows[j]) != FlowRuleKey(flows[i]);
            (ok ==> FlowsInsertable(flows[..i + 1], env)) && (!ok ==> !FlowsInsertable(flows, env))
  {
    var before, after := flows[..i], flows[..i + 1];
    assert forall j | 0 <= j < i :: before[j] == flows[j];
    assert forall j | 0 <= j <= i :: after[j] == flows[j];
  }

  method InsertFlow(s: Snapshot, flows: seq<FlowRule>, i: nat, env: BuildEnv) returns (ret: int)
    requires i < |flows| <= |s.actions| && s.flowTable.Some?
    requires FlowsIndexed(s.flowTable.value, s.actions, flows[..i])
    modifies s`flowTable, s`actions
    ensures |s.actions| == old(|s.actions|) && s.flowTable.Some?
    ensures ret == FlowCode(flows, i, env) <= 0
    ensures ret == 0 <==> ValidFlow(flows[i]) && env.addFlow(i) >= 0
                          && forall j | 0 <= j < i :: FlowRuleKey(flows[j]) != FlowRuleKey(flows[i])
    ensures ret == 0 ==> FlowsIndexed(s.flowTable.value, s.actions, flows[..i + 1])
  {
    var flow := flows[i];
    ret := CheckFlow(flow);
    if ret < 0 {
      return ret;
    }
    var key, table := FlowRuleKey(flow), s.flowTable.value;
    KnownFlow(table, s.actions, flows, i);
    if key in table {
      return -EEXIST;
    }
    s.actions := s.actions[i := flow.action];
    ret := env.addFlow(i);
    if ret < 0 {
      return ret;
    }
    s.flowTable := Some(table[key := i]);
    FlowInserted(table, s.actions, flows, i);
    return 0;
  }

  lemma KnownFlow(table: map<FlowKey, nat>, actions: seq<RuleAction>, flows: seq<FlowRule>, i: nat)
    requires i < |flows| && FlowsIndexed(table, actions, flows[..i])
    ensures FlowRuleKey(flows[i]) in table <==> exists j | 0 <= j < i :: FlowRuleKey(flows[j]) == FlowRuleKey(flows[i])
  {
    assert forall j | 0 <= j < i :: flows[..i][j] == flows[j];
  }

  lemma FlowInserted(table: map<FlowKey, nat>, actions: seq<RuleAction>, flows: seq<FlowRule>, i: nat)
    requires i < |flows| && i < |actions|
    requires FlowsIndexed(table, actions, flows[..i]) && FlowRuleKey(flows[i]) !in table && actions[i] == flows[i].action
    ensures FlowsIndexed(table[FlowRuleKey(flows[i]) := i], actions, flows[..i + 1])
  {
    var t, prefix := table[FlowRuleKey(flows[i]) := i], flows[..i + 1];
    forall k | k in t
      ensures exists j | 0 <= j < |prefix| :: FlowRuleKey(prefix[j]) == k
    {
      if k == FlowRuleKey(flows[i]) {
        assert FlowRuleKey(prefix[i]) == k;
      } else {
        var j :| 0 <= j < i && FlowRuleKey(flows[..i][j]) == k;
        assert FlowRuleKey(prefix[j]) == k;
      }
    }
    assert forall j | 0 <= j < i :: flows[..i][j] == prefix[j];
  }

  method InsertRoutes(s: Snapshot, base: nat, routes: seq<RouteRule>, env: BuildEnv) returns (ret: int)
    requires base + |routes| <= |s.actions| && s.routeTable == Some(map[])
    modifies s`routeTable, s`actions
    ensures |s.actions| == old(|s.actions|) && s.routeTable.Some?
    ensures s.actions[..base] == old(s.actions[..base])
    ensures ret <= 0 && RoutesCode(routes, env, ret)
    ensures ret == 0 <==> RoutesInsertable(routes, env)
    ensures ret == 0 ==> RoutesIndexed(s.routeTable.value, s.actions, base, routes)
  {
    for i := 0 to |routes|
      invariant |s.actions| == old(|s.actions|) && s.routeTable.Some?
      invariant s.actions[..base] == old(s.actions[..base])
      invariant RoutesInsertable(routes[..i], env)
      invariant RoutesIndexed(s.routeTable.value, s.actions, base, routes[..i])
    {
      ret := InsertRoute(s, base, routes, i, env);
      RoutesInsertableStep(routes, i, env);
      if ret < 0 {
        assert FirstRoute(routes, i, env);
        return ret;
      }
    }
    assert routes[..|routes|] == routes;
    return 0;
  }

  lemma RoutesInsertableStep(routes: seq<RouteRule>, i: nat, env: BuildEnv)
    requires i < |routes| && RoutesInsertable(routes[..i], env)
    ensures var ok := ValidRoute(routes[i]) && env.addRoute(i) >= 0
                      && forall j | 0 <= j < i :: RouteRuleKey(routes[j]) != RouteRuleKey(routes[i]);
            (ok ==> RoutesInsertable(routes[..i + 1], env)) && (!ok ==> !RoutesInsertable(routes, env))
  {
    var before, after := routes[..i], routes[..i + 1];
    assert forall j | 0 <= j < i :: before[j] == routes[j];
    assert forall j | 0 <= j <= i :: after[j] == routes[j];
  }

  method InsertRoute(s: Snapshot, base: nat, routes: seq<RouteRule>, i: nat, env: BuildEnv) returns (ret: int)
    requires i < |routes| && base + |routes| <= |s.actions| && s.routeTable.Some?
    requires RoutesIndexed(s.routeTable.value, s.actions, base, routes[..i])
    modifies s`routeTable, s`actions
    ensures |s.actions| == old(|s.actions|) && s.routeTable.Some?
    ensures s.actions[..base] == old(s.actions[..base])
    ensures ret == RouteCode(routes, i, env) <= 0
    ensures ret == 0 <==> ValidRoute(routes[i]) && env.addRoute(i) >= 0
                          && forall j | 0 <= j < i :: RouteRuleKey(routes[j]) != RouteRuleKey(routes[i])
    ensures ret == 0 ==> RoutesIndexed(s.routeTable.value, s.actions, base, routes[..i + 1])
  {
    var route, actionIndex := routes[i], base + i;
    ret := CheckRoute(route);
    if ret < 0 {
      return ret;
    }
    var key, table := RouteRuleKey(route), s.routeTable.value;
    KnownRoute(table, s.actions, base, routes, i);
    if key in table {
      return -EEXIST;
    }
    s.actions := s.actions[actionIndex := route.action];
    ret := env.addRoute(i);
    if ret < 0 {
      return ret;
    }
    s.routeTable := Some(table[key := actionIndex]);
    RouteInserted(table, s.actions, base, routes, i);
    return 0;
  }

  lemma KnownRoute(table: map<RouteKey, nat>, actions: seq<RuleAction>, base: nat, routes: seq<RouteRule>, i: nat)
    requires i < |routes| && RoutesIndexed(table, actions, base, routes[..i])
    ensures RouteRuleKey(routes[i]) in table <==> exists j | 0 <= j < i :: RouteRuleKey(routes[j]) == RouteRuleKey(routes[i])
  {
    assert forall j | 0 <= j < i :: routes[..i][j] == routes[j];
  }

  lemma RouteInserted(table: map<RouteKey, nat>, actions: seq<RuleAction>, base: nat, routes: seq<RouteRule>, i: nat)
    requires i < |routes| && base + i < |actions|
    requires RoutesIndexed(table, actions, base, routes[..i]) && RouteRuleKey(routes[i]) !in table
    requires actions[base + i] == routes[i].action
    ensures RoutesIndexed(table[RouteRuleKey(routes[i]) := base + i], actions, base, routes[..i + 1])
  {
    var t, prefix := table[RouteRuleKey(routes[i]) := base + i], routes[..i + 1];
    RouteKeysListed(table, base, routes, i);
    forall j | 0 <= j < i + 1
      ensures RouteRuleKey(prefix[j]) in t && t[RouteRuleKey(prefix[j])] == base + j && actions[base + j] == prefix[j].action
    {
      if j < i {
        assert routes[..i][j] == prefix[j];
      }
    }
  }

  lemma RouteKeysListed(table: map<RouteKey, nat>, base: nat, routes: seq<RouteRule>, i: nat)
    requires i < |routes|
    requires var listed := routes[..i]; forall k | k in table :: exists j | 0 <= j < i :: RouteRuleKey(listed[j]) == k
    ensures var t, prefix := table[RouteRuleKey(routes[i]) := base + i], routes[..i + 1];
            forall k | k in t :: exists j | 0 <= j < i + 1 :: RouteRuleKey(prefix[j]) == k
  {
    var prefix := routes[..i + 1];
    forall k | k in table || k == RouteRuleKey(routes[i])
      ensures exists j | 0 <= j < i + 1 :: RouteRuleKey(prefix[j]) == k
    {
      if k == RouteRuleKey(routes[i]) {
        assert RouteRuleKey(prefix[i]) == k;
      } else {
        var j :| 0 <= j < i && RouteRuleKey(routes[..i][j]) == k;
        assert RouteRuleKey(prefix[j]) == k;
      }
    }
  }

  // ---------- Lookup ----------

  datatype LookupResult = FLOW_HIT | ROUTE_HIT | MISS

  /** A lookup result with the action it selects. */
  datatype Decision = FlowHit(action: RuleAction) | RouteHit(action: RuleAction) | Miss

  function FlowKeyFromMeta(m: Meta): FlowKey {
    FlowKey(m.srcIpv4, m.dstIpv4, m.srcPort, m.dstPort, m.l4Proto)
  }

  /** `rte_lpm_lookup`: the entry of the deepest stored prefix of `dst`, at most `depth` long. */
  function LpmLookup(table: map<RouteKey, nat>, dst: u32, depth: byte): Option<nat>
    requires depth <= 32
    decreases depth
  {
    if depth == 0 then None
    else if RouteKey(Masked(dst, depth), depth) in table then Some(table[RouteKey(Masked(dst, depth), depth)])
    else LpmLookup(table, dst, depth - 1)
  }

  /** The data pointers of the hash point into the snapshot's own action store. */
  ghost predicate PointsIntoStore(s: Snapshot)
    reads s
  {
    s.flowTable.Some? ==> forall k | k in s.flowTable.value :: s.flowTable.value[k] < |s.actions|
  }

  lemma IndexPointsIntoStore(s: Snapshot, rs: RuleSet)
    requires Indexes(s, rs)
    ensures PointsIntoStore(s)
  {
    if s.flowTable.Some? {
      forall k | k in s.flowTable.value
        ensures s.flowTable.value[k] < |s.actions|
      {
        var i :| 0 <= i < |rs.flows| && FlowRuleKey(rs.flows[i]) == k;
      }
    }
  }

  method LookupPacket(m: Meta, s: Snapshot?) returns (result: LookupResult, action: Option<RuleAction>)
    requires s != null ==> PointsIntoStore(s)
    ensures result == if s == null then MISS
                      else match Decide(s, m) case FlowHit(_) => FLOW_HIT case RouteHit(_) => ROUTE_HIT case Miss => MISS
    ensures result == MISS <==> action.None?
    ensures s != null && result != MISS ==> action == Some(Decide(s, m).action)
  {
    if s != null && s.flowTable.Some? {
      var key := FlowKeyFromMeta(m);
      if key in s.flowTable.value {
        return FLOW_HIT, Some(s.actions[s.flowTable.value[key]]);
      }
    }
    if s != null && s.routeTable.Some? {
      var actionIndex := LpmLookup(s.routeTable.value, m.dstIpv4, 32);
      if actionIndex.Some? && actionIndex.value < |s.actions| {
        return ROUTE_HIT, Some(s.actions[actionIndex.value]);
      }
    }
    return MISS, None;
  }

  /** The decision the tables of a snapshot give. */
  function Decide(s: Snapshot, m: Meta): Decision
    reads s
  {
    var key := FlowKeyFromMeta(m);
    if s.flowTable.Some? && key in s.flowTable.value && s.flowTable.value[key] < |s.actions| then
      FlowHit(s.actions[s.flowTable.value[key]])
    else if s.routeTable.None? then Miss
    else
      match LpmLookup(s.routeTable.value, m.dstIpv4, 32)
      case Some(i) => if i < |s.actions| then RouteHit(s.actions[i]) else Miss
      case None => Miss
  }

  // ---------- The naive answer: scan the lists ----------

  predicate RouteMatches(r: RouteRule, dst: u32) {
    1 <= r.depth <= 32 && Masked(dst, r.depth) == r.prefix
  }

  function ScanFlows(flows: seq<FlowRule>, key: FlowKey): Option<RuleAction> {
    if flows == [] then None
    else if FlowRuleKey(flows[0]) == key then Some(flows[0].action)
    else ScanFlows(flows[1..], key)
  }

  /** The last matching route that is deeper than all matching routes before it. */
  function ScanRoutes(routes: seq<RouteRule>, dst: u32): Option<RouteRule> {
    if routes == [] then None
    else
      var r, rest := routes[|routes| - 1], ScanRoutes(routes[..|routes| - 1], dst);
      if RouteMatches(r, dst) && (rest.None? || rest.value.depth < r.depth) then Some(r) else rest
  }

  /** Exact flow first, then longest prefix, then default drop. */
  function Naive(rs: RuleSet, m: Meta): Decision {
    match ScanFlows(rs.flows, FlowKeyFromMeta(m))
    case Some(a) => FlowHit(a)
    case None =>
      match ScanRoutes(rs.routes, m.dstIpv4)
      case Some(r) => RouteHit(r.action)
      case None => Miss
  }

  lemma {:induction false} ScanFlowsFinds(flows: seq<FlowRule>, key: FlowKey, i: nat)
    requires DistinctFlows(flows) && i < |flows| && FlowRuleKey(flows[i]) == key
    ensures ScanFlows(flows, key) == Some(flows[i].action)
  {
    if i == 0 {
    } else {
      assert FlowRuleKey(flows[0]) != FlowRuleKey(flows[i]);
      ScanFlowsFinds(flows[1..], key, i - 1);
    }
  }

  lemma {:induction false} ScanFlowsMisses(flows: seq<FlowRule>, key: FlowKey)
    requires forall i | 0 <= i < |flows| :: FlowRuleKey(flows[i]) != key
    ensures ScanFlows(flows, key).None?
  {
    if flows == [] {
    } else {
      assert FlowRuleKey(flows[0]) != key;
      forall i | 0 <= i < |flows[1..]|
        ensures FlowRuleKey(flows[1..][i]) != key
      {
        assert FlowRuleKey(flows[i + 1]) != key;
      }
      ScanFlowsMisses(flows[1..], key);
    }
  }

  /** The scan returns a matching route and none matches deeper; nothing means none matches. */
  lemma {:induction false} ScanRoutesLongest(routes: seq<RouteRule>, dst: u32)
    ensures var r := ScanRoutes(routes, dst);
            && (r.Some? ==> r.value in routes && RouteMatches(r.value, dst))
            && forall x | x in routes && RouteMatches(x, dst) :: r.Some? && x.depth <= r.value.depth
  {
    if routes == [] {
    } else {
      var front, last := routes[..|routes| - 1], routes[|routes| - 1];
      ScanRoutesLongest(front, dst);
      assert routes == front + [last];
    }
  }

  /** Normalized, duplicate-free prefixes: two matching routes of one depth are the same rule. */
  lemma LongestMatchUnique(routes: seq<RouteRule>, dst: u32, x: RouteRule, y: RouteRule)
    requires DistinctRoutes(routes) && x in routes && y in routes
    requires RouteMatches(x, dst) && RouteMatches(y, dst) && x.depth == y.depth
    ensures x == y
  {
    var i :| 0 <= i < |routes| && routes[i] == x;
    var j :| 0 <= j < |routes| && routes[j] == y;
    assert RouteRuleKey(routes[i]) == RouteRuleKey(routes[j]);
  }

  // ---------- The index agrees with the lists ----------

  lemma {:induction false} LpmFinds(table: map<RouteKey, nat>, dst: u32, depth: byte, d: byte)
    requires depth <= 32 && 1 <= d <= depth && RouteKey(Masked(dst, d), d) in table
    requires forall e: byte | d < e <= depth :: RouteKey(Masked(dst, e), e) !in table
    ensures LpmLookup(table, dst, depth) == Some(table[RouteKey(Masked(dst, d), d)])
    decreases depth
  {
    if d == depth {
    } else {
      LpmFinds(table, dst, depth - 1, d);
    }
  }

  lemma {:induction false} LpmMisses(table: map<RouteKey, nat>, dst: u32, depth: byte)
    requires depth <= 32 && forall e: byte | 1 <= e <= depth :: RouteKey(Masked(dst, e), e) !in table
    ensures LpmLookup(table, dst, depth).None?
    decreases depth
  {
    if depth == 0 {
    } else {
      LpmMisses(table, dst, depth - 1);
    }
  }

  lemma RouteLookupAgrees(table: map<RouteKey, nat>, actions: seq<RuleAction>, base: nat, routes: seq<RouteRule>, dst: u32)
    requires RoutesIndexed(table, actions, base, routes)
    requires forall i | 0 <= i < |routes| :: ValidRoute(routes[i])
    ensures match ScanRoutes(routes, dst)
            case Some(r) => exists i :: LpmLookup(table, dst, 32) == Some(i) && i < |actions| && actions[i] == r.action
            case None => LpmLookup(table, dst, 32).None?
  {
    hide ValidAction, Masked, LpmLookup, ScanRoutes;
    ScanRoutesLongest(routes, dst);
    forall e: byte | 1 <= e <= 32 && RouteKey(Masked(dst, e), e) in table
      ensures ScanRoutes(routes, dst).Some? && e <= ScanRoutes(routes, dst).value.depth
    {
      var i :| 0 <= i < |routes| && RouteRuleKey(routes[i]) == RouteKey(Masked(dst, e), e);
      assert RouteMatches(routes[i], dst);
    }
    match ScanRoutes(routes, dst) {
      case Some(r) =>
        var i :| 0 <= i < |routes| && routes[i] == r;
        assert RouteRuleKey(routes[i]) == RouteKey(Masked(dst, r.depth), r.depth);
        LpmFinds(table, dst, 32, r.depth);
      case None =>
        LpmMisses(table, dst, 32);
    }
  }

  lemma FlowLookupAgrees(table: map<FlowKey, nat>, actions: seq<RuleAction>, flows: seq<FlowRule>, key: FlowKey)
    requires FlowsIndexed(table, actions, flows) && DistinctFlows(flows)
    ensures if key in table then table[key] < |actions| && ScanFlows(flows, key) == Some(actions[table[key]])
            else ScanFlows(flows, key).None?
  {
    if key in table {
      var i :| 0 <= i < |flows| && FlowRuleKey(flows[i]) == key;
      ScanFlowsFinds(flows, key, i);
    } else {
      ScanFlowsMisses(flows, key);
    }
  }

  /** For every accepted rule set and every packet, the tables answer what a scan of the lists answers. */
  lemma IndexAgreesWithLists(s: Snapshot, rs: RuleSet, m: Meta)
    requires Indexes(s, rs) && ValidRules(rs)
    ensures Decide(s, m) == Naive(rs, m)
  {
    if rs.flows != [] {
      FlowLookupAgrees(s.flowTable.value, s.actions, rs.flows, FlowKeyFromMeta(m));
    }
    if rs.routes != [] {
      RouteLookupAgrees(s.routeTable.value, s.actions, |rs.flows|, rs.routes, m.dstIpv4);
    }
  }

  /** Reordering the rules changes no decision. */
  lemma OrderIrrelevant(rs: RuleSet, other: RuleSet, m: Meta)
    requires ValidRules(rs) && ValidRules(other)
    requires forall f :: f in rs.flows <==> f in other.flows
    requires forall r :: r in rs.routes <==> r in other.routes
    ensures Naive(rs, m) == Naive(other, m)
  {
    var key, dst := FlowKeyFromMeta(m), m.dstIpv4;
    if i :| 0 <= i < |rs.flows| && FlowRuleKey(rs.flows[i]) == key {
      assert rs.flows[i] in other.flows;
      var j :| 0 <= j < |other.flows| && other.flows[j] == rs.flows[i];
      ScanFlowsFinds(rs.flows, key, i);
      ScanFlowsFinds(other.flows, key, j);
    } else {
      forall j | 0 <= j < |other.flows|
        ensures FlowRuleKey(other.flows[j]) != key
      {
        assert other.flows[j] in rs.flows;
      }
      ScanFlowsMisses(rs.flows, key);
      ScanFlowsMisses(other.flows, key);
    }
    ScanRoutesLongest(rs.routes, dst);
    ScanRoutesLongest(other.routes, dst);
    var x, y := ScanRoutes(rs.routes, dst), ScanRoutes(other.routes, dst);
    if x.Some? && y.Some? {
      LongestMatchUnique(rs.routes, dst, x.value, y.value);
    }
  }
}
