/** The Go side of the rules: it owns a copy that denotes exactly what the native side has active. */
module RuleManager {
  import opened Wrappers
  import opened Rules
  import opened RuleIndex
  import opened RuleMeaning
  import opened RuleStore
  import opened Worker

  // ---------- Slices ----------

  /** A Go slice: an array and how much of it is in use. */
  datatype Slice<T> = Slice(data: array<T>, len: nat)

  ghost function Items<T>(s: Slice<T>): seq<T>
    reads s.data
    requires s.len <= s.data.Length
  {
    s.data[..s.len]
  }

  /** `append([]T(nil), s...)`. */
  method Clone<T(0)>(s: Slice<T>) returns (c: Slice<T>)
    requires s.len <= s.data.Length
    ensures fresh(c.data) && c.len == c.data.Length == s.len && Items(c) == Items(s)
  {
    var data := new T[s.len];
    for i := 0 to s.len
      invariant data[..i] == s.data[..i]
    {
      data[i] := s.data[i];
    }
    c := Slice(data, s.len);
  }

  /** `append(s, x)`, into a new array. */
  method Append<T(0)>(s: Slice<T>, x: T) returns (c: Slice<T>)
    requires s.len <= s.data.Length
    ensures fresh(c.data) && c.len == c.data.Length && Items(c) == Items(s) + [x]
  {
    var data := new T[s.len + 1];
    for i := 0 to s.len
      invariant data[..i] == s.data[..i]
    {
      data[i] := s.data[i];
    }
    data[s.len] := x;
    c := Slice(data, s.len + 1);
  }

  /** `append(s[:index], s[index+1:]...)`: the rest moves down in place. */
  method Remove<T>(s: Slice<T>, index: nat) returns (c: Slice<T>)
    requires index < s.len <= s.data.Length
    modifies s.data
    ensures c.data == s.data && c.len == s.len - 1
    ensures Items(c) == old(Items(s))[..index] + old(Items(s))[index + 1..]
  {
    for i := index to s.len - 1
      invariant forall k | 0 <= k < i :: s.data[k] == old(s.data[if k < index then k else k + 1])
      invariant forall k | i < k < s.len :: s.data[k] == old(s.data[k])
    {
      s.data[i] := s.data[i + 1];
    }
    c := Slice(s.data, s.len - 1);
  }

  method Find<R, K(==)>(s: Slice<R>, key: R -> K, wanted: K) returns (index: int)
    requires s.len <= s.data.Length
    ensures 0 <= index ==> index < s.len && key(s.data[index]) == wanted
    ensures index < 0 ==> forall i | 0 <= i < s.len :: key(s.data[i]) != wanted
  {
    for i := 0 to s.len
      invariant forall k | 0 <= k < i :: key(s.data[k]) != wanted
    {
      if key(s.data[i]) == wanted {
        return i;
      }
    }
    return -1;
  }

  datatype Slices = Slices(flows: Slice<FlowRule>, routes: Slice<RouteRule>)

  ghost predicate InBounds(s: Slices) {
    s.flows.len <= s.flows.data.Length && s.routes.len <= s.routes.data.Length
  }

  ghost function Denoted(s: Slices): RuleSet
    reads s.flows.data, s.routes.data
    requires InBounds(s)
  {
    RuleSet(Items(s.flows), Items(s.routes))
  }

  method CloneRules(s: Slices) returns (c: Slices)
    requires InBounds(s)
    ensures InBounds(c) && fresh(c.flows.data) && fresh(c.routes.data) && Denoted(c) == Denoted(s)
  {
    var flows := Clone(s.flows);
    var routes := Clone(s.routes);
    c := Slices(flows, routes);
  }

  // ---------- What the operations are for ----------

  datatype Operation =
    | Replace(rules: RuleSet)
    | AddFlow(flow: FlowRule)
    | DeleteFlow(flowKey: FlowKey)
    | AddRoute(route: RouteRule)
    | DeleteRoute(routeKey: RouteKey)

  /** `rules` without the one whose key is `k`. */
  function Without<R, K(==)>(rules: seq<R>, key: R -> K, k: K): seq<R> {
    if rules == [] then []
    else
      var last := rules[|rules| - 1];
      Without(rules[..|rules| - 1], key, k) + if key(last) == k then [] else [last]
  }

  predicate HasKey<R, K(==)>(rules: seq<R>, key: R -> K, k: K) {
    exists i | 0 <= i < |rules| :: key(rules[i]) == k
  }

  /** The rule set the caller asks for. */
  function Asked(rs: RuleSet, op: Operation): RuleSet {
    match op
    case Replace(rules) => rules
    case AddFlow(flow) => rs.(flows := rs.flows + [flow])
    case DeleteFlow(k) => rs.(flows := Without(rs.flows, FlowRuleKey, k))
    case AddRoute(route) => rs.(routes := rs.routes + [route])
    case DeleteRoute(k) => rs.(routes := Without(rs.routes, RouteRuleKey, k))
  }

  /** The request makes sense: what is deleted exists, and the result is a valid rule set. */
  ghost predicate Sensible(rs: RuleSet, op: Operation) {
    && ValidRules(Asked(rs, op))
    && (op.DeleteFlow? ==> HasKey(rs.flows, FlowRuleKey, op.flowKey))
    && (op.DeleteRoute? ==> HasKey(rs.routes, RouteRuleKey, op.routeKey))
  }

  ghost predicate DistinctKeys<R, K(!new)>(rules: seq<R>, key: R -> K) {
    forall i, j | 0 <= i < j < |rules| :: key(rules[i]) != key(rules[j])
  }

  /** Deleting a key drops one element. */
  lemma {:induction false} WithoutAt<R, K(!new)>(rules: seq<R>, key: R -> K, k: K, i: nat)
    requires i < |rules| && key(rules[i]) == k && DistinctKeys(rules, key)
    ensures Without(rules, key, k) == rules[..i] + rules[i + 1..]
  {
    var n := |rules| - 1;
    if i == n {
      WithoutNone(rules[..n], key, k);
    } else {
      assert key(rules[i]) != key(rules[n]);
      WithoutAt(rules[..n], key, k, i);
    }
  }

  lemma {:induction false} WithoutNone<R, K>(rules: seq<R>, key: R -> K, k: K)
    requires forall j | 0 <= j < |rules| :: key(rules[j]) != k
    ensures Without(rules, key, k) == rules
  {
    if rules == [] {
    } else {
      WithoutNone(rules[..|rules| - 1], key, k);
    }
  }

  lemma {:induction false} WithoutKeeps<R, K(!new)>(rules: seq<R>, key: R -> K, k: K)
    requires DistinctKeys(rules, key)
    ensures var rest := Without(rules, key, k);
            && |rest| <= |rules| && DistinctKeys(rest, key)
            && forall x | x in rest :: x in rules && key(x) != k
  {
    if rules == [] {
    } else {
      WithoutKeeps(rules[..|rules| - 1], key, k);
    }
  }

  /** A part of a valid rule set is valid: deletion needs no validation. */
  lemma DeletionStaysValid(rs: RuleSet, op: Operation)
    requires ValidRules(rs) && (op.DeleteFlow? || op.DeleteRoute?)
    ensures ValidRules(Asked(rs, op))
  {
    hide ValidFlow, ValidRoute, Without;
    match op
    case DeleteFlow(k) =>
      WithoutKeeps(rs.flows, FlowRuleKey, k);
      var rest := Asked(rs, op).flows;
      assert forall i | 0 <= i < |rest| :: rest[i] in rest;
      assert DistinctFlows(rest);
    case DeleteRoute(k) =>
      WithoutKeeps(rs.routes, RouteRuleKey, k);
      var rest := Asked(rs, op).routes;
      assert forall i | 0 <= i < |rest| :: rest[i] in rest;
      assert DistinctRoutes(rest);
  }

  lemma FlowDeleted(rs: RuleSet, k: FlowKey, i: nat)
    requires ValidRules(rs) && i < |rs.flows| && FlowRuleKey(rs.flows[i]) == k
    ensures Sensible(rs, DeleteFlow(k)) && Asked(rs, DeleteFlow(k)) == rs.(flows := rs.flows[..i] + rs.flows[i + 1..])
  {
    DeletionStaysValid(rs, DeleteFlow(k));
    assert DistinctKeys(rs.flows, FlowRuleKey);
    hide ValidRules;
    WithoutAt(rs.flows, FlowRuleKey, k, i);
  }

  lemma RouteDeleted(rs: RuleSet, k: RouteKey, i: nat)
    requires ValidRules(rs) && i < |rs.routes| && RouteRuleKey(rs.routes[i]) == k
    ensures Sensible(rs, DeleteRoute(k)) && Asked(rs, DeleteRoute(k)) == rs.(routes := rs.routes[..i] + rs.routes[i + 1..])
  {
    DeletionStaysValid(rs, DeleteRoute(k));
    assert DistinctKeys(rs.routes, RouteRuleKey);
    hide ValidRules;
    WithoutAt(rs.routes, RouteRuleKey, k, i);
  }

  /** Adding a flow and deleting its key gives back the rule set. */
  lemma AddThenDelete(rs: RuleSet, flow: FlowRule)
    requires Sensible(rs, AddFlow(flow)) && ValidRules(rs)
    ensures var added := Asked(rs, AddFlow(flow));
            var back := DeleteFlow(FlowRuleKey(flow));
            Sensible(added, back) && Asked(added, back) == rs
  {
    hide ValidFlow, ValidRoute;
    var added := Asked(rs, AddFlow(flow));
    var n := |rs.flows|;
    assert FlowRuleKey(added.flows[n]) == FlowRuleKey(flow);
    DeletionStaysValid(added, DeleteFlow(FlowRuleKey(flow)));
    forall j | 0 <= j < n
      ensures FlowRuleKey(rs.flows[j]) != FlowRuleKey(flow)
    {
      assert FlowRuleKey(added.flows[j]) != FlowRuleKey(added.flows[n]);
    }
    WithoutNone(rs.flows, FlowRuleKey, FlowRuleKey(flow));
    assert added.flows[..n] == rs.flows;
  }

  /** One request, and the environment's answers to its native build. */
  datatype Request = Request(op: Operation, env: BuildEnv)

  ghost predicate Succeeds(rs: RuleSet, r: Request) {
    Sensible(rs, r.op) && Grants(r.env, Asked(rs, r.op))
  }

  // What the requests ask for, field by field.

  predicate HasFields(f: FlowRule, k: FlowKey) {
    f.srcIpv4 == k.srcIpv4 && f.dstIpv4 == k.dstIpv4 && f.srcPort == k.srcPort && f.dstPort == k.dstPort && f.l4Proto == k.l4Proto
  }

  predicate HasPrefix(r: RouteRule, k: RouteKey) {
    r.prefix == k.prefix && r.depth == k.depth
  }

  /** Deleting takes out the one rule with these fields and leaves the others in order; without it the request fails. */
  lemma DeleteMeans(rs: RuleSet, k: FlowKey, q: RouteKey, env: BuildEnv)
    requires ValidRules(rs)
    ensures forall i | 0 <= i < |rs.flows| && HasFields(rs.flows[i], k) ::
              Asked(rs, DeleteFlow(k)) == RuleSet(rs.flows[..i] + rs.flows[i + 1..], rs.routes)
    ensures Succeeds(rs, Request(DeleteFlow(k), env)) <==>
            (exists i | 0 <= i < |rs.flows| :: HasFields(rs.flows[i], k)) && Grants(env, Asked(rs, DeleteFlow(k)))
    ensures forall i | 0 <= i < |rs.routes| && HasPrefix(rs.routes[i], q) ::
              Asked(rs, DeleteRoute(q)) == RuleSet(rs.flows, rs.routes[..i] + rs.routes[i + 1..])
    ensures Succeeds(rs, Request(DeleteRoute(q), env)) <==>
            (exists i | 0 <= i < |rs.routes| :: HasPrefix(rs.routes[i], q)) && Grants(env, Asked(rs, DeleteRoute(q)))
  {
    hide ValidRules, Grants, Without;
    DeletionStaysValid(rs, DeleteFlow(k));
    DeletionStaysValid(rs, DeleteRoute(q));
    forall i | 0 <= i < |rs.flows|
      ensures FlowRuleKey(rs.flows[i]) == k <==> HasFields(rs.flows[i], k)
      ensures HasFields(rs.flows[i], k) ==> Asked(rs, DeleteFlow(k)) == RuleSet(rs.flows[..i] + rs.flows[i + 1..], rs.routes)
    {
      if HasFields(rs.flows[i], k) {
        FlowDeleted(rs, k, i);
      }
    }
    forall i | 0 <= i < |rs.routes|
      ensures RouteRuleKey(rs.routes[i]) == q <==> HasPrefix(rs.routes[i], q)
      ensures HasPrefix(rs.routes[i], q) ==> Asked(rs, DeleteRoute(q)) == RuleSet(rs.flows, rs.routes[..i] + rs.routes[i + 1..])
    {
      if HasPrefix(rs.routes[i], q) {
        RouteDeleted(rs, q, i);
      }
    }
  }

  /** Adding appends, and succeeds exactly with room for a well-formed rule whose fields no rule has yet. */
  lemma AddMeans(rs: RuleSet, flow: FlowRule, route: RouteRule, env: BuildEnv)
    requires ValidRules(rs)
    ensures Asked(rs, AddFlow(flow)) == RuleSet(rs.flows + [flow], rs.routes)
    ensures Succeeds(rs, Request(AddFlow(flow), env)) <==>
            && |rs.flows| < 1024 && WireFlow(flow) && (forall i | 0 <= i < |rs.flows| :: !SameFive(rs.flows[i], flow))
            && Grants(env, RuleSet(rs.flows + [flow], rs.routes))
    ensures Asked(rs, AddRoute(route)) == RuleSet(rs.flows, rs.routes + [route])
    ensures Succeeds(rs, Request(AddRoute(route), env)) <==>
            && |rs.routes| < 1024 && WireRoute(route)
            && (forall i | 0 <= i < |rs.routes| :: rs.routes[i].prefix != route.prefix || rs.routes[i].depth != route.depth)
            && Grants(env, RuleSet(rs.flows, rs.routes + [route]))
  {
    ValidOnWire(rs);
    ValidOnWire(Asked(rs, AddFlow(flow)));
    ValidOnWire(Asked(rs, AddRoute(route)));
    hide ValidRules, Grants, WireFlow, WireRoute, SameFive, WireRules;
    OneFlowMore(rs, flow);
    OneRouteMore(rs, route);
  }

  lemma OneFlowMore(rs: RuleSet, flow: FlowRule)
    requires WireRules(rs)
    ensures WireRules(RuleSet(rs.flows + [flow], rs.routes)) <==>
            |rs.flows| < 1024 && WireFlow(flow) && forall i | 0 <= i < |rs.flows| :: !SameFive(rs.flows[i], flow)
  {
    hide WireFlow, WireRoute, SameFive;
    var flows, n := rs.flows + [flow], |rs.flows|;
    assert forall i | 0 <= i < n :: flows[i] == rs.flows[i];
    assert flows[n] == flow;
  }

  lemma OneRouteMore(rs: RuleSet, route: RouteRule)
    requires WireRules(rs)
    ensures WireRules(RuleSet(rs.flows, rs.routes + [route])) <==>
            && |rs.routes| < 1024 && WireRoute(route)
            && forall i | 0 <= i < |rs.routes| :: rs.routes[i].prefix != route.prefix || rs.routes[i].depth != route.depth
  {
    hide WireFlow, WireRoute, SameFive;
    var routes, n := rs.routes + [route], |rs.routes|;
    assert forall i | 0 <= i < n :: routes[i] == rs.routes[i];
    assert routes[n] == route;
  }

  /** Replacing asks for exactly the given rules. */
  lemma ReplaceMeans(rs: RuleSet, rules: RuleSet, env: BuildEnv)
    ensures Asked(rs, Replace(rules)) == rules
    ensures Succeeds(rs, Request(Replace(rules), env)) <==> WireRules(rules) && Grants(env, rules)
  {
    ValidOnWire(rules);
    hide ValidRules, Grants, WireRules;
  }

  // ---------- The two sides ----------

  class Runtime {
    var currentRules: Slices
    var generation: nat
    var rulesOpen: bool
    const store: Store

    ghost predicate Valid()
      reads this, currentRules.flows.data, currentRules.routes.data
    {
      InBounds(currentRules) && ValidRules(Denoted(currentRules))
    }

    ghost function Current(): RuleSet
      reads this, currentRules.flows.data, currentRules.routes.data
      requires Valid()
    {
      Denoted(currentRules)
    }

    /** While publication is open both sides hold the same rules under the same generation. */
    ghost predicate Agrees()
      reads this, currentRules.flows.data, currentRules.routes.data, store, store.heap, store.stats, store.active
    {
      && Valid()
      && (rulesOpen ==> store.Valid() && store.configured && store.rules == Current() && store.generation == generation)
    }

    /** So a worker decides every packet by the rules the Go side holds. */
    lemma DecidesAsCurrent()
      requires Agrees() && rulesOpen
      ensures Decides(store.active, Current())
    {
      store.CurrentDecides();
    }

    /** The owner opens publication once configure and setup have succeeded. */
    constructor (rules: Slices, store: Store)
      requires InBounds(rules) && store.Valid() && store.configured
      requires store.rules == Denoted(rules) && store.generation == 1
      ensures Agrees() && rulesOpen && this.store == store && Current() == Denoted(rules)
      ensures fresh(currentRules.flows.data) && fresh(currentRules.routes.data)
    {
      var copy := CloneRules(rules);
      currentRules := copy;
      generation, rulesOpen := 1, true;
      this.store := store;
    }

    /** The outcome every operation has. */
    twostate predicate Did(op: Operation, env: BuildEnv, ok: bool)
      reads this, currentRules.flows.data, currentRules.routes.data, store, store.heap, store.stats, store.active
    {
      && old(Valid()) && Agrees()
      && (ok <==> rulesOpen && Succeeds(old(Current()), Request(op, env)))
      && Current() == (if ok then Asked(old(Current()), op) else old(Current()))
      && generation == old(generation) + (if ok then 1 else 0)
      && (!ok ==> store.active == old(store.active) && store.generation == old(store.generation)
                  && store.heap.live == old(store.heap.live))
      && rulesOpen == old(rulesOpen)
    }

    /** `publishSnapshotLocked`: the Go copy changes only after the native side has succeeded. */
    method PublishSnapshot(candidate: Slices, env: BuildEnv) returns (ok: bool)
      requires Agrees() && InBounds(candidate)
      modifies this, store, store.heap, store.stats
      ensures Agrees() && rulesOpen == old(rulesOpen)
      ensures ok <==> rulesOpen && ValidRules(old(Denoted(candidate))) && Grants(env, old(Denoted(candidate)))
      ensures Current() == (if ok then old(Denoted(candidate)) else old(Current()))
      ensures generation == old(generation) + (if ok then 1 else 0)
      ensures !ok ==> store.active == old(store.active) && store.generation == old(store.generation)
      ensures !ok ==> store.heap.live == old(store.heap.live)
      ensures currentRules == old(currentRules) || (fresh(currentRules.flows.data) && fresh(currentRules.routes.data))
    {
      hide ValidRules, Store.Valid, Grants;
      if !rulesOpen {
        return false;
      }
      var ret, published := store.PublishRules(
        RuleSet(candidate.flows.data[..candidate.flows.len], candidate.routes.data[..candidate.routes.len]), env);
      if ret != 0 {
        return false;
      }
      currentRules := CloneRules(candidate);
      generation := published;
      return true;
    }

    method ReplaceRules(rules: Slices, env: BuildEnv) returns (ok: bool)
      requires Agrees() && InBounds(rules)
      modifies this, store, store.heap, store.stats
      ensures Did(Replace(old(Denoted(rules))), env, ok)
      ensures currentRules == old(currentRules) || (fresh(currentRules.flows.data) && fresh(currentRules.routes.data))
    {
      hide ValidRules, Store.Valid, Grants;
      var candidate := CloneRules(rules);
      var err := ValidateRules(RuleSet(candidate.flows.data[..candidate.flows.len], candidate.routes.data[..candidate.routes.len]));
      if err.Some? {
        return false;
      }
      ok := PublishSnapshot(candidate, env);
    }

    method AddOneFlow(rule: FlowRule, env: BuildEnv) returns (ok: bool)
      requires Agrees()
      modifies this, store, store.heap, store.stats
      ensures Did(AddFlow(rule), env, ok)
      ensures currentRules == old(currentRules) || (fresh(currentRules.flows.data) && fresh(currentRules.routes.data))
    {
      hide ValidRules, Store.Valid, Grants;
      var candidate := CloneRules(currentRules);
      var index := Find(candidate.flows, FlowRuleKey, FlowRuleKey(rule));
      if index >= 0 {
        DuplicateKeyInvalid(Current(), rule, index);
        return false;
      }
      var flows := Append(candidate.flows, rule);
      candidate := candidate.(flows := flows);
      var err := ValidateRules(RuleSet(candidate.flows.data[..candidate.flows.len], candidate.routes.data[..candidate.routes.len]));
      if err.Some? {
        return false;
      }
      ok := PublishSnapshot(candidate, env);
    }

    method DeleteOneFlow(key: FlowKey, env: BuildEnv) returns (ok: bool)
      requires Agrees()
      modifies this, store, store.heap, store.stats
      ensures Did(DeleteFlow(key), env, ok)
      ensures currentRules == old(currentRules) || (fresh(currentRules.flows.data) && fresh(currentRules.routes.data))
    {
      hide ValidRules, Without, Store.Valid, Grants;
      var candidate := CloneRules(currentRules);
      var index := Find(candidate.flows, FlowRuleKey, key);
      if index < 0 {
        return false;
      }
      FlowDeleted(Current(), key, index);
      var flows := Remove(candidate.flows, index);
      candidate := candidate.(flows := flows);
      ok := PublishSnapshot(candidate, env);
    }

    method AddOneRoute(rule: RouteRule, env: BuildEnv) returns (ok: bool)
      requires Agrees()
      modifies this, store, store.heap, store.stats
      ensures Did(AddRoute(rule), env, ok)
      ensures currentRules == old(currentRules) || (fresh(currentRules.flows.data) && fresh(currentRules.routes.data))
    {
      hide ValidRules, Store.Valid, Grants;
      var candidate := CloneRules(currentRules);
      var index := Find(candidate.routes, RouteRuleKey, RouteRuleKey(rule));
      if index >= 0 {
        DuplicatePrefixInvalid(Current(), rule, index);
        return false;
      }
      var routes := Append(candidate.routes, rule);
      candidate := candidate.(routes := routes);
      var err := ValidateRules(RuleSet(candidate.flows.data[..candidate.flows.len], candidate.routes.data[..candidate.routes.len]));
      if err.Some? {
        return false;
      }
      ok := PublishSnapshot(candidate, env);
    }

    method DeleteOneRoute(key: RouteKey, env: BuildEnv) returns (ok: bool)
      requires Agrees()
      modifies this, store, store.heap, store.stats
      ensures Did(DeleteRoute(key), env, ok)
      ensures currentRules == old(currentRules) || (fresh(currentRules.flows.data) && fresh(currentRules.routes.data))
    {
      hide ValidRules, Without, Store.Valid, Grants;
      var candidate := CloneRules(currentRules);
      var index := Find(candidate.routes, RouteRuleKey, key);
      if index < 0 {
        return false;
      }
      RouteDeleted(Current(), key, index);
      var routes := Remove(candidate.routes, index);
      candidate := candidate.(routes := routes);
      ok := PublishSnapshot(candidate, env);
    }

    /** The owner closes publication before teardown. */
    method CloseRules()
      requires Agrees()
      modifies this`rulesOpen
      ensures Agrees() && !rulesOpen && Current() == old(Current()) && generation == old(generation)
    {
      rulesOpen := false;
    }
  }

  lemma DuplicateKeyInvalid(rs: RuleSet, rule: FlowRule, i: nat)
    requires i < |rs.flows| && FlowRuleKey(rs.flows[i]) == FlowRuleKey(rule)
    ensures !ValidRules(Asked(rs, AddFlow(rule)))
  {
    var added := Asked(rs, AddFlow(rule));
    assert FlowRuleKey(added.flows[i]) == FlowRuleKey(added.flows[|rs.flows|]);
  }

  lemma DuplicatePrefixInvalid(rs: RuleSet, rule: RouteRule, i: nat)
    requires i < |rs.routes| && RouteRuleKey(rs.routes[i]) == RouteRuleKey(rule)
    ensures !ValidRules(Asked(rs, AddRoute(rule)))
  {
    var added := Asked(rs, AddRoute(rule));
    assert RouteRuleKey(added.routes[i]) == RouteRuleKey(added.routes[|rs.routes|]);
  }

  // ---------- Histories ----------

  /** The rules after a history: the requests that succeed, one after the other. */
  ghost function After(rs: RuleSet, history: seq<Request>): RuleSet {
    if history == [] then rs
    else
      var before, last := After(rs, history[..|history| - 1]), history[|history| - 1];
      if Succeeds(before, last) then Asked(before, last.op) else before
  }

  ghost function Successes(rs: RuleSet, history: seq<Request>): nat {
    if history == [] then 0
    else
      var front := history[..|history| - 1];
      Successes(rs, front) + if Succeeds(After(rs, front), history[|history| - 1]) then 1 else 0
  }

  /** Keys stay unique, and everything else a rule set must be, through every history. */
  lemma {:induction false} AfterIsValid(rs: RuleSet, history: seq<Request>)
    requires ValidRules(rs)
    ensures ValidRules(After(rs, history))
  {
    if history == [] {
    } else {
      AfterIsValid(rs, history[..|history| - 1]);
    }
  }

  method ToSlice<T(0)>(items: seq<T>) returns (s: Slice<T>)
    ensures fresh(s.data) && s.len == s.data.Length && Items(s) == items
  {
    var data := new T[|items|];
    for i := 0 to |items|
      invariant data[..i] == items[..i]
    {
      data[i] := items[i];
    }
    s := Slice(data, |items|);
  }

  method Perform(rt: Runtime, op: Operation, env: BuildEnv) returns (ok: bool)
    requires rt.Agrees()
    modifies rt, rt.store, rt.store.heap, rt.store.stats
    ensures rt.Did(op, env, ok)
  {
    match op {
      case Replace(rules) =>
        var flows := ToSlice(rules.flows);
        var routes := ToSlice(rules.routes);
        ok := rt.ReplaceRules(Slices(flows, routes), env);
      case AddFlow(flow) => ok := rt.AddOneFlow(flow, env);
      case DeleteFlow(key) => ok := rt.DeleteOneFlow(key, env);
      case AddRoute(route) => ok := rt.AddOneRoute(route, env);
      case DeleteRoute(key) => ok := rt.DeleteOneRoute(key, env);
    }
  }

  /** After any history of requests with any native failures, both sides hold the same rules and generation. */
  method PerformAll(rt: Runtime, history: seq<Request>)
    requires rt.Agrees() && rt.rulesOpen
    modifies rt, rt.store, rt.store.heap, rt.store.stats
    ensures rt.Agrees() && rt.rulesOpen
    ensures rt.Current() == After(old(rt.Current()), history)
    ensures rt.generation == old(rt.generation) + Successes(old(rt.Current()), history)
  {
    hide Asked, Succeeds, ValidRules;
    for i := 0 to |history|
      invariant rt.Agrees() && rt.rulesOpen
      invariant rt.Current() == After(old(rt.Current()), history[..i])
      invariant rt.generation == old(rt.generation) + Successes(old(rt.Current()), history[..i])
    {
      assert history[..i + 1][..i] == history[..i];
      var ok := Perform(rt, history[i].op, history[i].env);
    }
    assert history[..|history|] == history;
  }

  /**
   Whatever a caller writes later into the slices it passed in reaches neither side: the rules are
   those of the request if it succeeded, and the former ones if not.
   */
  method ReplaceThenScribble(rt: Runtime, rules: Slices, env: BuildEnv, flow: nat -> FlowRule, route: nat -> RouteRule)
    returns (ok: bool)
    requires rt.Agrees() && InBounds(rules)
    requires rules.flows.data != rt.currentRules.flows.data && rules.routes.data != rt.currentRules.routes.data
    modifies rt, rt.store, rt.store.heap, rt.store.stats, rules.flows.data, rules.routes.data
    ensures rt.Did(Replace(old(Denoted(rules))), env, ok)
    ensures forall i | 0 <= i < rules.flows.data.Length :: rules.flows.data[i] == flow(i)
    ensures forall i | 0 <= i < rules.routes.data.Length :: rules.routes.data[i] == route(i)
  {
    hide ValidRules, Store.Valid, Grants;
    ok := rt.ReplaceRules(rules, env);
    forall i | 0 <= i < rules.flows.data.Length {
      rules.flows.data[i] := flow(i);
    }
    forall i | 0 <= i < rules.routes.data.Length {
      rules.routes.data[i] := route(i);
    }
  }
}
