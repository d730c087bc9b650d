/** Rule sets, what makes one valid, and how the Go layer parses and validates them. */
module Rules {
  import opened Wrappers
  import opened Bytes
  import opened Actions
  import opened Parser

  const MAX_FLOW_RULES := 1024
  const MAX_ROUTE_RULES := 1024

  datatype FlowKey = FlowKey(srcIpv4: u32, dstIpv4: u32, srcPort: u16, dstPort: u16, l4Proto: byte)

  datatype FlowRule = FlowRule(srcIpv4: u32, dstIpv4: u32, srcPort: u16, dstPort: u16, l4Proto: byte, action: RuleAction)

  datatype RouteKey = RouteKey(prefix: u32, depth: byte)

  datatype RouteRule = RouteRule(prefix: u32, depth: byte, action: RuleAction)

  datatype RuleSet = RuleSet(flows: seq<FlowRule>, routes: seq<RouteRule>)

  function FlowRuleKey(r: FlowRule): FlowKey {
    FlowKey(r.srcIpv4, r.dstIpv4, r.srcPort, r.dstPort, r.l4Proto)
  }

  function RouteRuleKey(r: RouteRule): RouteKey {
    RouteKey(r.prefix, r.depth)
  }

  /** `a` with its low `n` bits cleared. */
  function ClearLow(a: nat, n: nat): (m: nat)
    ensures m <= a
  {
    if n == 0 then a else 2 * ClearLow(a / 2, n - 1)
  }

  /** `a & (UINT32_MAX << (32 - depth))`: the first `depth` bits of an address, the others cleared. */
  function Masked(a: u32, depth: byte): u32
    requires depth <= 32
  {
    ClearLow(a, 32 - depth)
  }

  // ---------- Validity ----------

  predicate ValidFlow(r: FlowRule) {
    r.l4Proto in {IPPROTO_TCP, IPPROTO_UDP} && ValidAction(r.action)
  }

  predicate ValidRoute(r: RouteRule) {
    1 <= r.depth <= 32 && Masked(r.prefix, r.depth) == r.prefix && ValidAction(r.action)
  }

  ghost predicate DistinctFlows(flows: seq<FlowRule>) {
    forall i, j | 0 <= i < j < |flows| :: FlowRuleKey(flows[i]) != FlowRuleKey(flows[j])
  }

  ghost predicate DistinctRoutes(routes: seq<RouteRule>) {
    forall i, j | 0 <= i < j < |routes| :: RouteRuleKey(routes[i]) != RouteRuleKey(routes[j])
  }

  ghost predicate ValidRules(rs: RuleSet) {
    && |rs.flows| <= MAX_FLOW_RULES && |rs.routes| <= MAX_ROUTE_RULES
    && (forall i | 0 <= i < |rs.flows| :: ValidFlow(rs.flows[i]))
    && (forall i | 0 <= i < |rs.routes| :: ValidRoute(rs.routes[i]))
    && DistinctFlows(rs.flows) && DistinctRoutes(rs.routes)
  }

  /** `validateRuleAction`. */
  method ValidateRuleAction(a: RuleAction) returns (ok: bool)
    ensures ok <==> ValidAction(a)
  {
    var validMask := REWRITE_SRC_IPV4 | REWRITE_DST_IPV4 | REWRITE_SRC_PORT | REWRITE_DST_PORT;
    if a.kind == ACTION_DROP || a.kind == ACTION_FORWARD {
      return a.rewriteMask == 0;
    }
    if a.kind != ACTION_REWRITE {
      return false;
    }
    return a.rewriteMask != 0 && a.rewriteMask & !validMask == 0;
  }

  datatype RuleError = Capacity | BadFlow(index: nat) | DuplicateFlow(index: nat) | BadRoute(index: nat) | DuplicateRoute(index: nat)

  ghost predicate FlowsFine(flows: seq<FlowRule>) {
    (forall i | 0 <= i < |flows| :: ValidFlow(flows[i])) && DistinctFlows(flows)
  }

  ghost predicate RoutesFine(routes: seq<RouteRule>) {
    (forall i | 0 <= i < |routes| :: ValidRoute(routes[i])) && DistinctRoutes(routes)
  }

  /** `e` is the first thing wrong with the rules, flows before routes. */
  ghost predicate Offends(rs: RuleSet, e: RuleError) {
    match e
    case Capacity => |rs.flows| > MAX_FLOW_RULES || |rs.routes| > MAX_ROUTE_RULES
    case BadFlow(i) => i < |rs.flows| && FlowsFine(rs.flows[..i]) && !ValidFlow(rs.flows[i])
    case DuplicateFlow(i) =>
      && i < |rs.flows| && FlowsFine(rs.flows[..i]) && ValidFlow(rs.flows[i])
      && exists j | 0 <= j < i :: FlowRuleKey(rs.flows[j]) == FlowRuleKey(rs.flows[i])
    case BadRoute(i) => FlowsFine(rs.flows) && i < |rs.routes| && RoutesFine(rs.routes[..i]) && !ValidRoute(rs.routes[i])
    case DuplicateRoute(i) =>
      && FlowsFine(rs.flows) && i < |rs.routes| && RoutesFine(rs.routes[..i]) && ValidRoute(rs.routes[i])
      && exists j | 0 <= j < i :: RouteRuleKey(rs.routes[j]) == RouteRuleKey(rs.routes[i])
  }

  /** `validateRules`: the first offence, or none exactly for a valid set. */
  method ValidateRules(rs: RuleSet) returns (err: Option<RuleError>)
    ensures err.None? <==> ValidRules(rs)
    ensures err.Some? ==> Offends(rs, err.value)
  {
    if |rs.flows| > MAX_FLOW_RULES || |rs.routes| > MAX_ROUTE_RULES {
      return Some(Capacity);
    }
    var flowKeys: set<FlowKey> := {};
    for i := 0 to |rs.flows|
      invariant forall j | 0 <= j < i :: ValidFlow(rs.flows[j])
      invariant DistinctFlows(rs.flows[..i])
      invariant flowKeys == set j | 0 <= j < i :: FlowRuleKey(rs.flows[j])
    {
      var rule := rs.flows[i];
      if rule.l4Proto != IPPROTO_TCP && rule.l4Proto != IPPROTO_UDP {
        return Some(BadFlow(i));
      }
      var acceptable := ValidateRuleAction(rule.action);
      if !acceptable {
        return Some(BadFlow(i));
      }
      if FlowRuleKey(rule) in flowKeys {
        return Some(DuplicateFlow(i));
      }
      flowKeys := flowKeys + {FlowRuleKey(rule)};
    }
    assert rs.flows[..|rs.flows|] == rs.flows;
    var routeKeys: set<RouteKey> := {};
    for i := 0 to |rs.routes|
      invariant forall j | 0 <= j < i :: ValidRoute(rs.routes[j])
      invariant DistinctRoutes(rs.routes[..i])
      invariant routeKeys == set j | 0 <= j < i :: RouteRuleKey(rs.routes[j])
    {
      var rule := rs.routes[i];
      if rule.depth == 0 || rule.depth > 32 {
        return Some(BadRoute(i));
      }
      if Masked(rule.prefix, rule.depth) != rule.prefix {
        return Some(BadRoute(i));
      }
      var acceptable := ValidateRuleAction(rule.action);
      if !acceptable {
        return Some(BadRoute(i));
      }
      if RouteRuleKey(rule) in routeKeys {
        return Some(DuplicateRoute(i));
      }
      routeKeys := routeKeys + {RouteRuleKey(rule)};
    }
    assert rs.routes[..|rs.routes|] == rs.routes;
    return None;
  }

  // ---------- The rules document ----------

  /** An address field of a document: missing, text that is no IPv4 address, or an address. */
  datatype AddressField = Absent | Garbled | Address(value: u32)

  datatype ActionDocument = ActionDocument(kind: string, srcIpv4: AddressField, dstIpv4: AddressField,
                                           srcPort: Option<u16>, dstPort: Option<u16>)

  datatype FlowDocument = FlowDocument(srcIpv4: Option<u32>, dstIpv4: Option<u32>, srcPort: u16, dstPort: u16,
                                       protocol: string, action: ActionDocument)

  /** A CIDR text as the library reads it: `None` unless IPv4, else the address as written and the mask length. */
  datatype Cidr = Cidr(address: u32, depth: byte)

  datatype RouteDocument = RouteDocument(prefix: Option<Cidr>, action: ActionDocument)

  datatype RulesDocument = RulesDocument(flows: seq<FlowDocument>, routes: seq<RouteDocument>)

  function ParseProtocol(protocol: string): Option<byte> {
    if protocol == "tcp" then Some(IPPROTO_TCP) else if protocol == "udp" then Some(IPPROTO_UDP) else None
  }

  predicate NoRewriteFields(d: ActionDocument) {
    d.srcIpv4.Absent? && d.dstIpv4.Absent? && d.srcPort.None? && d.dstPort.None?
  }

  function FieldBit(present: bool, bit: bv8): bv8 {
    if present then bit else 0
  }

  function MaskOf(d: ActionDocument): bv8 {
    FieldBit(d.srcIpv4.Address?, REWRITE_SRC_IPV4) | FieldBit(d.dstIpv4.Address?, REWRITE_DST_IPV4)
    | FieldBit(d.srcPort.Some?, REWRITE_SRC_PORT) | FieldBit(d.dstPort.Some?, REWRITE_DST_PORT)
  }

  /** The action a document denotes, if any. */
  function ActionOf(d: ActionDocument): Option<RuleAction> {
    if d.kind == "drop" then
      if NoRewriteFields(d) then Some(RuleAction(ACTION_DROP, 0, 0, 0, 0, 0)) else None
    else if d.kind == "forward" then
      if NoRewriteFields(d) then Some(RuleAction(ACTION_FORWARD, 0, 0, 0, 0, 0)) else None
    else if d.kind == "rewrite" && !NoRewriteFields(d) && !d.srcIpv4.Garbled? && !d.dstIpv4.Garbled? then
      Some(RuleAction(ACTION_REWRITE, MaskOf(d),
                      if d.srcIpv4.Address? then d.srcIpv4.value else 0,
                      if d.dstIpv4.Address? then d.dstIpv4.value else 0,
                      if d.srcPort.Some? then d.srcPort.value else 0,
                      if d.dstPort.Some? then d.dstPort.value else 0))
    else None
  }

  /** The mask selects exactly the fields the document gives. */
  lemma MaskSelects(d: ActionDocument, a: RuleAction)
    requires a.rewriteMask == MaskOf(d)
    ensures Selects(a, REWRITE_SRC_IPV4) <==> d.srcIpv4.Address?
    ensures Selects(a, REWRITE_DST_IPV4) <==> d.dstIpv4.Address?
    ensures Selects(a, REWRITE_SRC_PORT) <==> d.srcPort.Some?
    ensures Selects(a, REWRITE_DST_PORT) <==> d.dstPort.Some?
    ensures a.rewriteMask & 0xF0 == 0
    ensures a.rewriteMask == 0 <==> !d.srcIpv4.Address? && !d.dstIpv4.Address? && d.srcPort.None? && d.dstPort.None?
  {
  }

  /** Whatever action a document denotes is one the native side accepts. */
  lemma ActionOfValid(d: ActionDocument)
    requires ActionOf(d).Some?
    ensures ValidAction(ActionOf(d).value)
  {
    MaskSelects(d, RuleAction(ACTION_REWRITE, MaskOf(d), 0, 0, 0, 0));
  }

  method ParseAction(d: ActionDocument) returns (r: Option<RuleAction>)
    ensures r == ActionOf(d)
  {
    var action := RuleAction(0, 0, 0, 0, 0, 0);
    if d.kind == "drop" {
      action := action.(kind := ACTION_DROP);
    } else if d.kind == "forward" {
      action := action.(kind := ACTION_FORWARD);
    } else if d.kind == "rewrite" {
      action := action.(kind := ACTION_REWRITE);
    } else {
      return None;
    }
    if action.kind != ACTION_REWRITE {
      if !d.srcIpv4.Absent? || !d.dstIpv4.Absent? || d.srcPort.Some? || d.dstPort.Some? {
        return None;
      }
      return Some(action);
    }
    if !d.srcIpv4.Absent? {
      if d.srcIpv4.Garbled? {
        return None;
      }
      action := action.(srcIpv4 := d.srcIpv4.value, rewriteMask := action.rewriteMask | REWRITE_SRC_IPV4);
    }
    if !d.dstIpv4.Absent? {
      if d.dstIpv4.Garbled? {
        return None;
      }
      action := action.(dstIpv4 := d.dstIpv4.value, rewriteMask := action.rewriteMask | REWRITE_DST_IPV4);
    }
    if d.srcPort.Some? {
      action := action.(srcPort := d.srcPort.value, rewriteMask := action.rewriteMask | REWRITE_SRC_PORT);
    }
    if d.dstPort.Some? {
      action := action.(dstPort := d.dstPort.value, rewriteMask := action.rewriteMask | REWRITE_DST_PORT);
    }
    MaskSelects(d, action);
    if action.rewriteMask == 0 {
      return None;
    }
    return Some(action);
  }

  function FlowOf(d: FlowDocument): Option<FlowRule> {
    if d.srcIpv4.None? || d.dstIpv4.None? || ParseProtocol(d.protocol).None? || ActionOf(d.action).None? then None
    else Some(FlowRule(d.srcIpv4.value, d.dstIpv4.value, d.srcPort, d.dstPort, ParseProtocol(d.protocol).value,
                       ActionOf(d.action).value))
  }

  function RouteOf(d: RouteDocument): Option<RouteRule> {
    if d.prefix.None? || !(1 <= d.prefix.value.depth <= 32) || ActionOf(d.action).None? then None
    else Some(RouteRule(Masked(d.prefix.value.address, d.prefix.value.depth), d.prefix.value.depth, ActionOf(d.action).value))
  }

  lemma ClearLowEven(c: nat, n: nat)
    requires n > 0
    ensures ClearLow(2 * c, n) == 2 * ClearLow(c, n - 1)
  {
    assert 2 * c / 2 == c;
  }

  lemma ClearLowHalf(a: nat, n: nat)
    requires n > 0
    ensures ClearLow(a, n) == 2 * ClearLow(a / 2, n - 1)
  {
  }

  lemma {:induction false} ClearLowTwice(a: nat, n: nat)
    ensures ClearLow(ClearLow(a, n), n) == ClearLow(a, n)
  {
    if n == 0 {
    } else {
      hide ClearLow;
      ClearLowTwice(a / 2, n - 1);
      ClearLowHalf(a, n);
      ClearLowEven(ClearLow(a / 2, n - 1), n);
    }
  }

  /** What single documents denote is valid by itself: normalization already masks the prefix. */
  lemma DenotedRulesValid(f: FlowDocument, r: RouteDocument)
    ensures FlowOf(f).Some? ==> ValidFlow(FlowOf(f).value)
    ensures RouteOf(r).Some? ==> ValidRoute(RouteOf(r).value)
  {
    if FlowOf(f).Some? {
      ActionOfValid(f.action);
    }
    if RouteOf(r).Some? {
      ActionOfValid(r.action);
      ClearLowTwice(r.prefix.value.address, 32 - r.prefix.value.depth);
    }
  }

  /** `rs` lists, in order, what the documents denote. */
  ghost predicate Denotes(d: RulesDocument, rs: RuleSet) {
    && |rs.flows| == |d.flows| && |rs.routes| == |d.routes|
    && (forall i | 0 <= i < |d.flows| :: FlowOf(d.flows[i]) == Some(rs.flows[i]))
    && (forall i | 0 <= i < |d.routes| :: RouteOf(d.routes[i]) == Some(rs.routes[i]))
  }

  /** `normalizeRules` succeeds exactly on the documents that denote a valid rule set, and returns it. */
  method NormalizeRules(d: RulesDocument) returns (r: Option<RuleSet>)
    ensures r.Some? ==> Denotes(d, r.value) && ValidRules(r.value)
    ensures r.None? ==> forall rs :: Denotes(d, rs) ==> !ValidRules(rs)
  {
    if |d.flows| > MAX_FLOW_RULES || |d.routes| > MAX_ROUTE_RULES {
      return None;
    }
    var flows: seq<FlowRule> := [];
    var flowKeys: set<FlowKey> := {};
    for i := 0 to |d.flows|
      invariant |flows| == i && forall j | 0 <= j < i :: FlowOf(d.flows[j]) == Some(flows[j]) && ValidFlow(flows[j])
      invariant DistinctFlows(flows)
      invariant flowKeys == set j | 0 <= j < i :: FlowRuleKey(flows[j])
    {
      var item := d.flows[i];
      if item.srcIpv4.None? || item.dstIpv4.None? {
        return None;
      }
      var protocol := ParseProtocol(item.protocol);
      if protocol.None? {
        return None;
      }
      var action := ParseAction(item.action);
      if action.None? {
        return None;
      }
      var rule := FlowRule(item.srcIpv4.value, item.dstIpv4.value, item.srcPort, item.dstPort, protocol.value, action.value);
      if FlowRuleKey(rule) in flowKeys {
        DuplicateFlowRefused(d, flows, i);
        return None;
      }
      DenotedRulesValid(item, RouteDocument(None, item.action));
      flowKeys := flowKeys + {FlowRuleKey(rule)};
      flows := flows + [rule];
    }
    var routes: seq<RouteRule> := [];
    var routeKeys: set<RouteKey> := {};
    for i := 0 to |d.routes|
      invariant |routes| == i && forall j | 0 <= j < i :: RouteOf(d.routes[j]) == Some(routes[j]) && ValidRoute(routes[j])
      invariant DistinctRoutes(routes)
      invariant routeKeys == set j | 0 <= j < i :: RouteRuleKey(routes[j])
    {
      var item := d.routes[i];
      if item.prefix.None? {
        return None;
      }
      var depth := item.prefix.value.depth;
      if depth > 32 || depth == 0 {
        return None;
      }
      var action := ParseAction(item.action);
      if action.None? {
        return None;
      }
      var rule := RouteRule(Masked(item.prefix.value.address, depth), depth, action.value);
      if RouteRuleKey(rule) in routeKeys {
        DuplicateRouteRefused(d, routes, i);
        return None;
      }
      DenotedRulesValid(FlowDocument(None, None, 0, 0, "", item.action), item);
      routeKeys := routeKeys + {RouteRuleKey(rule)};
      routes := routes + [rule];
    }
    return Some(RuleSet(flows, routes));
  }

  lemma DuplicateFlowRefused(d: RulesDocument, flows: seq<FlowRule>, i: nat)
    requires i == |flows| < |d.flows| && FlowOf(d.flows[i]).Some?
    requires forall j | 0 <= j < i :: FlowOf(d.flows[j]) == Some(flows[j])
    requires exists j | 0 <= j < i :: FlowRuleKey(flows[j]) == FlowRuleKey(FlowOf(d.flows[i]).value)
    ensures forall rs :: Denotes(d, rs) ==> !ValidRules(rs)
  {
    var j :| 0 <= j < i && FlowRuleKey(flows[j]) == FlowRuleKey(FlowOf(d.flows[i]).value);
    forall rs | Denotes(d, rs)
      ensures !ValidRules(rs)
    {
      assert FlowOf(d.flows[j]) == Some(rs.flows[j]) && FlowOf(d.flows[i]) == Some(rs.flows[i]);
    }
  }

  lemma DuplicateRouteRefused(d: RulesDocument, routes: seq<RouteRule>, i: nat)
    requires i == |routes| < |d.routes| && RouteOf(d.routes[i]).Some?
    requires forall j | 0 <= j < i :: RouteOf(d.routes[j]) == Some(routes[j])
    requires exists j | 0 <= j < i :: RouteRuleKey(routes[j]) == RouteRuleKey(RouteOf(d.routes[i]).value)
    ensures forall rs :: Denotes(d, rs) ==> !ValidRules(rs)
  {
    var j :| 0 <= j < i && RouteRuleKey(routes[j]) == RouteRuleKey(RouteOf(d.routes[i]).value);
    forall rs | Denotes(d, rs)
      ensures !ValidRules(rs)
    {
      assert RouteOf(d.routes[j]) == Some(rs.routes[j]) && RouteOf(d.routes[i]) == Some(rs.routes[i]);
    }
  }
}
