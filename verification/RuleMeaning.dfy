/**
 What rules mean, in numbers: prefixes as ranges whose size is a power of two, flows as equality of
 five fields, actions and protocols by their wire values. Lookup, validity and the rules document are
 shown to mean just that.
 */
module RuleMeaning {
  import opened Wrappers
  import opened Bytes
  import opened Actions
  import opened Parser
  import opened Rules
  import opened RuleIndex

  // ---------- Prefixes ----------

  function Pow2(n: nat): (p: nat)
    ensures p > 0
  {
    if n == 0 then 1 else 2 * Pow2(n - 1)
  }

  /** How many addresses share the first `depth` bits. */
  function RangeSize(depth: byte): (size: nat)
    requires depth <= 32
    ensures size > 0
  {
    Pow2(32 - depth)
  }

  /** `p` starts the range of prefixes of that depth in which `a` lies. */
  predicate StartsRange(p: nat, depth: byte, a: nat)
    requires depth <= 32
  {
    p % RangeSize(depth) == 0 && p <= a < p + RangeSize(depth)
  }

  function Halved(a: nat, n: nat): nat {
    if n == 0 then a else Halved(a / 2, n - 1)
  }

  lemma {:induction false} ClearLowIs(a: nat, n: nat)
    ensures ClearLow(a, n) == Halved(a, n) * Pow2(n) && ClearLow(a, n) <= a < ClearLow(a, n) + Pow2(n)
  {
    if n == 0 {
    } else {
      ClearLowIs(a / 2, n - 1);
      Doubled(Halved(a / 2, n - 1), Pow2(n - 1));
    }
  }

  lemma Doubled(k: nat, p: nat)
    ensures k * (2 * p) == 2 * (k * p)
  {
  }

  lemma AtLeastOnce(k: int, size: nat)
    requires k >= 1
    ensures k * size >= size
  {
  }

  /** Two multiples of `size` that both lie at most `size - 1` below the same number are one. */
  lemma OneRange(p: nat, q: nat, size: nat, a: nat)
    requires size > 0 && p % size == 0 && q % size == 0
    requires p <= a < p + size && q <= a < q + size
    ensures p == q
  {
    var i, j := p / size, q / size;
    assert p == i * size && q == j * size;
    if i > j {
      Spread(i, j, size);
    } else if j > i {
      Spread(j, i, size);
    }
  }

  lemma Spread(i: nat, j: nat, size: nat)
    requires i > j
    ensures i * size >= j * size + size
  {
    AtLeastOnce(i - j, size);
    assert i * size - j * size == (i - j) * size;
  }

  lemma MultipleOf(k: nat, size: nat)
    requires size > 0
    ensures (k * size) % size == 0
  {
    var n := k * size;
    var q := n / size;
    Division(n, size);
    if k > q {
      Spread(k, q, size);
    } else if q > k {
      Spread(q, k, size);
    }
  }

  lemma Division(n: nat, size: nat)
    requires size > 0
    ensures n == n / size * size + n % size
  {
  }

  /** Masking an address gives the start of its range, and nothing else does. */
  lemma MaskedStarts(a: u32, depth: byte, p: nat)
    requires depth <= 32
    ensures p == Masked(a, depth) <==> StartsRange(p, depth, a)
  {
    var size := RangeSize(depth);
    ClearLowIs(a, 32 - depth);
    MultipleOf(Halved(a, 32 - depth), size);
    if StartsRange(p, depth, a) {
      OneRange(p, Masked(a, depth), size, a);
    }
  }

  // ---------- Validity ----------

  /** 0 drops, 1 forwards, 2 rewrites the fields whose bits are set: at least one of four. */
  predicate WireAction(a: RuleAction) {
    if a.kind == 0 || a.kind == 1 then a.rewriteMask == 0 else a.kind == 2 && 1 <= a.rewriteMask <= 15
  }

  predicate SameFive(f: FlowRule, g: FlowRule) {
    f.srcIpv4 == g.srcIpv4 && f.dstIpv4 == g.dstIpv4 && f.srcPort == g.srcPort && f.dstPort == g.dstPort && f.l4Proto == g.l4Proto
  }

  predicate WireFlow(f: FlowRule) {
    (f.l4Proto == 6 || f.l4Proto == 17) && WireAction(f.action)
  }

  /** The prefix is the first address of its range. */
  predicate WireRoute(r: RouteRule) {
    1 <= r.depth <= 32 && r.prefix % RangeSize(r.depth) == 0 && WireAction(r.action)
  }

  ghost predicate WireRules(rs: RuleSet) {
    && |rs.flows| <= 1024 && |rs.routes| <= 1024
    && (forall i | 0 <= i < |rs.flows| :: WireFlow(rs.flows[i]))
    && (forall i | 0 <= i < |rs.routes| :: WireRoute(rs.routes[i]))
    && (forall i, j | 0 <= i < j < |rs.flows| :: !SameFive(rs.flows[i], rs.flows[j]))
    && (forall i, j | 0 <= i < j < |rs.routes| ::
          rs.routes[i].prefix != rs.routes[j].prefix || rs.routes[i].depth != rs.routes[j].depth)
  }

  lemma ActionOnWire(a: RuleAction)
    ensures ValidAction(a) <==> WireAction(a)
  {
  }

  lemma FlowOnWire(f: FlowRule)
    ensures ValidFlow(f) <==> WireFlow(f)
  {
    ActionOnWire(f.action);
    hide ValidAction, WireAction;
  }

  lemma RouteOnWire(r: RouteRule)
    ensures ValidRoute(r) <==> WireRoute(r)
  {
    hide ValidAction, WireAction, Masked;
    ActionOnWire(r.action);
    if 1 <= r.depth <= 32 {
      MaskedStarts(r.prefix, r.depth, r.prefix);
    }
  }

  lemma KeysOnFields(f: FlowRule, g: FlowRule, r: RouteRule, q: RouteRule)
    ensures FlowRuleKey(f) == FlowRuleKey(g) <==> SameFive(f, g)
    ensures RouteRuleKey(r) == RouteRuleKey(q) <==> r.prefix == q.prefix && r.depth == q.depth
  {
  }

  /** A rule set is valid exactly if its numbers are: counts, protocols, aligned prefixes, actions, no duplicates. */
  lemma ValidOnWire(rs: RuleSet)
    ensures ValidRules(rs) <==> WireRules(rs)
  {
    hide ValidFlow, ValidRoute, WireFlow, WireRoute;
    forall i | 0 <= i < |rs.flows|
      ensures ValidFlow(rs.flows[i]) <==> WireFlow(rs.flows[i])
    {
      FlowOnWire(rs.flows[i]);
    }
    forall i | 0 <= i < |rs.routes|
      ensures ValidRoute(rs.routes[i]) <==> WireRoute(rs.routes[i])
    {
      RouteOnWire(rs.routes[i]);
    }
  }

  // ---------- Lookup ----------

  /** The flow is for exactly the packets of these addresses, ports and protocol. */
  predicate Names(f: FlowRule, m: Meta) {
    f.srcIpv4 == m.srcIpv4 && f.dstIpv4 == m.dstIpv4 && f.srcPort == m.srcPort && f.dstPort == m.dstPort && f.l4Proto == m.l4Proto
  }

  predicate Covers(r: RouteRule, dst: u32) {
    1 <= r.depth <= 32 && r.prefix <= dst < r.prefix + RangeSize(r.depth)
  }

  ghost predicate Named(rs: RuleSet, m: Meta) {
    exists i | 0 <= i < |rs.flows| :: Names(rs.flows[i], m)
  }

  /** No route covers the address with a smaller range. */
  ghost predicate Tightest(rs: RuleSet, i: nat, dst: u32)
    requires i < |rs.routes|
  {
    Covers(rs.routes[i], dst) && forall j | 0 <= j < |rs.routes| && Covers(rs.routes[j], dst) :: rs.routes[j].depth <= rs.routes[i].depth
  }

  /** An exact flow decides; else the route with the smallest range around the destination; else nothing does. */
  ghost predicate Answers(rs: RuleSet, m: Meta, d: Decision) {
    match d
    case FlowHit(a) => exists i | 0 <= i < |rs.flows| :: Names(rs.flows[i], m) && rs.flows[i].action == a
    case RouteHit(a) => !Named(rs, m) && exists i | 0 <= i < |rs.routes| :: Tightest(rs, i, m.dstIpv4) && rs.routes[i].action == a
    case Miss => !Named(rs, m) && forall i | 0 <= i < |rs.routes| :: !Covers(rs.routes[i], m.dstIpv4)
  }

  lemma MatchesCovers(r: RouteRule, dst: u32)
    requires ValidRoute(r)
    ensures RouteMatches(r, dst) <==> Covers(r, dst)
  {
    RouteOnWire(r);
    hide ValidAction, WireAction, Masked;
    MaskedStarts(dst, r.depth, r.prefix);
  }

  lemma KeyNames(f: FlowRule, m: Meta)
    ensures FlowRuleKey(f) == FlowKeyFromMeta(m) <==> Names(f, m)
  {
  }

  lemma NaiveAnswers(rs: RuleSet, m: Meta)
    requires ValidRules(rs)
    ensures Answers(rs, m, Naive(rs, m))
  {
    var key, dst := FlowKeyFromMeta(m), m.dstIpv4;
    hide ValidFlow, ValidRoute, Covers, RouteMatches, FlowKeyFromMeta, Names;
    forall i | 0 <= i < |rs.flows|
      ensures FlowRuleKey(rs.flows[i]) == key <==> Names(rs.flows[i], m)
    {
      KeyNames(rs.flows[i], m);
    }
    if Named(rs, m) {
      var i :| 0 <= i < |rs.flows| && Names(rs.flows[i], m);
      ScanFlowsFinds(rs.flows, key, i);
    } else {
      ScanFlowsMisses(rs.flows, key);
      ScanAnswers(rs, dst);
    }
  }

  lemma ScanAnswers(rs: RuleSet, dst: u32)
    requires ValidRules(rs)
    ensures match ScanRoutes(rs.routes, dst)
            case Some(r) => exists i | 0 <= i < |rs.routes| :: Tightest(rs, i, dst) && rs.routes[i].action == r.action
            case None => forall i | 0 <= i < |rs.routes| :: !Covers(rs.routes[i], dst)
  {
    hide ValidFlow, ValidRoute, Covers, RouteMatches;
    ScanRoutesLongest(rs.routes, dst);
    forall i | 0 <= i < |rs.routes|
      ensures RouteMatches(rs.routes[i], dst) <==> Covers(rs.routes[i], dst)
    {
      MatchesCovers(rs.routes[i], dst);
    }
    var found := ScanRoutes(rs.routes, dst);
    if found.Some? {
      var i :| 0 <= i < |rs.routes| && rs.routes[i] == found.value;
      assert Tightest(rs, i, dst);
    }
  }

  lemma NamedOnce(rs: RuleSet, m: Meta, i: nat, j: nat)
    requires ValidRules(rs) && i < |rs.flows| && j < |rs.flows| && Names(rs.flows[i], m) && Names(rs.flows[j], m)
    ensures i == j
  {
    hide ValidFlow, ValidRoute;
    assert FlowRuleKey(rs.flows[i]) == FlowRuleKey(rs.flows[j]);
  }

  lemma TightestOnce(rs: RuleSet, dst: u32, i: nat, j: nat)
    requires ValidRules(rs) && i < |rs.routes| && j < |rs.routes| && Tightest(rs, i, dst) && Tightest(rs, j, dst)
    ensures i == j
  {
    hide ValidFlow, RangeSize;
    var x, y := rs.routes[i], rs.routes[j];
    assert x.depth == y.depth;
    RouteOnWire(x);
    RouteOnWire(y);
    OneRange(x.prefix, y.prefix, RangeSize(x.depth), dst);
    assert RouteRuleKey(x) == RouteRuleKey(y);
  }

  /** For a valid rule set there is one answer, and the scan of the lists gives it. */
  lemma LookupMeans(rs: RuleSet, m: Meta, d: Decision)
    requires ValidRules(rs)
    ensures Naive(rs, m) == d <==> Answers(rs, m, d)
  {
    NaiveAnswers(rs, m);
    if Answers(rs, m, d) {
      OneAnswer(rs, m, d, Naive(rs, m));
    }
  }

  lemma OneAnswer(rs: RuleSet, m: Meta, d: Decision, e: Decision)
    requires ValidRules(rs) && Answers(rs, m, d) && Answers(rs, m, e)
    ensures d == e
  {
    hide ValidRules, Names, Covers;
    if d.FlowHit? && e.FlowHit? {
      var i :| 0 <= i < |rs.flows| && Names(rs.flows[i], m) && rs.flows[i].action == d.action;
      var j :| 0 <= j < |rs.flows| && Names(rs.flows[j], m) && rs.flows[j].action == e.action;
      NamedOnce(rs, m, i, j);
    } else if d.RouteHit? && e.RouteHit? {
      var i :| 0 <= i < |rs.routes| && Tightest(rs, i, m.dstIpv4) && rs.routes[i].action == d.action;
      var j :| 0 <= j < |rs.routes| && Tightest(rs, j, m.dstIpv4) && rs.routes[j].action == e.action;
      TightestOnce(rs, m.dstIpv4, i, j);
    }
  }

  /** The tables of a snapshot built from a valid rule set give that answer. */
  lemma TablesMean(s: Snapshot, rs: RuleSet, m: Meta, d: Decision)
    requires Indexes(s, rs) && ValidRules(rs)
    ensures Decide(s, m) == d <==> Answers(rs, m, d)
  {
    hide Indexes, ValidRules, Answers, Decide, Naive;
    IndexAgreesWithLists(s, rs, m);
    LookupMeans(rs, m, d);
  }

  // ---------- The rules document ----------

  function MaskBit(present: bool, bit: bv8): bv8 {
    if present then bit else 0
  }

  function Given(field: Option<u16>): u16 {
    if field.Some? then field.value else 0
  }

  function GivenAddress(field: AddressField): u32 {
    if field.Address? then field.value else 0
  }

  /** The action a document asks for: its type, and for a rewrite the fields given and a bit for each of them. */
  predicate AsksFor(d: ActionDocument, a: RuleAction) {
    var empty := d.srcIpv4.Absent? && d.dstIpv4.Absent? && d.srcPort.None? && d.dstPort.None?;
    || (d.kind == "drop" && empty && a == RuleAction(0, 0, 0, 0, 0, 0))
    || (d.kind == "forward" && empty && a == RuleAction(1, 0, 0, 0, 0, 0))
    || (d.kind == "rewrite" && !empty && !d.srcIpv4.Garbled? && !d.dstIpv4.Garbled?
        && a.kind == 2
        && a.rewriteMask == MaskBit(d.srcIpv4.Address?, 1) + MaskBit(d.dstIpv4.Address?, 2)
                            + MaskBit(d.srcPort.Some?, 4) + MaskBit(d.dstPort.Some?, 8)
        && a.srcIpv4 == GivenAddress(d.srcIpv4) && a.dstIpv4 == GivenAddress(d.dstIpv4)
        && a.srcPort == Given(d.srcPort) && a.dstPort == Given(d.dstPort))
  }

  lemma ActionMeans(d: ActionDocument, a: RuleAction)
    ensures ActionOf(d) == Some(a) <==> AsksFor(d, a)
  {
    assert MaskOf(d) == MaskBit(d.srcIpv4.Address?, 1) + MaskBit(d.dstIpv4.Address?, 2)
                        + MaskBit(d.srcPort.Some?, 4) + MaskBit(d.dstPort.Some?, 8);
    hide MaskOf, MaskBit;
  }

  lemma FlowMeans(d: FlowDocument, f: FlowRule)
    ensures FlowOf(d) == Some(f) <==>
            && d.srcIpv4 == Some(f.srcIpv4) && d.dstIpv4 == Some(f.dstIpv4) && d.srcPort == f.srcPort && d.dstPort == f.dstPort
            && ((d.protocol == "tcp" && f.l4Proto == 6) || (d.protocol == "udp" && f.l4Proto == 17))
            && AsksFor(d.action, f.action)
  {
    hide ActionOf, AsksFor;
    ActionMeans(d.action, f.action);
  }

  /** A route document stands for the range its address lies in, whichever address of it is written. */
  lemma RouteMeans(d: RouteDocument, r: RouteRule)
    ensures RouteOf(d) == Some(r) <==>
            && d.prefix.Some? && 1 <= r.depth == d.prefix.value.depth <= 32
            && StartsRange(r.prefix, r.depth, d.prefix.value.address)
            && AsksFor(d.action, r.action)
  {
    hide ActionOf, AsksFor, Masked, StartsRange;
    ActionMeans(d.action, r.action);
    if d.prefix.Some? && 1 <= d.prefix.value.depth <= 32 {
      MaskedStarts(d.prefix.value.address, d.prefix.value.depth, r.prefix);
    }
  }
}
