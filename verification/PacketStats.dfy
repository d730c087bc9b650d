/**
 The per-worker packet counters and the five equations between them. The counters are 64-bit and
 wrap; they are specified as the wrapped image of exact counts.
 */
module PacketStats {
  import opened Actions
  import opened Parser
  import opened RuleIndex
  import opened Rules
  import opened Router

  const WRAP := 0x1_0000_0000_0000_0000

  /** `uint64_t` arithmetic wraps around: the low 64 bits of a count. */
  function Wrap(n: nat): nat {
    n % WRAP
  }

  function Add(x: nat, n: nat): nat {
    Wrap(x + n)
  }

  /** Sixteen counters: either the 64-bit fields, or exact counts. */
  datatype Counters = Counters(rx: nat, parseOk: nat, parseUnsupported: nat, parseMalformed: nat, flowHit: nat,
                               routeHit: nat, lookupMiss: nat, actionDrop: nat, actionForward: nat, actionRewrite:
                               nat, txAccepted: nat, txUnsent: nat, drop: nat, rxBursts: nat, rxEmptyPolls: nat,
                               txBursts: nat)

  const NOTHING := Counters(0, 0, 0, 0, 0, 0, 0, 0, 0, 0, 0, 0, 0, 0, 0, 0)

  datatype Counter = RX | PARSE_OK | PARSE_UNSUPPORTED | PARSE_MALFORMED | FLOW_HIT_COUNT | ROUTE_HIT_COUNT | LOOKUP_MISS |
    ACTED_DROP | ACTED_FORWARD | ACTED_REWRITE | TX_ACCEPTED | TX_UNSENT | DROP | RX_BURSTS | RX_EMPTY_POLLS
    | TX_BURSTS

  function Read(c: Counters, k: Counter): nat {
    match k
    case RX => c.rx
    case PARSE_OK => c.parseOk
    case PARSE_UNSUPPORTED => c.parseUnsupported
    case PARSE_MALFORMED => c.parseMalformed
    case FLOW_HIT_COUNT => c.flowHit
    case ROUTE_HIT_COUNT => c.routeHit
    case LOOKUP_MISS => c.lookupMiss
    case ACTED_DROP => c.actionDrop
    case ACTED_FORWARD => c.actionForward
    case ACTED_REWRITE => c.actionRewrite
    case TX_ACCEPTED => c.txAccepted
    case TX_UNSENT => c.txUnsent
    case DROP => c.drop
    case RX_BURSTS => c.rxBursts
    case RX_EMPTY_POLLS => c.rxEmptyPolls
    case TX_BURSTS => c.txBursts
  }

  /** The counters of `c` are the counts of `t`, wrapped. */
  ghost predicate Image(c: Counters, t: Counters) {
    forall k: Counter :: Read(c, k) == Wrap(Read(t, k))
  }

  /** `t` with one count raised by `n`. */
  function Bumped(t: Counters, k: Counter, n: nat): Counters {
    match k
    case RX => t.(rx := t.rx + n)
    case PARSE_OK => t.(parseOk := t.parseOk + n)
    case PARSE_UNSUPPORTED => t.(parseUnsupported := t.parseUnsupported + n)
    case PARSE_MALFORMED => t.(parseMalformed := t.parseMalformed + n)
    case FLOW_HIT_COUNT => t.(flowHit := t.flowHit + n)
    case ROUTE_HIT_COUNT => t.(routeHit := t.routeHit + n)
    case LOOKUP_MISS => t.(lookupMiss := t.lookupMiss + n)
    case ACTED_DROP => t.(actionDrop := t.actionDrop + n)
    case ACTED_FORWARD => t.(actionForward := t.actionForward + n)
    case ACTED_REWRITE => t.(actionRewrite := t.actionRewrite + n)
    case TX_ACCEPTED => t.(txAccepted := t.txAccepted + n)
    case TX_UNSENT => t.(txUnsent := t.txUnsent + n)
    case DROP => t.(drop := t.drop + n)
    case RX_BURSTS => t.(rxBursts := t.rxBursts + n)
    case RX_EMPTY_POLLS => t.(rxEmptyPolls := t.rxEmptyPolls + n)
    case TX_BURSTS => t.(txBursts := t.txBursts + n)
  }

  /** `struct dp_packet_stats`, written in place by its one worker; `exact` counts without wrapping. */
  class Stats {
    var c: Counters
    ghost var exact: Counters

    ghost predicate Valid()
      reads this
    {
      Image(c, exact)
    }

    constructor ()
      ensures Valid() && exact == NOTHING
    {
      c := Counters(0, 0, 0, 0, 0, 0, 0, 0, 0, 0, 0, 0, 0, 0, 0, 0);
      exact := NOTHING;
    }

    /** One `+=` on one counter. */
    method Bump(k: Counter, n: nat)
      requires Valid()
      modifies this
      ensures Valid() && exact == Bumped(old(exact), k, n)
    {
      BumpWraps(c, exact, k, n);
      c := Raised(c, k, n);
      exact := Bumped(exact, k, n);
    }
  }

  /** One counter raised in wrapping arithmetic. */
  function Raised(c: Counters, k: Counter, n: nat): Counters {
    match k
    case RX => c.(rx := Add(c.rx, n))
    case PARSE_OK => c.(parseOk := Add(c.parseOk, n))
    case PARSE_UNSUPPORTED => c.(parseUnsupported := Add(c.parseUnsupported, n))
    case PARSE_MALFORMED => c.(parseMalformed := Add(c.parseMalformed, n))
    case FLOW_HIT_COUNT => c.(flowHit := Add(c.flowHit, n))
    case ROUTE_HIT_COUNT => c.(routeHit := Add(c.routeHit, n))
    case LOOKUP_MISS => c.(lookupMiss := Add(c.lookupMiss, n))
    case ACTED_DROP => c.(actionDrop := Add(c.actionDrop, n))
    case ACTED_FORWARD => c.(actionForward := Add(c.actionForward, n))
    case ACTED_REWRITE => c.(actionRewrite := Add(c.actionRewrite, n))
    case TX_ACCEPTED => c.(txAccepted := Add(c.txAccepted, n))
    case TX_UNSENT => c.(txUnsent := Add(c.txUnsent, n))
    case DROP => c.(drop := Add(c.drop, n))
    case RX_BURSTS => c.(rxBursts := Add(c.rxBursts, n))
    case RX_EMPTY_POLLS => c.(rxEmptyPolls := Add(c.rxEmptyPolls, n))
    case TX_BURSTS => c.(txBursts := Add(c.txBursts, n))
  }

  lemma BumpWraps(c: Counters, t: Counters, k: Counter, n: nat)
    requires Image(c, t)
    ensures Image(Raised(c, k, n), Bumped(t, k, n))
  {
    forall j: Counter
      ensures Read(Raised(c, k, n), j) == Wrap(Read(Bumped(t, k, n), j))
    {
      assert Read(c, j) == Wrap(Read(t, j));
      ReadBumped(c, t, k, n, j);
      WrapTerm(Read(t, j), n);
    }
  }

  lemma ReadBumped(c: Counters, t: Counters, k: Counter, n: nat, j: Counter)
    ensures Read(Raised(c, k, n), j) == if j == k then Add(Read(c, j), n) else Read(c, j)
    ensures Read(Bumped(t, k, n), j) == if j == k then Read(t, j) + n else Read(t, j)
  {
  }

  // ---------- What happened, counted exactly ----------

  /** What becomes of one buffer before its action runs. */
  datatype Verdict = UnsupportedFrame | MalformedFrame | Decided(decision: Decision)

  function VerdictOf(rs: RuleSet, b: Buffer): Verdict {
    match Parsed(b)
    case Unsupported => UnsupportedFrame
    case Malformed => MalformedFrame
    case Ok(meta) => Decided(Naive(rs, meta))
  }

  /** What processing one buffer adds to the counts. */
  function CountVerdict(t: Counters, v: Verdict): Counters {
    match v
    case UnsupportedFrame => t.(parseUnsupported := t.parseUnsupported + 1, drop := t.drop + 1)
    case MalformedFrame => t.(parseMalformed := t.parseMalformed + 1, drop := t.drop + 1)
    case Decided(d) => CountDecision(t.(parseOk := t.parseOk + 1), d)
  }

  function CountDecision(t: Counters, d: Decision): Counters {
    match d
    case Miss => CountDrop(t.(lookupMiss := t.lookupMiss + 1))
    case FlowHit(a) => CountAction(t.(flowHit := t.flowHit + 1), a)
    case RouteHit(a) => CountAction(t.(routeHit := t.routeHit + 1), a)
  }

  function CountDrop(t: Counters): Counters {
    t.(actionDrop := t.actionDrop + 1, drop := t.drop + 1)
  }

  function CountAction(t: Counters, a: RuleAction): Counters {
    if a.kind == ACTION_FORWARD then t.(actionForward := t.actionForward + 1)
    else if a.kind == ACTION_REWRITE && a.rewriteMask != 0 then t.(actionRewrite := t.actionRewrite + 1)
    else CountDrop(t)
  }

  function Verdicts(rs: RuleSet, burst: seq<Buffer>): (vs: seq<Verdict>)
    ensures |vs| == |burst|
  {
    if burst == [] then [] else Verdicts(rs, burst[..|burst| - 1]) + [VerdictOf(rs, burst[|burst| - 1])]
  }

  lemma {:induction false} VerdictsAt(rs: RuleSet, burst: seq<Buffer>, i: nat)
    requires i < |burst|
    ensures Verdicts(rs, burst)[i] == VerdictOf(rs, burst[i])
  {
    if i == |burst| - 1 {
    } else {
      VerdictsAt(rs, burst[..|burst| - 1], i);
    }
  }

  function CountAll(t: Counters, vs: seq<Verdict>): Counters {
    if vs == [] then t else CountVerdict(CountAll(t, vs[..|vs| - 1]), vs[|vs| - 1])
  }

  function CountTx(t: Counters, accepted: nat, unsent: nat): Counters {
    t.(txAccepted := t.txAccepted + accepted, txUnsent := t.txUnsent + unsent, drop := t.drop + unsent)
  }

  /** One iteration of the worker loop, over packets judged `vs`, of which TX takes `accepted` of `offered`. */
  function CountBurst(t: Counters, vs: seq<Verdict>, offered: nat, accepted: nat): Counters
    requires accepted <= offered
  {
    var polled := t.(rxBursts := t.rxBursts + 1);
    if vs == [] then polled.(rxEmptyPolls := polled.rxEmptyPolls + 1)
    else
      CountOffer(CountAll(polled.(rx := polled.rx + |vs|), vs), offered, accepted)
  }

  /** A burst of `offered` packets, if there are any, goes to TX. */
  function CountOffer(t: Counters, offered: nat, accepted: nat): Counters
    requires accepted <= offered
  {
    if offered == 0 then t else CountTx(t.(txBursts := t.txBursts + 1), accepted, offered - accepted)
  }

  // ---------- The five equations ----------

  /** The equations on exact counts, with `unparsed` packets not yet processed and `unsent` not yet offered. */
  predicate BalancedUpTo(t: Counters, unparsed: nat, unsent: nat) {
    && t.rx == t.parseOk + t.parseUnsupported + t.parseMalformed + unparsed
    && t.parseOk == t.flowHit + t.routeHit + t.lookupMiss
    && t.parseOk == t.actionDrop + t.actionForward + t.actionRewrite
    && t.actionForward + t.actionRewrite == t.txAccepted + t.txUnsent + unsent
    && t.drop == t.parseUnsupported + t.parseMalformed + t.actionDrop + t.txUnsent
  }

  /** The equations as a reader of the 64-bit counters can check them. */
  predicate Balanced(c: Counters) {
    && c.rx == Wrap(c.parseOk + c.parseUnsupported + c.parseMalformed)
    && c.parseOk == Wrap(c.flowHit + c.routeHit + c.lookupMiss)
    && c.parseOk == Wrap(c.actionDrop + c.actionForward + c.actionRewrite)
    && Wrap(c.actionForward + c.actionRewrite) == Wrap(c.txAccepted + c.txUnsent)
    && c.drop == Wrap(c.parseUnsupported + c.parseMalformed + c.actionDrop + c.txUnsent)
  }

  lemma Absorb(x: nat, k: nat)
    ensures Wrap(x + WRAP * k) == Wrap(x)
  {
  }

  /** Wrapping a term before or after adding the others gives the same. */
  lemma WrapTerm(n: nat, rest: nat)
    ensures Wrap(Wrap(n) + rest) == Wrap(n + rest)
  {
    Absorb(Wrap(n) + rest, n / WRAP);
    assert n + rest == Wrap(n) + rest + WRAP * (n / WRAP);
  }

  lemma WrapSum3(a: nat, b: nat, c: nat)
    ensures Wrap(Wrap(a) + Wrap(b) + Wrap(c)) == Wrap(a + b + c)
  {
    WrapTerm(a, Wrap(b) + Wrap(c));
    WrapTerm(b, a + Wrap(c));
    WrapTerm(c, a + b);
  }

  lemma WrapSum4(a: nat, b: nat, c: nat, d: nat)
    ensures Wrap(Wrap(a) + Wrap(b) + Wrap(c) + Wrap(d)) == Wrap(a + b + c + d)
  {
    WrapTerm(a, Wrap(b) + Wrap(c) + Wrap(d));
    WrapTerm(b, a + Wrap(c) + Wrap(d));
    WrapTerm(c, a + b + Wrap(d));
    WrapTerm(d, a + b + c);
  }

  lemma WrapSum2(a: nat, b: nat)
    ensures Wrap(Wrap(a) + Wrap(b)) == Wrap(a + b)
  {
    WrapTerm(a, Wrap(b));
    WrapTerm(b, a);
  }

  /** Counters that wrap any number of times still satisfy the equations. */
  lemma WrappedBalanced(c: Counters, t: Counters)
    requires Image(c, t) && BalancedUpTo(t, 0, 0)
    ensures Balanced(c)
  {
    hide Wrap, Image;
    ImageFields(c, t);
    WrapSum3(t.parseOk, t.parseUnsupported, t.parseMalformed);
    WrapSum3(t.flowHit, t.routeHit, t.lookupMiss);
    WrapSum3(t.actionDrop, t.actionForward, t.actionRewrite);
    WrapSum2(t.actionForward, t.actionRewrite);
    WrapSum2(t.txAccepted, t.txUnsent);
    WrapSum4(t.parseUnsupported, t.parseMalformed, t.actionDrop, t.txUnsent);
  }

  lemma ImageFields(c: Counters, t: Counters)
    requires Image(c, t)
    ensures c.rx == Wrap(t.rx) && c.parseOk == Wrap(t.parseOk) && c.parseUnsupported == Wrap(t.parseUnsupported)
    ensures c.parseMalformed == Wrap(t.parseMalformed) && c.flowHit == Wrap(t.flowHit) && c.routeHit == Wrap(t.routeHit)
    ensures c.lookupMiss == Wrap(t.lookupMiss) && c.actionDrop == Wrap(t.actionDrop) && c.drop == Wrap(t.drop)
    ensures c.actionForward == Wrap(t.actionForward) && c.actionRewrite == Wrap(t.actionRewrite)
    ensures c.txAccepted == Wrap(t.txAccepted) && c.txUnsent == Wrap(t.txUnsent)
  {
    assert forall k: Counter :: Read(c, k) == Wrap(Read(t, k));
    assert Read(c, RX) == c.rx && Read(c, PARSE_OK) == c.parseOk && Read(c, PARSE_UNSUPPORTED) == c.parseUnsupported;
    assert Read(c, PARSE_MALFORMED) == c.parseMalformed && Read(c, FLOW_HIT_COUNT) == c.flowHit;
    assert Read(c, ROUTE_HIT_COUNT) == c.routeHit && Read(c, LOOKUP_MISS) == c.lookupMiss && Read(c, DROP) == c.drop;
    assert Read(c, ACTED_DROP) == c.actionDrop && Read(c, ACTED_FORWARD) == c.actionForward;
    assert Read(c, ACTED_REWRITE) == c.actionRewrite && Read(c, TX_ACCEPTED) == c.txAccepted && Read(c, TX_UNSENT) == c.txUnsent;
  }

  /** The frame will be offered to TX. */
  predicate Sends(v: Verdict) {
    && v.Decided? && !v.decision.Miss?
    && var a := v.decision.action;
       a.kind == ACTION_FORWARD || (a.kind == ACTION_REWRITE && a.rewriteMask != 0)
  }

  lemma RouteSends(rs: RuleSet, b: Buffer)
    ensures Route(rs, b).Some? <==> Sends(VerdictOf(rs, b))
  {
  }

  /** The equations with one parsed and looked-up packet whose action is still to be counted. */
  predicate ActionDue(t: Counters, unparsed: nat, unsent: nat) {
    t.parseOk > 0 && BalancedUpTo(t.(actionDrop := t.actionDrop + 1, drop := t.drop + 1), unparsed, unsent)
  }

  lemma ActionSettles(t: Counters, a: RuleAction, unparsed: nat, unsent: nat)
    requires ActionDue(t, unparsed, unsent)
    ensures BalancedUpTo(CountDrop(t), unparsed, unsent)
    ensures BalancedUpTo(CountAction(t, a), unparsed, if Sends(Decided(FlowHit(a))) then unsent + 1 else unsent)
  {
  }

  lemma CountVerdictBalanced(t: Counters, v: Verdict, unparsed: nat, unsent: nat)
    requires BalancedUpTo(t, unparsed + 1, unsent)
    ensures BalancedUpTo(CountVerdict(t, v), unparsed, if Sends(v) then unsent + 1 else unsent)
  {
    hide CountAction, CountDrop;
    if v.Decided? {
      var parsed := t.(parseOk := t.parseOk + 1);
      match v.decision
      case Miss => ActionSettles(parsed.(lookupMiss := t.lookupMiss + 1), ZEROED, unparsed, unsent);
      case FlowHit(a) => ActionSettles(parsed.(flowHit := t.flowHit + 1), a, unparsed, unsent);
      case RouteHit(a) => ActionSettles(parsed.(routeHit := t.routeHit + 1), a, unparsed, unsent);
    }
  }

  /** How many of the packets are offered to TX. */
  function Offered(vs: seq<Verdict>): nat {
    if vs == [] then 0 else Offered(vs[..|vs| - 1]) + if Sends(vs[|vs| - 1]) then 1 else 0
  }

  lemma {:induction false} OfferedRoutes(rs: RuleSet, burst: seq<Buffer>)
    ensures Offered(Verdicts(rs, burst)) == |RouteAll(rs, burst)|
  {
    if burst == [] {
    } else {
      var n := |burst| - 1;
      OfferedRoutes(rs, burst[..n]);
      RouteSends(rs, burst[n]);
    }
  }

  lemma {:induction false} CountAllBalanced(t: Counters, vs: seq<Verdict>, unparsed: nat, unsent: nat)
    requires BalancedUpTo(t, unparsed + |vs|, unsent)
    ensures BalancedUpTo(CountAll(t, vs), unparsed, unsent + Offered(vs))
  {
    if vs == [] {
    } else {
      var front, last := vs[..|vs| - 1], vs[|vs| - 1];
      CountAllBalanced(t, front, unparsed + 1, unsent);
      CountVerdictBalanced(CountAll(t, front), last, unparsed, unsent + Offered(front));
    }
  }

  lemma CountTxBalanced(t: Counters, accepted: nat, unsent: nat)
    requires BalancedUpTo(t, 0, accepted + unsent)
    ensures BalancedUpTo(CountTx(t.(txBursts := t.txBursts + 1), accepted, unsent), 0, 0)
  {
  }

  /** Every burst, whatever its packets, rules and TX outcome, keeps the five equations. */
  lemma BurstKeepsBalance(t: Counters, vs: seq<Verdict>, accepted: nat)
    requires BalancedUpTo(t, 0, 0) && accepted <= Offered(vs)
    ensures BalancedUpTo(CountBurst(t, vs, Offered(vs), accepted), 0, 0)
  {
    hide CountAll, Offered;
    if vs != [] {
      var received := t.(rxBursts := t.rxBursts + 1, rx := t.rx + |vs|);
      assert BalancedUpTo(received, |vs|, 0);
      CountAllBalanced(received, vs, 0, 0);
      CountTxBalanced(CountAll(received, vs), accepted, Offered(vs) - accepted);
    }
  }

  lemma {:induction false} CountAllElsewhere(t: Counters, vs: seq<Verdict>)
    ensures CountAll(t, vs).rx == t.rx && CountAll(t, vs).txAccepted == t.txAccepted
  {
    if vs == [] {
    } else {
      CountAllElsewhere(t, vs[..|vs| - 1]);
    }
  }

  /** What a burst adds to the packets received and accepted. */
  lemma BurstMoves(t: Counters, vs: seq<Verdict>, offered: nat, accepted: nat)
    requires accepted <= offered && (vs == [] ==> offered == 0)
    ensures CountBurst(t, vs, offered, accepted).rx == t.rx + |vs|
    ensures CountBurst(t, vs, offered, accepted).txAccepted == t.txAccepted + accepted
  {
    if vs != [] {
      CountAllElsewhere(t.(rxBursts := t.rxBursts + 1, rx := t.rx + |vs|), vs);
    }
  }

  // ---------- What the counts tell ----------

  /** Which received buffers a counter is about. */
  predicate IsAbout(rs: RuleSet, k: Counter, b: Buffer) {
    match k
    case PARSE_OK => Parsed(b).Ok?
    case PARSE_UNSUPPORTED => Parsed(b).Unsupported?
    case PARSE_MALFORMED => Parsed(b).Malformed?
    case FLOW_HIT_COUNT => Parsed(b).Ok? && Naive(rs, Parsed(b).meta).FlowHit?
    case ROUTE_HIT_COUNT => Parsed(b).Ok? && Naive(rs, Parsed(b).meta).RouteHit?
    case LOOKUP_MISS => Parsed(b).Ok? && Naive(rs, Parsed(b).meta).Miss?
    case ACTED_DROP => Parsed(b).Ok? && Route(rs, b).None?
    case ACTED_FORWARD => Route(rs, b).Some? && Naive(rs, Parsed(b).meta).action.kind == 1
    case ACTED_REWRITE => Route(rs, b).Some? && Naive(rs, Parsed(b).meta).action.kind == 2
    case DROP => Route(rs, b).None?
    case _ => false
  }

  /** How many buffers of a burst a counter is about. */
  function Tally(rs: RuleSet, k: Counter, burst: seq<Buffer>): nat {
    if burst == [] then 0
    else Tally(rs, k, burst[..|burst| - 1]) + if IsAbout(rs, k, burst[|burst| - 1]) then 1 else 0
  }

  function One(yes: bool): nat {
    if yes then 1 else 0
  }

  /** What one buffer adds to the counters. */
  function Share(rs: RuleSet, b: Buffer): Counters {
    Counters(0, One(IsAbout(rs, PARSE_OK, b)), One(IsAbout(rs, PARSE_UNSUPPORTED, b)), One(IsAbout(rs, PARSE_MALFORMED, b)),
             One(IsAbout(rs, FLOW_HIT_COUNT, b)), One(IsAbout(rs, ROUTE_HIT_COUNT, b)), One(IsAbout(rs, LOOKUP_MISS, b)),
             One(IsAbout(rs, ACTED_DROP, b)), One(IsAbout(rs, ACTED_FORWARD, b)), One(IsAbout(rs, ACTED_REWRITE, b)),
             0, 0, One(IsAbout(rs, DROP, b)), 0, 0, 0)
  }

  /** What the packets of a burst add to the counters: on each, the number of buffers it is about. */
  function Tallies(rs: RuleSet, burst: seq<Buffer>): Counters {
    Counters(0, Tally(rs, PARSE_OK, burst), Tally(rs, PARSE_UNSUPPORTED, burst), Tally(rs, PARSE_MALFORMED, burst),
             Tally(rs, FLOW_HIT_COUNT, burst), Tally(rs, ROUTE_HIT_COUNT, burst), Tally(rs, LOOKUP_MISS, burst),
             Tally(rs, ACTED_DROP, burst), Tally(rs, ACTED_FORWARD, burst), Tally(rs, ACTED_REWRITE, burst),
             0, 0, Tally(rs, DROP, burst), 0, 0, 0)
  }

  lemma RefusedTells(t: Counters, rs: RuleSet, b: Buffer)
    requires !Parsed(b).Ok?
    ensures CountVerdict(t, VerdictOf(rs, b)) == Plus(t, Share(rs, b))
  {
    hide Naive, ParseMbuf;
  }

  lemma DecidedTells(t: Counters, rs: RuleSet, b: Buffer)
    requires Parsed(b).Ok?
    ensures CountVerdict(t, VerdictOf(rs, b)) == Plus(t, Share(rs, b))
  {
    RouteSends(rs, b);
    hide Naive, ParseMbuf, Route;
  }

  lemma TalliesNext(rs: RuleSet, burst: seq<Buffer>)
    requires burst != []
    ensures Tallies(rs, burst) == Plus(Tallies(rs, burst[..|burst| - 1]), Share(rs, burst[|burst| - 1]))
  {
    hide IsAbout;
  }

  lemma PlusAssoc(a: Counters, b: Counters, c: Counters)
    ensures Plus(Plus(a, b), c) == Plus(a, Plus(b, c))
  {
  }

  /** Processing a burst raises each counter by the number of buffers it is about. */
  lemma {:induction false} CountsTell(t: Counters, rs: RuleSet, burst: seq<Buffer>)
    ensures CountAll(t, Verdicts(rs, burst)) == Plus(t, Tallies(rs, burst))
  {
    hide IsAbout, VerdictOf, CountVerdict;
    if burst == [] {
    } else {
      var n := |burst| - 1;
      CountsTell(t, rs, burst[..n]);
      var u := CountAll(t, Verdicts(rs, burst[..n]));
      if Parsed(burst[n]).Ok? {
        DecidedTells(u, rs, burst[n]);
      } else {
        RefusedTells(u, rs, burst[n]);
      }
      TalliesNext(rs, burst);
      PlusAssoc(t, Tallies(rs, burst[..n]), Share(rs, burst[n]));
    }
  }

  /** All sixteen counters after one iteration of the loop that receives `burst` and of whose packets TX takes `accepted`. */
  lemma BurstTells(t: Counters, rs: RuleSet, burst: seq<Buffer>, accepted: nat)
    requires accepted <= |RouteAll(rs, burst)|
    ensures var u := CountBurst(t, Verdicts(rs, burst), |RouteAll(rs, burst)|, accepted);
            var unsent := |RouteAll(rs, burst)| - accepted;
            && u.rx == t.rx + |burst|
            && u.parseOk == t.parseOk + Tally(rs, PARSE_OK, burst)
            && u.parseUnsupported == t.parseUnsupported + Tally(rs, PARSE_UNSUPPORTED, burst)
            && u.parseMalformed == t.parseMalformed + Tally(rs, PARSE_MALFORMED, burst)
            && u.flowHit == t.flowHit + Tally(rs, FLOW_HIT_COUNT, burst)
            && u.routeHit == t.routeHit + Tally(rs, ROUTE_HIT_COUNT, burst)
            && u.lookupMiss == t.lookupMiss + Tally(rs, LOOKUP_MISS, burst)
            && u.actionDrop == t.actionDrop + Tally(rs, ACTED_DROP, burst)
            && u.actionForward == t.actionForward + Tally(rs, ACTED_FORWARD, burst)
            && u.actionRewrite == t.actionRewrite + Tally(rs, ACTED_REWRITE, burst)
            && u.drop == t.drop + Tally(rs, DROP, burst) + unsent
            && u.txAccepted == t.txAccepted + accepted && u.txUnsent == t.txUnsent + unsent
            && u.rxBursts == t.rxBursts + 1 && u.rxEmptyPolls == t.rxEmptyPolls + One(burst == [])
            && u.txBursts == t.txBursts + One(RouteAll(rs, burst) != [])
  {
    hide CountAll, Tally, Routes, Somes;
    if burst == [] {
      NoneOffered(rs);
    } else {
      CountsTell(t.(rxBursts := t.rxBursts + 1, rx := t.rx + |burst|), rs, burst);
    }
  }

  lemma NoneOffered(rs: RuleSet)
    ensures RouteAll(rs, []) == [] && forall k: Counter :: Tally(rs, k, []) == 0
  {
  }

  // ---------- Aggregation over the joined workers ----------

  function Plus(a: Counters, b: Counters): Counters {
    Counters(a.rx + b.rx, a.parseOk + b.parseOk, a.parseUnsupported + b.parseUnsupported, a.parseMalformed + b.parseMalformed,
             a.flowHit + b.flowHit, a.routeHit + b.routeHit, a.lookupMiss + b.lookupMiss, a.actionDrop + b.actionDrop,
             a.actionForward + b.actionForward, a.actionRewrite + b.actionRewrite, a.txAccepted + b.txAccepted,
             a.txUnsent + b.txUnsent, a.drop + b.drop, a.rxBursts + b.rxBursts, a.rxEmptyPolls + b.rxEmptyPolls,
             a.txBursts + b.txBursts)
  }

  function Total(workers: seq<Counters>): Counters {
    if workers == [] then NOTHING else Plus(Total(workers[..|workers| - 1]), workers[|workers| - 1])
  }

  lemma {:induction false} TotalBalanced(workers: seq<Counters>)
    requires forall i | 0 <= i < |workers| :: BalancedUpTo(workers[i], 0, 0)
    ensures BalancedUpTo(Total(workers), 0, 0)
  {
    if workers == [] {
    } else {
      TotalBalanced(workers[..|workers| - 1]);
    }
  }

  /** One counter, summed over the workers. */
  function SumOver(workers: seq<Counters>, k: Counter): nat {
    if workers == [] then 0 else SumOver(workers[..|workers| - 1], k) + Read(workers[|workers| - 1], k)
  }

  /** Each counter of the total is the sum of that counter over the workers. */
  lemma {:induction false} TotalSums(workers: seq<Counters>)
    ensures var t := Total(workers);
            && t.rx == SumOver(workers, RX) && t.parseOk == SumOver(workers, PARSE_OK)
            && t.parseUnsupported == SumOver(workers, PARSE_UNSUPPORTED) && t.parseMalformed == SumOver(workers, PARSE_MALFORMED)
            && t.flowHit == SumOver(workers, FLOW_HIT_COUNT) && t.routeHit == SumOver(workers, ROUTE_HIT_COUNT)
            && t.lookupMiss == SumOver(workers, LOOKUP_MISS) && t.actionDrop == SumOver(workers, ACTED_DROP)
            && t.actionForward == SumOver(workers, ACTED_FORWARD) && t.actionRewrite == SumOver(workers, ACTED_REWRITE)
            && t.txAccepted == SumOver(workers, TX_ACCEPTED) && t.txUnsent == SumOver(workers, TX_UNSENT)
            && t.drop == SumOver(workers, DROP) && t.rxBursts == SumOver(workers, RX_BURSTS)
            && t.rxEmptyPolls == SumOver(workers, RX_EMPTY_POLLS) && t.txBursts == SumOver(workers, TX_BURSTS)
  {
    if workers == [] {
    } else {
      TotalSums(workers[..|workers| - 1]);
    }
  }

  /** Each counter is the sum over the workers, modulo 2^64. */
  ghost predicate SumsModulo(c: Counters, workers: seq<Counters>) {
    forall k: Counter :: Read(c, k) == SumOver(workers, k) % 0x1_0000_0000_0000_0000
  }

  lemma ImageSums(c: Counters, workers: seq<Counters>)
    requires Image(c, Total(workers))
    ensures SumsModulo(c, workers)
  {
    TotalSums(workers);
    hide SumOver, Total, Wrap;
    forall k: Counter
      ensures Read(c, k) == SumOver(workers, k) % WRAP
    {
      assert Read(c, k) == Wrap(Read(Total(workers), k));
      WrapIs(SumOver(workers, k));
    }
  }

  lemma WrapIs(n: nat)
    ensures Wrap(n) == n % WRAP
  {
  }

  /** After the join the aggregate satisfies the equations, because every worker's counters do. */
  lemma AggregateBalanced(total: Counters, workers: seq<Counters>)
    requires forall i | 0 <= i < |workers| :: BalancedUpTo(workers[i], 0, 0)
    requires Image(total, Total(workers))
    ensures Balanced(total)
  {
    hide BalancedUpTo, Balanced;
    TotalBalanced(workers);
    WrappedBalanced(total, Total(workers));
  }

  /** The exact counts behind the workers' statistics, in worker order. */
  ghost function Exacts(workers: seq<Stats>): (r: seq<Counters>)
    reads workers
    ensures |r| == |workers| && forall i | 0 <= i < |workers| :: r[i] == workers[i].exact
  {
    if workers == [] then [] else Exacts(workers[..|workers| - 1]) + [workers[|workers| - 1].exact]
  }

  /** `dp_dataplane_get_stats`: refused while running; else the wrapped sum over the workers. */
  method GetStats(running: bool, workers: seq<Stats>) returns (ret: int, total: Counters)
    requires forall w | w in workers :: w.Valid()
    ensures ret == if running then -EBUSY else 0
    ensures !running ==> Image(total, Total(Exacts(workers)))
    ensures !running ==> SumsModulo(total, Exacts(workers))
  {
    hide SumOver, SumsModulo;
    total := Counters(0, 0, 0, 0, 0, 0, 0, 0, 0, 0, 0, 0, 0, 0, 0, 0);
    if running {
      return -EBUSY, total;
    }
    for i := 0 to |workers|
      invariant Image(total, Total(Exacts(workers[..i])))
    {
      assert workers[..i + 1][..i] == workers[..i] && workers[i] in workers;
      total := AddStats(total, workers[i].c, Total(Exacts(workers[..i])), workers[i].exact);
      assert Exacts(workers[..i + 1])[..i] == Exacts(workers[..i]);
    }
    assert workers[..|workers|] == workers;
    ImageSums(total, Exacts(workers));
    ret := 0;
  }

  /** Adding wrapped counters one by one gives the wrapped sum of the counts behind them. */
  lemma PlusWraps(sum: Counters, a: Counters, b: Counters, t: Counters, l: Counters)
    requires Image(a, t) && Image(b, l)
    requires forall k: Counter :: Read(sum, k) == Add(Read(a, k), Read(b, k))
    ensures Image(sum, Plus(t, l))
  {
    forall k: Counter
      ensures Read(sum, k) == Wrap(Read(Plus(t, l), k))
    {
      assert Read(sum, k) == Add(Read(a, k), Read(b, k));
      assert Read(a, k) == Wrap(Read(t, k)) && Read(b, k) == Wrap(Read(l, k));
      ReadPlus(t, l, k);
      WrapSum2(Read(t, k), Read(l, k));
    }
  }

  lemma ReadPlus(t: Counters, l: Counters, k: Counter)
    ensures Read(Plus(t, l), k) == Read(t, k) + Read(l, k)
  {
  }

  /** `dp_packet_stats_add`: whatever counts the two stand for, the result stands for their sum. */
  method AddStats(total: Counters, local: Counters, ghost t: Counters, ghost l: Counters) returns (sum: Counters)
    requires Image(total, t) && Image(local, l)
    ensures Image(sum, Plus(t, l))
  {
    sum := total;
    sum := sum.(rx := Add(sum.rx, local.rx));
    sum := sum.(parseOk := Add(sum.parseOk, local.parseOk));
    sum := sum.(parseUnsupported := Add(sum.parseUnsupported, local.parseUnsupported));
    sum := sum.(parseMalformed := Add(sum.parseMalformed, local.parseMalformed));
    sum := sum.(flowHit := Add(sum.flowHit, local.flowHit));
    sum := sum.(routeHit := Add(sum.routeHit, local.routeHit));
    sum := sum.(lookupMiss := Add(sum.lookupMiss, local.lookupMiss));
    sum := sum.(actionDrop := Add(sum.actionDrop, local.actionDrop));
    sum := sum.(actionForward := Add(sum.actionForward, local.actionForward));
    sum := sum.(actionRewrite := Add(sum.actionRewrite, local.actionRewrite));
    sum := sum.(txAccepted := Add(sum.txAccepted, local.txAccepted));
    sum := sum.(txUnsent := Add(sum.txUnsent, local.txUnsent));
    sum := sum.(drop := Add(sum.drop, local.drop));
    sum := sum.(rxBursts := Add(sum.rxBursts, local.rxBursts));
    sum := sum.(rxEmptyPolls := Add(sum.rxEmptyPolls, local.rxEmptyPolls));
    sum := sum.(txBursts := Add(sum.txBursts, local.txBursts));
    PlusWraps(sum, total, local, t, l);
  }
}
