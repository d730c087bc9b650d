/**
 One worker: processing a packet, compacting a burst in place, handing it to TX. Ownership is
 recorded in a ledger of the mbufs freed to the pool and the mbufs accepted by the PMD.
 */
module Worker {
  import opened Wrappers
  import opened Actions
  import opened Parser
  import opened RewriteLaws
  import opened Rules
  import opened RuleIndex
  import opened Router
  import opened PacketStats

  const BURST_SIZE := 32

  class Ledger {
    var freed: seq<Mbuf>
    var sent: seq<Mbuf>

    constructor ()
      ensures freed == [] && sent == []
    {
      freed, sent := [], [];
    }

    method Free(m: Mbuf)
      modifies this`freed
      ensures freed == old(freed) + [m]
    {
      freed := freed + [m];
    }
  }

  /** The value an mbuf holds now. */
  function View(m: Mbuf): Buffer
    requires m.data.Length < 0x1_0000
    reads m.data
  {
    Buffer(m.segments, m.packetLength, m.data[..])
  }

  /** What a worker looks up in `s`; without a snapshot every lookup misses. */
  function LookupIn(s: Snapshot?, m: Meta): Decision
    reads s
  {
    if s == null then Miss else Decide(s, m)
  }

  /** `s` decides every packet as the rule lists `rs` do. */
  ghost predicate Decides(s: Snapshot?, rs: RuleSet)
    reads s
  {
    && (s != null ==> PointsIntoStore(s))
    && forall m: Meta :: LookupIn(s, m) == Naive(rs, m)
  }

  /** A built snapshot decides as the rules it was built from. */
  lemma BuiltDecides(s: Snapshot, rs: RuleSet)
    requires Indexes(s, rs) && ValidRules(rs)
    ensures Decides(s, rs)
  {
    IndexPointsIntoStore(s, rs);
    forall m: Meta
      ensures LookupIn(s, m) == Naive(rs, m)
    {
      IndexAgreesWithLists(s, rs, m);
    }
  }

  /** `dp_process_packet`: the candidate for TX, or null after the mbuf was freed. */
  method ProcessPacket(m: Mbuf, stats: Stats, s: Snapshot?, ledger: Ledger, ghost rs: RuleSet) returns (candidate: Mbuf?)
    requires m.data.Length < 0x1_0000 && stats.Valid() && Decides(s, rs)
    modifies m.data, stats, ledger`freed
    ensures stats.Valid() && stats.exact == CountVerdict(old(stats.exact), VerdictOf(rs, old(View(m))))
    ensures match Route(rs, old(View(m)))
            case Some(f) => candidate == m && m.data[..] == f && ledger.freed == old(ledger.freed)
            case None => candidate == null && ledger.freed == old(ledger.freed) + [m]
  {
    var result, meta := ParsePacket(m);
    VerdictByParse(rs, View(m));
    if result != OK {
      if result == UNSUPPORTED {
        stats.Bump(PARSE_UNSUPPORTED, 1);
      } else {
        stats.Bump(PARSE_MALFORMED, 1);
      }
      stats.Bump(DROP, 1);
      ledger.Free(m);
      return null;
    }
    stats.Bump(PARSE_OK, 1);
    candidate := ProcessParsed(m, meta, stats, s, ledger, rs);
  }

  lemma VerdictByParse(rs: RuleSet, b: Buffer)
    ensures Parsed(b).Result() == UNSUPPORTED ==> VerdictOf(rs, b) == UnsupportedFrame && Route(rs, b).None?
    ensures Parsed(b).Result() == MALFORMED ==> VerdictOf(rs, b) == MalformedFrame && Route(rs, b).None?
    ensures Parsed(b).Result() == OK ==>
              && ParseFrame(b.bytes) == Parsed(b)
              && VerdictOf(rs, b) == Decided(Naive(rs, Parsed(b).meta))
              && Route(rs, b) == ActOn(Naive(rs, Parsed(b).meta), b.bytes)
  {
  }

  lemma DecisionEffect(t: Counters, d: Decision, f: Frame)
    requires ParseFrame(f).Ok?
    ensures d.Miss? ==> CountDecision(t, d) == CountDrop(Bumped(t, LOOKUP_MISS, 1)) && ActOn(d, f).None?
    ensures d.FlowHit? ==> CountDecision(t, d) == CountAction(Bumped(t, FLOW_HIT_COUNT, 1), d.action)
    ensures d.RouteHit? ==> CountDecision(t, d) == CountAction(Bumped(t, ROUTE_HIT_COUNT, 1), d.action)
    ensures !d.Miss? ==> ActOn(d, f) == Act(d.action, f)
  {
  }

  method ProcessParsed(m: Mbuf, meta: Meta, stats: Stats, s: Snapshot?, ledger: Ledger, ghost rs: RuleSet)
    returns (candidate: Mbuf?)
    requires m.data.Length < 0x1_0000 && stats.Valid() && Decides(s, rs)
    requires ParseFrame(m.data[..]) == Ok(meta)
    modifies m.data, stats, ledger`freed
    ensures stats.Valid() && stats.exact == CountDecision(old(stats.exact), Naive(rs, meta))
    ensures match ActOn(Naive(rs, meta), old(m.data[..]))
            case Some(f) => candidate == m && m.data[..] == f && ledger.freed == old(ledger.freed)
            case None => candidate == null && ledger.freed == old(ledger.freed) + [m]
  {
    var lookup, action := Lookup(meta, s, rs);
    DecisionEffect(stats.exact, Naive(rs, meta), m.data[..]);
    if lookup == FLOW_HIT {
      stats.Bump(FLOW_HIT_COUNT, 1);
    } else if lookup == ROUTE_HIT {
      stats.Bump(ROUTE_HIT_COUNT, 1);
    } else {
      stats.Bump(LOOKUP_MISS, 1);
      DropByAction(m, stats, ledger);
      return null;
    }
    candidate := RunAction(m, meta, action.value, stats, ledger);
  }

  /** The lookup, known to answer what the rule lists answer. */
  method Lookup(meta: Meta, s: Snapshot?, ghost rs: RuleSet) returns (lookup: LookupResult, action: Option<RuleAction>)
    requires Decides(s, rs)
    ensures match Naive(rs, meta)
            case FlowHit(a) => lookup == FLOW_HIT && action == Some(a)
            case RouteHit(a) => lookup == ROUTE_HIT && action == Some(a)
            case Miss => lookup == MISS
  {
    assert LookupIn(s, meta) == Naive(rs, meta);
    lookup, action := LookupPacket(meta, s);
  }

  method RunAction(m: Mbuf, meta: Meta, a: RuleAction, stats: Stats, ledger: Ledger) returns (candidate: Mbuf?)
    requires m.data.Length < 0x1_0000 && stats.Valid()
    requires ParseFrame(m.data[..]) == Ok(meta)
    modifies m.data, stats, ledger`freed
    ensures stats.Valid() && stats.exact == CountAction(old(stats.exact), a)
    ensures match Act(a, old(m.data[..]))
            case Some(f) => candidate == m && m.data[..] == f && ledger.freed == old(ledger.freed)
            case None => candidate == null && ledger.freed == old(ledger.freed) + [m]
  {
    if a.kind == ACTION_DROP {
      DropByAction(m, stats, ledger);
      return null;
    }
    if a.kind == ACTION_FORWARD {
      stats.Bump(ACTED_FORWARD, 1);
      return m;
    }
    if a.kind == ACTION_REWRITE {
      var ret := RewriteInPlace(m, meta, a);
      if ret == 0 {
        CountRewrite(stats.exact, a);
        stats.Bump(ACTED_REWRITE, 1);
        return m;
      }
    }
    DropByAction(m, stats, ledger);
    return null;
  }

  lemma CountRewrite(t: Counters, a: RuleAction)
    requires a.kind == ACTION_REWRITE && a.rewriteMask != 0
    ensures CountAction(t, a) == Bumped(t, ACTED_REWRITE, 1)
  {
  }

  method DropByAction(m: Mbuf, stats: Stats, ledger: Ledger)
    requires stats.Valid()
    modifies stats, ledger`freed
    ensures stats.Valid() && stats.exact == CountDrop(old(stats.exact))
    ensures ledger.freed == old(ledger.freed) + [m]
  {
    stats.Bump(ACTED_DROP, 1);
    stats.Bump(DROP, 1);
    ledger.Free(m);
  }

  /** `dp_complete_tx`: the PMD took the first `sent` of `n`; the rest is freed here. */
  method CompleteTx(pkts: array<Mbuf>, n: nat, sent: nat, stats: Stats, ledger: Ledger)
    requires sent <= n <= pkts.Length && stats.Valid()
    modifies stats, ledger`freed
    ensures stats.Valid() && stats.exact == CountTx(old(stats.exact), sent, n - sent)
    ensures ledger.freed == old(ledger.freed) + pkts[sent..n]
  {
    stats.Bump(TX_ACCEPTED, sent);
    stats.Bump(TX_UNSENT, n - sent);
    stats.Bump(DROP, n - sent);
    for i := sent to n
      modifies ledger`freed
      invariant ledger.freed == old(ledger.freed) + pkts[sent..i]
    {
      ledger.Free(pkts[i]);
    }
  }

  // ---------- A burst ----------

  /** Buffers of received mbufs: distinct storage, each within the 16-bit data length. */
  ghost predicate Received(ms: seq<Mbuf>) {
    && (forall i | 0 <= i < |ms| :: ms[i].data.Length < 0x1_0000)
    && (forall i, j | 0 <= i < j < |ms| :: ms[i].data != ms[j].data)
  }

  function Storage(ms: seq<Mbuf>): set<object> {
    set m | m in ms :: m.data
  }

  ghost function Views(ms: seq<Mbuf>): (r: seq<Buffer>)
    requires forall i | 0 <= i < |ms| :: ms[i].data.Length < 0x1_0000
    reads Storage(ms)
    ensures |r| == |ms| && forall i | 0 <= i < |ms| :: r[i] == View(ms[i])
  {
    if ms == [] then [] else Views(ms[..|ms| - 1]) + [View(ms[|ms| - 1])]
  }

  /** The mbufs hold these frames. */
  ghost predicate Carries(ms: seq<Mbuf>, frames: seq<Frame>)
    reads Storage(ms)
  {
    |ms| == |frames| && forall k | 0 <= k < |ms| :: ms[k].data[..] == frames[k]
  }

  /** State after the first `i` packets: the kept ones in front, the unprocessed ones untouched. */
  ghost predicate Compacted(pkts: array<Mbuf>, i: nat, kept: seq<Mbuf>, frames: seq<Frame>, views: seq<Buffer>, refs: seq<Mbuf>)
    requires |kept| <= i <= |refs| <= pkts.Length && |views| == |refs|
    reads pkts, Storage(refs), Storage(kept)
  {
    && pkts[..|kept|] == kept && pkts[i..|refs|] == refs[i..]
    && (forall j | i <= j < |refs| :: refs[j].data[..] == views[j].bytes)
    && Carries(kept, frames)
    && forall m | m in kept :: m in refs[..i]
  }

  /** An mbuf processed earlier does not share storage with the one at `i`. */
  lemma EarlierStorage(refs: seq<Mbuf>, i: nat, ms: seq<Mbuf>)
    requires Received(refs) && i < |refs| && forall m | m in ms :: m in refs[..i]
    ensures refs[i].data !in Storage(ms) && forall k | 0 <= k < |ms| :: ms[k].data != refs[i].data
  {
    forall k | 0 <= k < |ms|
      ensures ms[k].data != refs[i].data
    {
      assert ms[k] in ms;
    }
  }

  lemma CarriesMore(ms: seq<Mbuf>, frames: seq<Frame>, m: Mbuf)
    requires Carries(ms, frames) && m.data.Length < 0x1_0000
    ensures Carries(ms + [m], frames + [m.data[..]])
  {
  }

  /** One round of the burst loop: process the packet at `i`, and keep it in front if it is to be sent. */
  method ProcessNext(pkts: array<Mbuf>, i: nat, txCount: nat, stats: Stats, s: Snapshot?, ledger: Ledger,
                     ghost rs: RuleSet, ghost kept: seq<Mbuf>, ghost frames: seq<Frame>, ghost views: seq<Buffer>, ghost refs: seq<Mbuf>)
    returns (newCount: nat)
    requires |kept| == txCount <= i < |refs| <= pkts.Length && |views| == |refs| && Received(refs)
    requires Compacted(pkts, i, kept, frames, views, refs)
    requires View(refs[i]) == views[i] && stats.Valid() && Decides(s, rs)
    modifies pkts, refs[i].data, stats, ledger`freed
    ensures stats.Valid() && stats.exact == CountVerdict(old(stats.exact), VerdictOf(rs, views[i]))
    ensures match Route(rs, views[i])
            case Some(f) =>
              && newCount == txCount + 1 && ledger.freed == old(ledger.freed)
              && Compacted(pkts, i + 1, kept + [refs[i]], frames + [f], views, refs)
            case None =>
              && newCount == txCount && ledger.freed == old(ledger.freed) + [refs[i]]
              && Compacted(pkts, i + 1, kept, frames, views, refs)
  {
    hide Route, VerdictOf, CountVerdict, Stats.Valid, Decides;
    newCount := txCount;
    EarlierStorage(refs, i, kept);
    assert pkts[i] == pkts[i..|refs|][0] == refs[i];
    label before:
    var candidate := ProcessPacket(pkts[i], stats, s, ledger, rs);
    forall k | 0 <= k < |kept|
      ensures kept[k].data[..] == frames[k]
    {
      assert kept[k].data != refs[i].data;
      assert kept[k].data[..] == old@before(kept[k].data[..]);
    }
    assert pkts[i + 1..|refs|] == refs[i + 1..];
    if candidate != null {
      CarriesMore(kept, frames, candidate);
      pkts[txCount] := candidate;
      newCount := txCount + 1;
      assert pkts[..newCount] == kept + [candidate];
    }
  }

  /** The processing loop of one burst, compacting the candidates in place at the front of the RX array. */
  method ProcessBurst(pkts: array<Mbuf>, n: nat, stats: Stats, s: Snapshot?, ledger: Ledger,
                      ghost rs: RuleSet, ghost views: seq<Buffer>, ghost refs: seq<Mbuf>)
    returns (txCount: nat)
    requires n == |refs| == |views| <= pkts.Length && pkts[..n] == refs && Received(refs) && stats.Valid() && Decides(s, rs)
    requires forall j | 0 <= j < n :: views[j] == View(refs[j])
    modifies pkts, Storage(refs), stats, ledger`freed
    ensures stats.Valid() && stats.exact == CountAll(old(stats.exact), Verdicts(rs, views))
    ensures txCount <= n && pkts[..txCount] == Kept(Routes(rs, views), refs)
    ensures Carries(pkts[..txCount], RouteAll(rs, views))
    ensures ledger.freed == old(ledger.freed) + Dropped(Routes(rs, views), refs)
  {
    hide Route, VerdictOf, CountVerdict, Routes, Verdicts, Kept, Somes, Dropped, CountAll;
    hide Processed, Stats.Valid, Decides, Received, Carries;
    ghost var outs, vs, freed, exact := Routes(rs, views), Verdicts(rs, views), ledger.freed, stats.exact;
    txCount := 0;
    Untouched(outs, refs, vs, exact);
    NothingProcessed(pkts, outs, views, refs);
    for i := 0 to n
      invariant txCount <= i && Processed(pkts, i, txCount, outs, views, refs)
      invariant stats.Valid() && stats.exact == CountAll(exact, vs[..i])
      invariant ledger.freed == freed + Dropped(outs[..i], refs[..i])
    {
      txCount := ProcessRound(pkts, i, txCount, stats, s, ledger, rs, outs, views, refs);
      CountNext(exact, vs, i);
      DroppedOrNot(freed, outs, refs, i);
    }
    ProcessedAll(pkts, txCount, outs, views, refs);
    assert vs[..n] == vs;
    assert outs[..n] == outs;
    assert refs[..n] == refs;
  }

  /** State after the first `i` packets of a burst, with routes `outs`. */
  ghost predicate Processed(pkts: array<Mbuf>, i: nat, txCount: nat, outs: seq<Option<Frame>>, views: seq<Buffer>, refs: seq<Mbuf>)
    requires txCount <= i <= |refs| <= pkts.Length && |outs| == |views| == |refs|
    reads pkts, Storage(refs), Storage(Kept(outs[..i], refs[..i]))
  {
    var kept := Kept(outs[..i], refs[..i]);
    |kept| == txCount && Compacted(pkts, i, kept, Somes(outs[..i]), views, refs)
  }

  method ProcessRound(pkts: array<Mbuf>, i: nat, txCount: nat, stats: Stats, s: Snapshot?, ledger: Ledger,
                      ghost rs: RuleSet, ghost outs: seq<Option<Frame>>, ghost views: seq<Buffer>, ghost refs: seq<Mbuf>)
    returns (newCount: nat)
    requires txCount <= i < |refs| <= pkts.Length && |views| == |refs| && Received(refs)
    requires refs[i].segments == views[i].segments && refs[i].packetLength == views[i].packetLength
    requires outs == Routes(rs, views)
    requires Processed(pkts, i, txCount, outs, views, refs) && stats.Valid() && Decides(s, rs)
    modifies pkts, refs[i].data, stats, ledger`freed
    ensures newCount <= i + 1 && Processed(pkts, i + 1, newCount, outs, views, refs)
    ensures stats.Valid() && stats.exact == CountVerdict(old(stats.exact), Verdicts(rs, views)[i])
    ensures ledger.freed == if outs[i].Some? then old(ledger.freed) else old(ledger.freed) + [refs[i]]
  {
    hide Route, VerdictOf, CountVerdict, Routes, Verdicts, Kept, Somes, Decides, Stats.Valid;
    RoutesAt(rs, views, i);
    VerdictsAt(rs, views, i);
    ghost var kept, frames := Kept(outs[..i], refs[..i]), Somes(outs[..i]);
    if outs[i].Some? {
      KeptNext(outs, refs, i);
    } else {
      DroppedNext(outs, refs, i);
    }
    newCount := ProcessNext(pkts, i, txCount, stats, s, ledger, rs, kept, frames, views, refs);
  }

  lemma DroppedOrNot(freed: seq<Mbuf>, outs: seq<Option<Frame>>, refs: seq<Mbuf>, i: nat)
    requires i < |outs| == |refs|
    ensures var before := freed + Dropped(outs[..i], refs[..i]);
            freed + Dropped(outs[..i + 1], refs[..i + 1]) == if outs[i].Some? then before else before + [refs[i]]
  {
    assert outs[..i + 1][..i] == outs[..i] && refs[..i + 1][..i] == refs[..i];
  }

  lemma NothingProcessed(pkts: array<Mbuf>, outs: seq<Option<Frame>>, views: seq<Buffer>, refs: seq<Mbuf>)
    requires |outs| == |views| == |refs| <= pkts.Length && pkts[..|refs|] == refs
    requires forall j | 0 <= j < |refs| :: refs[j].data[..] == views[j].bytes
    ensures Processed(pkts, 0, 0, outs, views, refs)
  {
  }

  lemma ProcessedAll(pkts: array<Mbuf>, txCount: nat, outs: seq<Option<Frame>>, views: seq<Buffer>, refs: seq<Mbuf>)
    requires txCount <= |refs| <= pkts.Length && |outs| == |views| == |refs|
    requires Processed(pkts, |refs|, txCount, outs, views, refs)
    ensures pkts[..txCount] == Kept(outs, refs) && Carries(pkts[..txCount], Somes(outs))
  {
    assert outs[..|refs|] == outs && refs[..|refs|] == refs;
  }

  lemma Untouched<S, T>(outs: seq<Option<S>>, items: seq<T>, vs: seq<Verdict>, t: Counters)
    requires |outs| == |items|
    ensures Kept(outs[..0], items[..0]) == Dropped(outs[..0], items[..0]) == [] && Somes(outs[..0]) == []
    ensures CountAll(t, vs[..0]) == t
  {
  }

  lemma CountNext(t: Counters, vs: seq<Verdict>, i: nat)
    requires i < |vs|
    ensures CountAll(t, vs[..i + 1]) == CountVerdict(CountAll(t, vs[..i]), vs[i])
  {
    assert vs[..i + 1][..i] == vs[..i];
  }

  // ---------- The worker loop ----------

  /** One turn of the loop: what RX delivered, how much TX is willing to take, the snapshot loaded. */
  datatype Poll = Poll(received: seq<Mbuf>, willing: nat, snapshot: Snapshot?)

  /** `rte_eth_rx_burst`: the environment stores what it received at the front of `pkts`. */
  method ReceiveBurst(pkts: array<Mbuf>, received: seq<Mbuf>) returns (n: nat)
    requires |received| <= pkts.Length
    modifies pkts
    ensures n == |received| && pkts[..n] == received
  {
    n := |received|;
    for i := 0 to n
      invariant pkts[..i] == received[..i]
    {
      pkts[i] := received[i];
    }
  }

  /** `rte_eth_tx_burst`: the PMD becomes owner of the first `sent`. */
  method TransmitBurst(pkts: array<Mbuf>, n: nat, willing: nat, ledger: Ledger) returns (sent: nat)
    requires n <= pkts.Length
    modifies ledger`sent
    ensures sent == Taken(willing, n) && ledger.sent == old(ledger.sent) + pkts[..sent]
  {
    sent := Taken(willing, n);
    ledger.sent := ledger.sent + pkts[..sent];
  }

  /** The PMD takes as many as it is willing to, and no more than it is offered. */
  function Taken(willing: nat, offered: nat): (sent: nat)
    ensures willing <= offered ==> sent == willing
    ensures willing >= offered ==> sent == offered
  {
    if willing < offered then willing else offered
  }

  /** Hands the candidates to TX; what TX does not take is freed. */
  method OfferBurst(pkts: array<Mbuf>, txCount: nat, willing: nat, stats: Stats, ledger: Ledger, ghost frames: seq<Frame>)
    requires txCount <= pkts.Length && stats.Valid() && Carries(pkts[..txCount], frames)
    modifies stats, ledger
    ensures Carries(pkts[..txCount], frames)
    ensures var sent := Taken(willing, txCount);
            && stats.Valid() && stats.exact == CountOffer(old(stats.exact), txCount, sent)
            && ledger.sent == old(ledger.sent) + pkts[..txCount][..sent]
            && ledger.freed == old(ledger.freed) + pkts[..txCount][sent..]
  {
    if txCount != 0 {
      var sent := TransmitBurst(pkts, txCount, willing, ledger);
      stats.Bump(TX_BURSTS, 1);
      CompleteTx(pkts, txCount, sent, stats, ledger);
      assert pkts[..txCount][..sent] == pkts[..sent] && pkts[..txCount][sent..] == pkts[sent..txCount];
    }
  }

  /** One turn of the worker loop. */
  method Turn(pkts: array<Mbuf>, p: Poll, stats: Stats, ledger: Ledger, ghost rs: RuleSet)
    requires |p.received| <= pkts.Length && Received(p.received) && stats.Valid() && Decides(p.snapshot, rs)
    modifies pkts, Storage(p.received), stats, ledger
    ensures stats.Valid()
    ensures var views := old(Views(p.received));
            var kept := Kept(Routes(rs, views), p.received);
            var sent := Taken(p.willing, |kept|);
            && stats.exact == CountBurst(old(stats.exact), Verdicts(rs, views), |kept|, sent)
            && Carries(kept, RouteAll(rs, views))
            && ledger.sent == old(ledger.sent) + kept[..sent]
            && ledger.freed == old(ledger.freed) + Dropped(Routes(rs, views), p.received) + kept[sent..]
  {
    hide Routes, Verdicts, Kept, Dropped, Somes, CountAll, Decides, Stats.Valid, Carries;
    ghost var views := Views(p.received);
    stats.Bump(RX_BURSTS, 1);
    if p.received == [] {
      stats.Bump(RX_EMPTY_POLLS, 1);
      NothingReceived(rs, views, p.received);
    } else {
      BusyTurn(pkts, p, stats, ledger, rs, views);
    }
  }

  lemma NothingReceived(rs: RuleSet, views: seq<Buffer>, ms: seq<Mbuf>)
    requires ms == [] && views == []
    ensures Verdicts(rs, views) == [] && RouteAll(rs, views) == []
    ensures Kept(Routes(rs, views), ms) == Dropped(Routes(rs, views), ms) == []
    ensures Carries([], [])
  {
  }

  method BusyTurn(pkts: array<Mbuf>, p: Poll, stats: Stats, ledger: Ledger, ghost rs: RuleSet, ghost views: seq<Buffer>)
    requires 0 < |p.received| <= pkts.Length && Received(p.received) && stats.Valid() && Decides(p.snapshot, rs)
    requires views == Views(p.received)
    modifies pkts, Storage(p.received), stats, ledger
    ensures stats.Valid()
    ensures var kept := Kept(Routes(rs, views), p.received);
            var sent := Taken(p.willing, |kept|);
            && stats.exact == CountOffer(CountAll(Bumped(old(stats.exact), RX, |views|), Verdicts(rs, views)), |kept|, sent)
            && Carries(kept, RouteAll(rs, views))
            && ledger.sent == old(ledger.sent) + kept[..sent]
            && ledger.freed == old(ledger.freed) + Dropped(Routes(rs, views), p.received) + kept[sent..]
  {
    hide Routes, Verdicts, Kept, Dropped, Somes, CountAll, Decides, Stats.Valid, Carries;
    var n := ReceiveBurst(pkts, p.received);
    stats.Bump(RX, n);
    var txCount := ProcessBurst(pkts, n, stats, p.snapshot, ledger, rs, views, p.received);
    OfferBurst(pkts, txCount, p.willing, stats, ledger, RouteAll(rs, views));
  }

  // ---------- A whole run ----------

  /** Everything RX delivered during a run. */
  function AllReceived(polls: seq<Poll>): seq<Mbuf> {
    if polls == [] then [] else AllReceived(polls[..|polls| - 1]) + polls[|polls| - 1].received
  }

  function PollStorage(polls: seq<Poll>): set<object> {
    set p, m | p in polls && m in p.received :: m.data
  }

  /** What RX may deliver, and snapshots that decide as the given rule lists. */
  ghost predicate Workable(polls: seq<Poll>, rules: seq<RuleSet>)
    reads set p | p in polls && p.snapshot != null :: p.snapshot
  {
    && |rules| == |polls|
    && forall i | 0 <= i < |polls| ::
         |polls[i].received| <= BURST_SIZE && Received(polls[i].received) && Decides(polls[i].snapshot, rules[i])
  }

  /** Each received mbuf has been freed or handed to the PMD, once in all. */
  ghost predicate Settled(ledger: Ledger, received: seq<Mbuf>)
    reads ledger
  {
    multiset(ledger.freed) + multiset(ledger.sent) == multiset(received)
  }

  /** The counters say what happened to the mbufs. */
  ghost predicate Truthful(t: Counters, ledger: Ledger, received: seq<Mbuf>)
    reads ledger
  {
    t.rx == |received| && t.txAccepted == |ledger.sent| && t.drop == |ledger.freed|
  }

  lemma BalancedIsTruthful(t: Counters, ledger: Ledger, received: seq<Mbuf>)
    requires BalancedUpTo(t, 0, 0) && Settled(ledger, received)
    requires t.rx == |received| && t.txAccepted == |ledger.sent|
    ensures Truthful(t, ledger, received)
  {
    assert |multiset(received)| == |multiset(ledger.freed)| + |multiset(ledger.sent)|;
  }

  /** The loop of `dp_worker_run`: nothing is pending after any turn, and the five equations hold. */
  method WorkerLoop(pkts: array<Mbuf>, polls: seq<Poll>, stats: Stats, ledger: Ledger, ghost rules: seq<RuleSet>)
    requires pkts.Length == BURST_SIZE && Workable(polls, rules) && stats.Valid() && BalancedUpTo(stats.exact, 0, 0)
    requires Settled(ledger, []) && Truthful(stats.exact, ledger, [])
    modifies pkts, PollStorage(polls), stats, ledger
    ensures Settled(ledger, AllReceived(polls)) && Truthful(stats.exact, ledger, AllReceived(polls))
    ensures stats.Valid() && BalancedUpTo(stats.exact, 0, 0) && Balanced(stats.c)
  {
    for i := 0 to |polls|
      invariant Workable(polls, rules)
      invariant Settled(ledger, AllReceived(polls[..i])) && Truthful(stats.exact, ledger, AllReceived(polls[..i]))
      invariant stats.Valid() && BalancedUpTo(stats.exact, 0, 0)
    {
      assert polls[..i + 1][..i] == polls[..i];
      SettledTurn(pkts, polls[i], stats, ledger, rules[i], AllReceived(polls[..i]));
    }
    assert polls[..|polls|] == polls;
    WrappedBalanced(stats.c, stats.exact);
  }

  method SettledTurn(pkts: array<Mbuf>, p: Poll, stats: Stats, ledger: Ledger, ghost rs: RuleSet, ghost before: seq<Mbuf>)
    requires |p.received| <= pkts.Length && Received(p.received) && stats.Valid() && Decides(p.snapshot, rs)
    requires BalancedUpTo(stats.exact, 0, 0) && Settled(ledger, before) && Truthful(stats.exact, ledger, before)
    modifies pkts, Storage(p.received), stats, ledger
    ensures stats.Valid() && BalancedUpTo(stats.exact, 0, 0)
    ensures Settled(ledger, before + p.received) && Truthful(stats.exact, ledger, before + p.received)
  {
    hide Routes, Verdicts, Kept, Dropped, Somes, Decides, Stats.Valid, Carries, CountBurst, BalancedUpTo, CountAll;
    ghost var views, freed, sent := Views(p.received), ledger.freed, ledger.sent;
    ghost var outs := Routes(rs, views);
    ghost var kept := Kept(outs, p.received);
    ghost var n := Taken(p.willing, |kept|);
    OfferedRoutes(rs, views);
    BurstKeepsBalance(stats.exact, Verdicts(rs, views), n);
    BurstMoves(stats.exact, Verdicts(rs, views), |kept|, n);
    Turn(pkts, p, stats, ledger, rs);
    KeptOrDropped(outs, p.received);
    SettledMore(freed, sent, before, kept, Dropped(outs, p.received), p.received, n);
    BalancedIsTruthful(stats.exact, ledger, before + p.received);
  }

  lemma SettledMore<T>(freed: seq<T>, sent: seq<T>, before: seq<T>, kept: seq<T>, dropped: seq<T>, received: seq<T>, n: nat)
    requires multiset(freed) + multiset(sent) == multiset(before)
    requires multiset(kept) + multiset(dropped) == multiset(received) && n <= |kept|
    ensures multiset(freed + dropped + kept[n..]) + multiset(sent + kept[..n]) == multiset(before + received)
  {
    assert kept == kept[..n] + kept[n..];
  }

  /** With distinct mbufs, settled means freed exactly once or sent exactly once, never both. */
  lemma SettledOnce(ledger: Ledger, received: seq<Mbuf>, m: Mbuf)
    requires Settled(ledger, received) && m in received
    requires forall i, j | 0 <= i < j < |received| :: received[i] != received[j]
    ensures multiset(ledger.freed)[m] + multiset(ledger.sent)[m] == 1
  {
    DistinctOnce(received, m);
  }

  lemma {:induction false} DistinctOnce<T>(items: seq<T>, x: T)
    requires x in items && forall i, j | 0 <= i < j < |items| :: items[i] != items[j]
    ensures multiset(items)[x] == 1
  {
    var n := |items| - 1;
    assert items == items[..n] + [items[n]];
    if x == items[n] {
      assert x !in items[..n];
    } else {
      DistinctOnce(items[..n], x);
    }
  }
}
