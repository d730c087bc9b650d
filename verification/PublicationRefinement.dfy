/**
 The steps of `Publication` are what the packet code does: under a snapshot whose tables index the
 rules a worker holds, one step of a burst is one packet processed, and a logged burst is one turn.
 */
module PublicationRefinement {
  import opened Wrappers
  import opened Actions
  import opened Parser
  import opened RewriteLaws
  import opened Rules
  import opened RuleIndex
  import opened Router
  import opened PacketStats
  import opened Worker
  import opened Publication
  import opened PublicationSafety

  /** What the tables of `s` make of a buffer. */
  function RouteBy(s: Snapshot, b: Buffer): Option<Frame>
    reads s
  {
    match Parsed(b)
    case Unsupported => None
    case Malformed => None
    case Ok(meta) => ActOn(Decide(s, meta), b.bytes)
  }

  lemma RouteByRules(s: Snapshot, rules: RuleSet, b: Buffer)
    requires Indexes(s, rules) && ValidRules(rules)
    ensures RouteBy(s, b) == Route(rules, b)
  {
    hide Indexes, ValidRules, Naive, Decide;
    if Parsed(b).Ok? {
      IndexAgreesWithLists(s, rules, Parsed(b).meta);
    }
  }

  /** What a worker holds in any run was built from valid rules. */
  lemma HeldRulesValid(n: nat, events: seq<Event>, i: nat)
    requires i < n && Reading(Run(n, events).workers[i].pc)
    ensures var s := Run(n, events);
            var held := s.workers[i].pc.b.held;
            held.Some? && held.value in s.r.heap && ValidRules(s.r.heap[held.value].rules)
  {
    hide Run, HeapOk, FreedOnce, OwnerOk, CountsOk, LogOk, InFlightOk, NotAfter, Routes, ValidRules;
    RunKeeps(n, events);
    var s := Run(n, events);
    assert WorkerOk(s.workers[i], i, s.r, s.writer);
  }

  /** In any run, the next packet of a burst goes the way the held tables say. */
  lemma StepFollowsTables(n: nat, events: seq<Event>, i: nat, input: Input, tables: Snapshot)
    requires i < n && Run(n, events).workers[i].pc.Bursting?
    requires var s := Run(n, events);
             var b := s.workers[i].pc.b;
             && |b.outs| < |b.burst|
             && b.held.Some? && b.held.value in s.r.heap && Indexes(tables, s.r.heap[b.held.value].rules)
    ensures var b := Run(n, events).workers[i].pc.b;
            Run(n, events + [ByWorker(i, input)]).workers[i].pc
            == Bursting(b.(outs := b.outs + [RouteBy(tables, b.burst[|b.outs|])]))
  {
    hide Route, RouteBy, Indexes, ValidRules, Publish, Own, Load;
    var s := Run(n, events);
    var b := s.workers[i].pc.b;
    HeldRulesValid(n, events, i);
    RouteByRules(tables, s.r.heap[b.held.value].rules, b.burst[|b.outs|]);
    assert (events + [ByWorker(i, input)])[..|events|] == events;
  }

  /** `dp_process_packet` on that packet, with those tables: the same outcome. */
  method PacketFollowsStep(m: Mbuf, stats: Stats, tables: Snapshot, ledger: Ledger, ghost w: Reader, ghost r: Memory)
    returns (candidate: Mbuf?)
    requires m.data.Length < 0x1_0000 && stats.Valid()
    requires w.pc.Bursting? && |w.pc.b.outs| < |w.pc.b.burst| && View(m) == w.pc.b.burst[|w.pc.b.outs|]
    requires w.pc.b.held.Some? && w.pc.b.held.value in r.heap
    requires Indexes(tables, r.heap[w.pc.b.held.value].rules) && ValidRules(r.heap[w.pc.b.held.value].rules)
    modifies m.data, stats, ledger`freed
    ensures stats.Valid()
    ensures var step := Process(w, w.pc.b, r).w.pc;
            && step.Bursting? && |step.b.outs| == |w.pc.b.outs| + 1
            && match step.b.outs[|w.pc.b.outs|]
               case Some(f) => candidate == m && m.data[..] == f && ledger.freed == old(ledger.freed)
               case None => candidate == null && ledger.freed == old(ledger.freed) + [m]
  {
    hide Route, VerdictOf, CountVerdict, Indexes, ValidRules, Decides, Stats.Valid;
    ghost var rules := r.heap[w.pc.b.held.value].rules;
    BuiltDecides(tables, rules);
    candidate := ProcessPacket(m, stats, tables, ledger, rules);
  }

  /** A turn of the worker loop that receives a logged burst offers to TX what the log says. */
  method TurnFollowsLog(pkts: array<Mbuf>, p: Poll, stats: Stats, ledger: Ledger, ghost b: Burst, ghost published: seq<RuleSet>)
    requires |p.received| <= pkts.Length && Received(p.received) && stats.Valid()
    requires BurstOk(b, published) && Views(p.received) == b.burst && p.snapshot != null
    requires ValidRules(published[b.generation - 1]) && Indexes(p.snapshot, published[b.generation - 1])
    modifies pkts, Storage(p.received), stats, ledger
    ensures stats.Valid()
    ensures var kept := Kept(b.outs, p.received);
            var sent := Taken(p.willing, |kept|);
            && Carries(kept, Somes(b.outs))
            && ledger.sent == old(ledger.sent) + kept[..sent]
            && ledger.freed == old(ledger.freed) + Dropped(b.outs, p.received) + kept[sent..]
  {
    hide Routes, Verdicts, Kept, Dropped, Somes, CountBurst, Decides, Stats.Valid, Carries, Indexes, ValidRules;
    BuiltDecides(p.snapshot, published[b.generation - 1]);
    Turn(pkts, p, stats, ledger, published[b.generation - 1]);
  }
}
