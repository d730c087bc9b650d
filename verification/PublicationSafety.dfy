/** What every step of the publication protocol keeps, and what that means for bursts and snapshots. */
module PublicationSafety {
  import opened Wrappers
  import opened Rules
  import opened RewriteLaws
  import opened Router
  import opened Publication

  // ---------- Workers ----------

  predicate AtRest(pc: WorkerPc) {
    pc.Parked? || pc.Done?
  }

  function ActiveWeight(pc: WorkerPc): nat {
    if pc.Parked? || pc.Entering? || pc.Done? then 0 else 1
  }

  function ReaderWeight(pc: WorkerPc): nat {
    if Looping(pc) || pc.Leaving? || pc.Offline? then 1 else 0
  }

  /** Registered, online, and inside the loop. */
  predicate Looping(pc: WorkerPc) {
    pc.Counted? || pc.AtTop? || pc.Polling? || pc.Polled? || pc.Bursting? || pc.Quiescing? || pc.QuiescentRead?
  }

  /** Between the snapshot load and the store of the quiescent counter. */
  predicate Reading(pc: WorkerPc) {
    pc.Bursting? || pc.Quiescing? || pc.QuiescentRead?
  }

  predicate Flagged(pc: WorkerPc) {
    (Looping(pc) && !pc.Counted?) || pc.Leaving? || pc.Offline? || pc.Unregistered?
  }

  predicate CounterOk(pc: WorkerPc, counter: nat, token: nat) {
    && (if pc.Online? || Looping(pc) || pc.Leaving? then 0 < counter <= token else counter == 0)
    && (pc.TokenRead? ==> 0 < pc.token <= token)
    && (pc.QuiescentRead? ==> counter <= pc.token <= token)
  }

  /** The writer will not pass reader `i` before the reader's next quiescent point. */
  predicate Protected(i: nat, counter: nat, held: SnapId, writer: WriterPc) {
    match writer
    case Swapped(prior) => prior == Some(held)
    case Recorded(prior) => prior == Some(held)
    case Scanning(prior, t, next) => prior == Some(held) && next <= i && counter < t
    case _ => false
  }

  ghost predicate HoldsLive(b: InFlight, i: nat, counter: nat, r: Memory, writer: WriterPc) {
    && b.held.Some? && b.held.value in r.heap
    && (r.current == b.held || Protected(i, counter, b.held.value, writer))
    && r.heap[b.held.value].generation == b.generation
    && 1 <= b.generation <= |r.published|
    && r.heap[b.held.value].rules == r.published[b.generation - 1]
  }

  ghost predicate InFlightOk(b: InFlight, published: seq<RuleSet>) {
    && 1 <= b.generation <= |published| && b.floor <= b.generation
    && |b.outs| <= |b.burst|
    && b.outs == Routes(published[b.generation - 1], b.burst[..|b.outs|])
  }

  /** A completed burst is the pure route of its packets under one published generation. */
  ghost predicate BurstOk(b: Burst, published: seq<RuleSet>) {
    && 1 <= b.generation <= |published| && b.floor <= b.generation
    && b.outs == Routes(published[b.generation - 1], b.burst)
  }

  ghost predicate LogOk(log: seq<Burst>, published: seq<RuleSet>) {
    && (forall k | 0 <= k < |log| :: BurstOk(log[k], published))
    && (forall j, k | 0 <= j < k < |log| :: log[j].generation <= log[k].generation)
  }

  predicate NotAfter(log: seq<Burst>, generation: nat) {
    forall k | 0 <= k < |log| :: log[k].generation <= generation
  }

  ghost predicate WorkerOk(w: Reader, i: nat, r: Memory, writer: WriterPc) {
    && w.registered == Flagged(w.pc)
    && CounterOk(w.pc, w.counter, r.token)
    && LogOk(w.log, r.published)
    && (Reading(w.pc) ==>
          && HoldsLive(w.pc.b, i, w.counter, r, writer)
          && InFlightOk(w.pc.b, r.published) && NotAfter(w.log, w.pc.b.generation))
  }

  // ---------- Memory ----------

  function Ids(id: Option<SnapId>): set<SnapId> {
    if id.Some? then {id.value} else {}
  }

  /** The writer has exchanged the pointer and not yet reclaimed the prior snapshot. */
  predicate Pending(writer: WriterPc) {
    writer.Swapped? || writer.Recorded? || writer.Scanning? || writer.Passed?
  }

  /** Snapshots alive beside the current one. */
  function Beside(writer: WriterPc, owner: OwnerPc): set<SnapId> {
    if writer.Built? then {writer.made}
    else if Pending(writer) then Ids(writer.prior)
    else if owner.TearSwapped? then Ids(owner.prior)
    else {}
  }

  ghost predicate HeapOk(r: Memory, writer: WriterPc, owner: OwnerPc) {
    && r.heap.Keys == Ids(r.current) + Beside(writer, owner)
    && Ids(r.current) !! Beside(writer, owner)
    && (Pending(writer) ==> writer.prior.Some? && r.current.Some?)
    && (writer.Built? ==> r.heap[writer.made].generation == r.generation + 1 && ValidRules(r.heap[writer.made].rules) && r.current.Some?)
    && (r.current.Some? ==>
          r.published != [] && r.heap[r.current.value] == Snap(|r.published|, r.published[|r.published| - 1]))
  }

  /** Every snapshot ever built is alive or has been freed exactly once. */
  ghost predicate FreedOnce(r: Memory) {
    forall id: SnapId :: && (id in r.heap ==> id < r.nextId)
                         && r.frees[id] == if id < r.nextId && id !in r.heap then 1 else 0
  }

  /** The publication counters. */
  ghost predicate Accounts(r: Memory, writer: WriterPc) {
    && r.success == r.generation
    && |r.published| == r.generation + (if writer.Swapped? then 1 else 0)
    && (if r.published == [] then r.reclaimed == 0 && !Pending(writer)
        else r.reclaimed + 1 == |r.published| - if Pending(writer) then 1 else 0)
    && r.returned <= r.generation
    && (!Pending(writer) && !(writer.Releasing? && writer.published) ==> r.returned == r.generation)
    && forall k | 0 <= k < |r.published| :: ValidRules(r.published[k])
  }

  predicate TokenOk(r: Memory, writer: WriterPc) {
    r.token > 0 && (writer.Scanning? ==> writer.token == r.token)
  }

  ghost predicate MemoryOk(r: Memory, writer: WriterPc, owner: OwnerPc) {
    HeapOk(r, writer, owner) && FreedOnce(r) && Accounts(r, writer) && TokenOk(r, writer)
  }

  // ---------- The owner ----------

  predicate Tearing(owner: OwnerPc) {
    owner.TearLocked? || owner.TearSwapped? || owner.TearFreed? || owner.TearUnlocking?
  }

  predicate Running(owner: OwnerPc) {
    owner.Launching? || owner.Marking? || owner.RunFirst? || owner.RunningFirst? || owner.Joining?
  }

  /** How far the launch and join of worker `i` have come. */
  predicate Placed(owner: OwnerPc, i: nat, w: Reader) {
    match owner
    case Start => w.pc.Parked? && !w.launched
    case Ready => w.pc.Parked? && !w.launched
    case Launching(k) => w.launched == (1 <= i < k) == !w.pc.Parked?
    case Marking(k) => w.launched == (1 <= i < k) && (!w.pc.Parked? <==> 1 <= i <= k)
    case RunFirst => w.launched && (w.pc.Parked? <==> i == 0)
    case RunningFirst => w.launched && !w.pc.Parked?
    case Joining(k, until, _) =>
      if i == 0 then AtRest(w.pc) && !w.launched
      else if i < k then w.pc.Done? && !w.launched
      else if i < until then !w.pc.Parked? && w.launched
      else w.pc.Parked? && !w.launched
    case _ => AtRest(w.pc) && !w.launched
  }

  ghost predicate OwnerOk(s: State) {
    var n, r := |s.workers|, s.r;
    && s.running == Running(s.owner)
    && !s.owner.Refused?
    && (Tearing(s.owner) <==> s.writer.OwnerHolds?)
    && (s.owner.Start? ==> s.writer.Idle? && r.published == [] && r.nextId == 0)
    && (Running(s.owner) || s.owner.Ready? || s.owner.Ran? ==> r.configured)
    && (!Tearing(s.owner) && !s.owner.TornDown? ==>
          (r.configured <==> r.published != []) && (r.configured ==> r.qsbr && r.current.Some?))
    && (s.owner.TearLocked? ==> r.current.Some? == (r.published != []))
    && (s.owner.TearSwapped? || s.owner.TearFreed? || s.owner.TearUnlocking? || s.owner.TornDown? ==> r.current.None?)
    && (s.owner.TearUnlocking? || s.owner.TornDown? ==> !r.qsbr && !r.configured)
    && (s.owner.TornDown? ==> s.writer.Idle? || s.writer.Locked? || s.writer.Releasing?)
    && (s.writer.Releasing? && s.writer.published ==> r.published != [])
    && (s.owner.Launching? ==> 1 <= s.owner.i <= n)
    && (s.owner.Marking? ==> 1 <= s.owner.i < n)
    && (s.owner.Joining? ==> 1 <= s.owner.i <= s.owner.until <= n)
    && forall i | 0 <= i < n :: Placed(s.owner, i, s.workers[i])
  }

  function Sum(ws: seq<Reader>, weight: WorkerPc -> nat): nat {
    if ws == [] then 0 else Sum(ws[..|ws| - 1], weight) + weight(ws[|ws| - 1].pc)
  }

  ghost predicate CountsOk(s: State) {
    s.active == Sum(s.workers, ActiveWeight) && s.readers == Sum(s.workers, ReaderWeight)
  }

  ghost predicate Inv(s: State) {
    && s.workers != [] && !s.fault
    && MemoryOk(s.r, s.writer, s.owner)
    && OwnerOk(s) && CountsOk(s)
    && forall i | 0 <= i < |s.workers| :: WorkerOk(s.workers[i], i, s.r, s.writer)
  }

  // ---------- Steps of a worker ----------

  lemma {:induction false} SumUpdate(ws: seq<Reader>, weight: WorkerPc -> nat, i: nat, w: Reader)
    requires i < |ws|
    ensures Sum(ws[i := w], weight) == Sum(ws, weight) - weight(ws[i].pc) + weight(w.pc)
  {
    var n := |ws| - 1;
    if i < n {
      SumUpdate(ws[..n], weight, i, w);
      assert ws[i := w][..n] == ws[..n][i := w];
    } else {
      assert ws[i := w][..n] == ws[..n];
    }
  }

  lemma RoutesNext(rs: RuleSet, burst: seq<Buffer>, k: nat)
    requires k < |burst|
    ensures Routes(rs, burst[..k + 1]) == Routes(rs, burst[..k]) + [Route(rs, burst[k])]
  {
    assert burst[..k + 1][..k] == burst[..k];
  }

  lemma LogAppend(log: seq<Burst>, b: Burst, published: seq<RuleSet>)
    requires LogOk(log, published) && BurstOk(b, published) && NotAfter(log, b.generation)
    ensures LogOk(log + [b], published)
  {
  }

  /** What a worker out of the idle states may rely on. */
  ghost predicate Served(r: Memory) {
    && r.qsbr && r.current.Some? && r.current.value in r.heap && r.published != []
    && r.heap[r.current.value] == Snap(|r.published|, r.published[|r.published| - 1])
  }

  lemma LoadOk(w: Reader, i: nat, r: Memory, writer: WriterPc, burst: seq<Buffer>)
    requires WorkerOk(w, i, r, writer) && w.pc == Polled(burst) && Served(r) && r.returned <= |r.published|
    ensures var m := Load(w, r, burst);
            !m.fault && m.w.pc.Bursting? && WorkerOk(m.w, i, r, writer)
  {
    hide Route;
    assert burst[..0] == [];
  }

  lemma ProcessOk(w: Reader, b: InFlight, i: nat, r: Memory, writer: WriterPc)
    requires WorkerOk(w, i, r, writer) && w.pc == Bursting(b)
    ensures var m := Process(w, b, r);
            !m.fault && (m.w.pc.Bursting? || m.w.pc.Quiescing?) && WorkerOk(m.w, i, r, writer)
  {
    hide Route, Routes;
    if |b.outs| < |b.burst| {
      RoutesNext(r.published[b.generation - 1], b.burst, |b.outs|);
    } else if b.burst != [] {
      assert b.burst[..|b.outs|] == b.burst;
      LogAppend(w.log, Burst(b.generation, b.floor, b.burst, b.outs), r.published);
    }
  }

  lemma WorkOk(w: Reader, i: nat, r: Memory, writer: WriterPc, stop: bool, input: Input)
    requires WorkerOk(w, i, r, writer) && TokenOk(r, writer) && r.returned <= |r.published|
    requires !AtRest(w.pc) ==> Served(r)
    ensures var m := Work(w, r, stop, input);
            !m.fault && WorkerOk(m.w, i, r, writer)
  {
    hide Route, Routes, LogOk, HoldsLive, InFlightOk, NotAfter, Load, Process;
    if w.pc.Polled? {
      LoadOk(w, i, r, writer, w.pc.burst);
    } else if w.pc.Bursting? {
      ProcessOk(w, w.pc.b, i, r, writer);
    }
  }

  /** The move changes the two worker counts by what its step says. */
  ghost predicate CountsMove(w: Reader, m: Move) {
    && m.active == ActiveWeight(m.w.pc) - ActiveWeight(w.pc)
    && m.readers == ReaderWeight(m.w.pc) - ReaderWeight(w.pc)
    && m.w.launched == w.launched
    && (w.pc.Parked? <==> m.w.pc.Parked?) && (w.pc.Done? ==> m.w.pc.Done?)
  }

  /** Inside the loop proper. */
  predicate InLoop(pc: WorkerPc) {
    pc.AtTop? || pc.Polling? || pc.Polled? || Reading(pc)
  }

  lemma LoopCounts(w: Reader, r: Memory, stop: bool, input: Input)
    requires InLoop(w.pc)
    ensures CountsMove(w, Work(w, r, stop, input))
  {
    hide Load, Process;
    if w.pc.Polled? {
      LoadCounts(w, r, w.pc.burst);
    } else if w.pc.Bursting? {
      ProcessCounts(w, w.pc.b, r);
    }
  }

  lemma EdgeCounts(w: Reader, r: Memory, stop: bool, input: Input)
    requires !InLoop(w.pc)
    ensures CountsMove(w, Work(w, r, stop, input))
  {
    hide Load, Process;
  }

  lemma WorkCounts(w: Reader, r: Memory, stop: bool, input: Input)
    ensures CountsMove(w, Work(w, r, stop, input))
  {
    hide Work, CountsMove, InLoop;
    if InLoop(w.pc) {
      LoopCounts(w, r, stop, input);
    } else {
      EdgeCounts(w, r, stop, input);
    }
  }

  lemma LoadCounts(w: Reader, r: Memory, burst: seq<Buffer>)
    ensures var m := Load(w, r, burst);
            m.active == m.readers == 0 && m.w.launched == w.launched && (m.w.pc == w.pc || m.w.pc.Bursting?)
  {
  }

  lemma ProcessCounts(w: Reader, b: InFlight, r: Memory)
    ensures var m := Process(w, b, r);
            && m.active == m.readers == 0 && m.w.launched == w.launched
            && (m.w.pc == w.pc || m.w.pc.Bursting? || m.w.pc.Quiescing?)
  {
    hide Route;
  }

  /** A worker that is at work is served. */
  lemma AtWork(s: State, i: nat)
    requires Inv(s) && i < |s.workers| && !AtRest(s.workers[i].pc)
    ensures Running(s.owner) && Served(s.r)
  {
    assert Placed(s.owner, i, s.workers[i]);
  }

  lemma WorkerStepKeeps(s: State, i: nat, input: Input)
    requires Inv(s) && i < |s.workers|
    ensures Inv(Next(s, ByWorker(i, input)))
  {
    hide Work, WorkerOk, Served, HeapOk, FreedOnce, Placed;
    var t := Next(s, ByWorker(i, input));
    if !AtRest(s.workers[i].pc) {
      AtWork(s, i);
    }
    WorkOk(s.workers[i], i, s.r, s.writer, s.stop, input);
    WorkCounts(s.workers[i], s.r, s.stop, input);
    SumUpdate(s.workers, ActiveWeight, i, t.workers[i]);
    SumUpdate(s.workers, ReaderWeight, i, t.workers[i]);
    PlacedStill(s.owner, i, s.workers[i], t.workers[i]);
  }

  lemma PlacedStill(owner: OwnerPc, i: nat, w: Reader, v: Reader)
    requires Placed(owner, i, w) && v.launched == w.launched
    requires (w.pc.Parked? <==> v.pc.Parked?) && (w.pc.Done? ==> v.pc.Done?)
    ensures Placed(owner, i, v)
  {
  }

  // ---------- Steps of a publisher ----------

  lemma LogGrows(log: seq<Burst>, published: seq<RuleSet>, more: seq<RuleSet>)
    requires LogOk(log, published)
    ensures LogOk(log, published + more)
  {
    forall k | 0 <= k < |log|
      ensures BurstOk(log[k], published + more)
    {
      assert BurstOk(log[k], published);
    }
  }

  /** Extending `published`, `token` or the heap, or passing a step of the protocol, keeps a worker's state good. */
  lemma WorkerSees(w: Reader, i: nat, r: Memory, writer: WriterPc, r': Memory, writer': WriterPc, more: seq<RuleSet>)
    requires WorkerOk(w, i, r, writer)
    requires r'.published == r.published + more && r.token <= r'.token
    requires Reading(w.pc) ==> HoldsLive(w.pc.b, i, w.counter, r, writer) ==> HoldsLive(w.pc.b, i, w.counter, r', writer')
    ensures WorkerOk(w, i, r', writer')
  {
    hide Routes, Route, HoldsLive, LogOk, NotAfter;
    LogGrows(w.log, r.published, more);
  }

  lemma BuildOk(r: Memory, rules: RuleSet, granted: bool, owner: OwnerPc)
    requires MemoryOk(r, Locked(rules), owner) && !Tearing(owner)
    ensures var t := Prepare(r, rules, granted);
            !t.fault && MemoryOk(t.r, t.writer, owner) && t.r.published == r.published && t.r.token == r.token
  {
  }

  lemma ExchangeOk(r: Memory, made: SnapId, owner: OwnerPc)
    requires MemoryOk(r, Built(made), owner) && !Tearing(owner)
    ensures var t := Exchange(r, made);
            !t.fault && MemoryOk(t.r, t.writer, owner) && t.r.published == r.published + [r.heap[made].rules] && t.r.token == r.token
  {
  }

  lemma RecordOk(r: Memory, prior: Option<SnapId>, owner: OwnerPc)
    requires MemoryOk(r, Swapped(prior), owner) && !Tearing(owner)
    ensures var t := Record(r, prior);
            !t.fault && MemoryOk(t.r, t.writer, owner) && t.r.published == r.published && t.r.token == r.token
  {
  }

  lemma GraceOk(r: Memory, prior: Option<SnapId>, owner: OwnerPc)
    requires MemoryOk(r, Recorded(prior), owner) && !Tearing(owner) && r.qsbr
    ensures var t := StartGrace(r, prior);
            !t.fault && MemoryOk(t.r, t.writer, owner) && t.r.published == r.published && t.r.token == r.token + 1
  {
  }

  lemma ScanOk(r: Memory, workers: seq<Reader>, prior: Option<SnapId>, token: nat, next: nat, owner: OwnerPc)
    requires MemoryOk(r, Scanning(prior, token, next), owner) && !Tearing(owner) && r.qsbr
    ensures var t := Scan(r, workers, prior, token, next);
            !t.fault && MemoryOk(t.r, t.writer, owner) && t.r == r
  {
  }

  lemma FinishOk(r: Memory, prior: Option<SnapId>, owner: OwnerPc)
    requires MemoryOk(r, Passed(prior), owner) && !Tearing(owner)
    ensures var t := Finish(r, prior);
            !t.fault && MemoryOk(t.r, t.writer, owner) && t.r.published == r.published && t.r.token == r.token
  {
  }

  // What one step of a publisher leaves true of a held snapshot.

  lemma HeldThroughBuild(b: InFlight, i: nat, counter: nat, r: Memory, rules: RuleSet, granted: bool)
    requires HoldsLive(b, i, counter, r, Locked(rules)) && FreedOnce(r)
    ensures var t := Prepare(r, rules, granted); HoldsLive(b, i, counter, t.r, t.writer)
  {
  }

  lemma HeldThroughExchange(b: InFlight, i: nat, counter: nat, r: Memory, made: SnapId)
    requires HoldsLive(b, i, counter, r, Built(made))
    ensures var t := Exchange(r, made); HoldsLive(b, i, counter, t.r, t.writer)
  {
  }

  lemma HeldThroughRecord(b: InFlight, i: nat, counter: nat, r: Memory, prior: Option<SnapId>)
    requires HoldsLive(b, i, counter, r, Swapped(prior))
    ensures var t := Record(r, prior); HoldsLive(b, i, counter, t.r, t.writer)
  {
  }

  /** The token is taken after the exchange: every reader that may hold the prior snapshot is behind it. */
  lemma HeldThroughGrace(b: InFlight, i: nat, counter: nat, r: Memory, prior: Option<SnapId>)
    requires HoldsLive(b, i, counter, r, Recorded(prior)) && counter <= r.token
    ensures var t := StartGrace(r, prior); HoldsLive(b, i, counter, t.r, t.writer)
  {
  }

  lemma HeldThroughScan(b: InFlight, i: nat, r: Memory, workers: seq<Reader>, prior: Option<SnapId>, token: nat, next: nat)
    requires i < |workers| && 0 < workers[i].counter
    requires HoldsLive(b, i, workers[i].counter, r, Scanning(prior, token, next))
    ensures var t := Scan(r, workers, prior, token, next); HoldsLive(b, i, workers[i].counter, t.r, t.writer)
  {
  }

  lemma HeldThroughFinish(b: InFlight, i: nat, counter: nat, r: Memory, prior: Option<SnapId>, owner: OwnerPc)
    requires HoldsLive(b, i, counter, r, Passed(prior)) && HeapOk(r, Passed(prior), owner)
    ensures var t := Finish(r, prior); HoldsLive(b, i, counter, t.r, t.writer)
  {
  }

  /** A publisher that holds the lock finds the QSBR object allocated from the exchange on. */
  lemma GraceServed(s: State)
    requires Inv(s) && Pending(s.writer)
    ensures s.r.qsbr
  {
    hide WorkerOk, Placed, CountsOk, FreedOnce;
  }

  /** One step of a publisher: memory stays good, and so does what each worker holds. */
  lemma PublishOk(s: State, rules: RuleSet, granted: bool)
    requires Inv(s)
    ensures var t := Publish(s.writer, s.r, s.workers, !s.owner.Start?, rules, granted);
            && !t.fault && MemoryOk(t.r, t.writer, s.owner)
            && s.r.published <= t.r.published && s.r.token <= t.r.token
  {
    hide MemoryOk, WorkerOk, Placed, CountsOk, Prepare, Exchange, Record, StartGrace, Scan, Finish;
    var owner := s.owner;
    match s.writer
    case Idle => LockOk(s.r, rules, owner);
    case Locked(mine) => BuildOk(s.r, mine, granted, owner);
    case Built(made) => ExchangeOk(s.r, made, owner);
    case Swapped(prior) => RecordOk(s.r, prior, owner);
    case Recorded(prior) =>
      GraceServed(s);
      GraceOk(s.r, prior, owner);
    case Scanning(prior, t, next) =>
      GraceServed(s);
      ScanOk(s.r, s.workers, prior, t, next, owner);
    case Passed(prior) => FinishOk(s.r, prior, owner);
    case Releasing(result, published) => ReleaseOk(s.r, result, published, owner);
    case OwnerHolds =>
  }

  lemma LockOk(r: Memory, rules: RuleSet, owner: OwnerPc)
    requires MemoryOk(r, Idle, owner)
    ensures MemoryOk(r, Locked(rules), owner)
  {
  }

  lemma ReleaseOk(r: Memory, result: int, published: bool, owner: OwnerPc)
    requires MemoryOk(r, Releasing(result, published), owner)
    ensures MemoryOk(if published then r.(returned := r.generation) else r, Idle, owner)
  {
  }

  lemma HeldThroughPublish(s: State, i: nat, rules: RuleSet, granted: bool)
    requires Inv(s) && i < |s.workers| && Reading(s.workers[i].pc)
    ensures var t := Publish(s.writer, s.r, s.workers, !s.owner.Start?, rules, granted);
            HoldsLive(s.workers[i].pc.b, i, s.workers[i].counter, t.r, t.writer)
  {
    hide HeapOk, FreedOnce, HoldsLive, Placed, CountsOk, Prepare, Exchange, Record, StartGrace, Scan, Finish, LogOk, InFlightOk, NotAfter;
    var w := s.workers[i];
    var b, counter := w.pc.b, w.counter;
    assert WorkerOk(w, i, s.r, s.writer);
    match s.writer
    case Locked(mine) => HeldThroughBuild(b, i, counter, s.r, mine, granted);
    case Built(made) => HeldThroughExchange(b, i, counter, s.r, made);
    case Swapped(prior) => HeldThroughRecord(b, i, counter, s.r, prior);
    case Recorded(prior) => HeldThroughGrace(b, i, counter, s.r, prior);
    case Scanning(prior, t, next) => HeldThroughScan(b, i, s.r, s.workers, prior, t, next);
    case Passed(prior) => HeldThroughFinish(b, i, counter, s.r, prior, s.owner);
    case _ => HeldThroughLock(b, i, counter, s.r, s.writer, rules);
  }

  lemma HeldThroughLock(b: InFlight, i: nat, counter: nat, r: Memory, writer: WriterPc, rules: RuleSet)
    requires HoldsLive(b, i, counter, r, writer) && (writer.Idle? || writer.Releasing? || writer.OwnerHolds?)
    ensures HoldsLive(b, i, counter, r, Locked(rules)) && HoldsLive(b, i, counter, r, Idle)
    ensures HoldsLive(b, i, counter, r.(returned := r.generation), Idle)
  {
  }

  /** A publisher's step does not touch what the owner relies on. */
  lemma OwnerThroughPublish(s: State, rules: RuleSet, granted: bool)
    requires Inv(s)
    ensures var t := Publish(s.writer, s.r, s.workers, !s.owner.Start?, rules, granted);
            OwnerOk(s.(writer := t.writer, r := t.r))
  {
    hide WorkerOk, Placed, CountsOk, FreedOnce;
  }

  lemma WriterStepKeeps(s: State, rules: RuleSet, granted: bool)
    requires Inv(s)
    ensures Inv(Next(s, ByWriter(rules, granted)))
  {
    hide OwnerOk, Placed, MemoryOk, Publish, HoldsLive;
    var t := Next(s, ByWriter(rules, granted));
    PublishOk(s, rules, granted);
    OwnerThroughPublish(s, rules, granted);
    var more := t.r.published[|s.r.published|..];
    assert t.r.published == s.r.published + more;
    forall i | 0 <= i < |t.workers|
      ensures WorkerOk(t.workers[i], i, t.r, t.writer)
    {
      if Reading(t.workers[i].pc) {
        HeldThroughPublish(s, i, rules, granted);
      }
      WorkerSees(t.workers[i], i, s.r, s.writer, t.r, t.writer, more);
    }
  }

  // ---------- Steps of the owner ----------

  lemma ConfigureOk(r: Memory, rules: RuleSet, qsbr: bool, granted: bool, owner: OwnerPc)
    requires MemoryOk(r, Idle, Start) && r.published == [] && r.nextId == 0 && !r.configured && r.returned == 0
    requires owner.Ready? || owner.Closing?
    ensures var t := Configure(r, rules, qsbr, granted);
            && MemoryOk(t, Idle, owner) && t.token == r.token
            && (t.configured <==> t.published != []) && (t.configured ==> t.qsbr && t.current.Some?)
  {
  }

  lemma WorkerRetouched(w: Reader, i: nat, r: Memory, writer: WriterPc, launched: bool)
    requires WorkerOk(w, i, r, writer)
    ensures WorkerOk(w.(launched := launched), i, r, writer)
    ensures w.pc.Parked? ==> WorkerOk(w.(pc := Entering), i, r, writer)
  {
    hide LogOk, HoldsLive, InFlightOk, NotAfter;
  }

  lemma SameHeap(r: Memory, writer: WriterPc, owner: OwnerPc, owner': OwnerPc)
    requires MemoryOk(r, writer, owner) && !owner.TearSwapped? && !owner'.TearSwapped?
    ensures MemoryOk(r, writer, owner')
  {
    hide FreedOnce, Accounts;
  }

  /** The owner moves on without touching a worker. */
  lemma MoveKeeps(s: State, t: State)
    requires Inv(s) && t == s.(owner := t.owner, running := t.running, stop := t.stop) && OwnerOk(t)
    requires !s.owner.TearSwapped? && !t.owner.TearSwapped?
    ensures Inv(t)
  {
    hide OwnerOk, MemoryOk, WorkerOk;
    SameHeap(s.r, s.writer, s.owner, t.owner);
  }

  lemma LaunchKeeps(s: State, i: nat, t: State)
    requires Inv(s) && i < |s.workers| && s.workers[i].pc.Parked? && t == Launch(s, i).(owner := t.owner) && OwnerOk(t)
    requires !s.owner.TearSwapped? && !t.owner.TearSwapped?
    ensures Inv(t)
  {
    hide OwnerOk, MemoryOk, WorkerOk;
    SameHeap(s.r, s.writer, s.owner, t.owner);
    SumUpdate(s.workers, ActiveWeight, i, t.workers[i]);
    SumUpdate(s.workers, ReaderWeight, i, t.workers[i]);
    WorkerRetouched(s.workers[i], i, s.r, s.writer, false);
  }

  lemma MarkKeeps(s: State, i: nat, launched: bool, t: State)
    requires Inv(s) && i < |s.workers| && t == Mark(s, i, launched).(owner := t.owner) && OwnerOk(t)
    requires !s.owner.TearSwapped? && !t.owner.TearSwapped?
    ensures Inv(t)
  {
    hide OwnerOk, MemoryOk, WorkerOk;
    SameHeap(s.r, s.writer, s.owner, t.owner);
    SumUpdate(s.workers, ActiveWeight, i, t.workers[i]);
    SumUpdate(s.workers, ReaderWeight, i, t.workers[i]);
    WorkerRetouched(s.workers[i], i, s.r, s.writer, launched);
  }

  /** Launching, before the first worker runs. */
  lemma LaunchingKeeps(s: State, ok: bool, error: int)
    requires Inv(s) && (s.owner.Launching? || s.owner.Marking? || s.owner.RunFirst?)
    ensures Inv(RunStep(s, ok, error))
  {
    hide MemoryOk, WorkerOk, CountsOk;
    var t := RunStep(s, ok, error);
    match s.owner
    case Launching(i) =>
      if i >= |s.workers| {
        MarkKeeps(s, 0, true, t);
      } else if ok {
        assert Placed(s.owner, i, s.workers[i]);
        LaunchKeeps(s, i, t);
      } else {
        MoveKeeps(s, t);
      }
    case Marking(i) => MarkKeeps(s, i, true, t);
    case RunFirst => 
      assert Placed(s.owner, 0, s.workers[0]);
      LaunchKeeps(s, 0, t);
  }

  lemma JoiningKeeps(s: State, ok: bool, error: int)
    requires Inv(s) && (s.owner.Ready? || s.owner.RunningFirst? || s.owner.Joining? || s.owner.Ran?)
    ensures Inv(RunStep(s, ok, error))
  {
    hide MemoryOk, WorkerOk, CountsOk;
    var t := RunStep(s, ok, error);
    if s.owner.RunningFirst? && Over(s.workers[0]) {
      MarkKeeps(s, 0, false, t);
    } else if s.owner.Joining? && s.owner.i < s.owner.until && Over(s.workers[s.owner.i]) {
      MarkKeeps(s, s.owner.i, false, t);
    } else {
      MoveKeeps(s, t);
    }
  }

  lemma {:induction false} NobodyCounted(ws: seq<Reader>)
    requires forall i | 0 <= i < |ws| :: AtRest(ws[i].pc)
    ensures Sum(ws, ActiveWeight) == 0 && Sum(ws, ReaderWeight) == 0
  {
    if ws == [] {
    } else {
      NobodyCounted(ws[..|ws| - 1]);
    }
  }

  /** Outside `dp_dataplane_run` every worker is stopped, as `dp_workers_stopped` sees it. */
  lemma NotRunningIsStopped(s: State)
    requires Inv(s) && !Running(s.owner)
    ensures WorkersStopped(s) && forall i | 0 <= i < |s.workers| :: AtRest(s.workers[i].pc)
  {
    hide MemoryOk;
    forall i | 0 <= i < |s.workers|
      ensures AtRest(s.workers[i].pc) && !s.workers[i].launched && !s.workers[i].registered
    {
      assert Placed(s.owner, i, s.workers[i]) && WorkerOk(s.workers[i], i, s.r, s.writer);
    }
    NobodyCounted(s.workers);
  }

  /** With every worker at rest, memory may change under them. */
  lemma MemoryChanges(s: State, t: State, more: seq<RuleSet>)
    requires Inv(s) && !Running(s.owner)
    requires t.workers == s.workers && t.active == s.active && t.readers == s.readers && !t.fault
    requires t.r.published == s.r.published + more && t.r.token == s.r.token
    requires MemoryOk(t.r, t.writer, t.owner) && OwnerOk(t)
    ensures Inv(t)
  {
    hide MemoryOk, OwnerOk;
    NotRunningIsStopped(s);
    forall i | 0 <= i < |t.workers|
      ensures WorkerOk(t.workers[i], i, t.r, t.writer)
    {
      WorkerSees(t.workers[i], i, s.r, s.writer, t.r, t.writer, more);
    }
  }

  lemma StartKeeps(s: State, input: OwnerInput)
    requires Inv(s) && s.owner.Start?
    ensures Inv(Own(s, input))
  {
    hide WorkerOk, CountsOk;
    var t := Own(s, input);
    ConfigureOk(s.r, input.rules, input.qsbr, input.granted, t.owner);
    hide MemoryOk, Configure;
    assert OwnerOk(t);
    MemoryChanges(s, t, t.r.published);
  }

  lemma LockKeeps(s: State)
    requires Inv(s) && s.owner.Closing?
    ensures Inv(TearStep(s)) && !TearStep(s).owner.Refused?
  {
    hide WorkerOk, CountsOk, FreedOnce;
    NotRunningIsStopped(s);
    hide WorkersStopped;
    var t := TearStep(s);
    assert OwnerOk(t);
    MemoryChanges(s, t, []);
  }

  lemma TearSwapOk(r: Memory)
    requires MemoryOk(r, OwnerHolds, TearLocked)
    ensures MemoryOk(r.(current := None), OwnerHolds, TearSwapped(r.current))
  {
  }

  lemma TearFreeOk(r: Memory, prior: Option<SnapId>)
    requires MemoryOk(r, OwnerHolds, TearSwapped(prior)) && r.current.None?
    ensures var (freed, fault) := Reclaim(r, prior, false);
            && !fault && MemoryOk(freed, OwnerHolds, TearFreed) && freed.published == r.published && freed.token == r.token
            && freed.current.None?
  {
  }

  lemma TearQsbrOk(r: Memory)
    requires MemoryOk(r, OwnerHolds, TearFreed)
    ensures MemoryOk(r.(qsbr := false, configured := false), OwnerHolds, TearUnlocking)
  {
  }

  lemma TearUnlockOk(r: Memory)
    requires MemoryOk(r, OwnerHolds, TearUnlocking)
    ensures MemoryOk(r, Idle, TornDown)
  {
    hide FreedOnce;
  }

  lemma TearKeeps(s: State)
    requires Inv(s) && (Tearing(s.owner) || s.owner.TornDown? || s.owner.Refused?)
    ensures Inv(TearStep(s))
  {
    hide WorkerOk, CountsOk, MemoryOk;
    var t := TearStep(s);
    match s.owner
    case TearLocked =>
      TearSwapOk(s.r);
      MemoryChanges(s, t, []);
    case TearSwapped(prior) =>
      TearFreeOk(s.r, prior);
      MemoryChanges(s, t, []);
    case TearFreed =>
      TearQsbrOk(s.r);
      MemoryChanges(s, t, []);
    case TearUnlocking =>
      TearUnlockOk(s.r);
      MemoryChanges(s, t, []);
    case _ =>
  }

  // ---------- Every run ----------

  lemma StepKeeps(s: State, e: Event)
    requires Inv(s)
    ensures Inv(Next(s, e))
  {
    hide WorkerOk, CountsOk, MemoryOk, OwnerOk, RunStep, TearStep, Configure, Work, Publish;
    match e
    case ByWorker(i, input) =>
      if i < |s.workers| {
        WorkerStepKeeps(s, i, input);
      }
    case ByWriter(rules, granted) => WriterStepKeeps(s, rules, granted);
    case ByOwner(answer) => OwnerStepKeeps(s, answer);
    case ByStop => StopKeeps(s);
  }

  lemma StopKeeps(s: State)
    requires Inv(s)
    ensures Inv(s.(stop := true))
  {
    hide WorkerOk, MemoryOk, Placed;
  }

  lemma OwnerStepKeeps(s: State, input: OwnerInput)
    requires Inv(s)
    ensures Inv(Own(s, input))
  {
    hide WorkerOk, CountsOk, MemoryOk, OwnerOk, RunStep, TearStep, Configure;
    match s.owner
    case Start => StartKeeps(s, input);
    case Ready => JoiningKeeps(s, input.ok, input.error);
    case Launching(_) => LaunchingKeeps(s, input.ok, input.error);
    case Marking(_) => LaunchingKeeps(s, input.ok, input.error);
    case RunFirst => LaunchingKeeps(s, input.ok, input.error);
    case RunningFirst => JoiningKeeps(s, input.ok, input.error);
    case Joining(_, _, _) => JoiningKeeps(s, input.ok, input.error);
    case Ran(_) => JoiningKeeps(s, input.ok, input.error);
    case Closing => LockKeeps(s);
    case _ => TearKeeps(s);
  }

  lemma InitialOk(n: nat)
    requires n > 0
    ensures Inv(Initial(n))
  {
    NobodyCounted(Initial(n).workers);
  }

  /** The invariant holds after every sequence of events. */
  lemma {:induction false} RunKeeps(n: nat, events: seq<Event>)
    requires n > 0
    ensures Inv(Run(n, events))
  {
    hide Next, Inv, Initial;
    if events == [] {
      InitialOk(n);
    } else {
      RunKeeps(n, events[..|events| - 1]);
      StepKeeps(Run(n, events[..|events| - 1]), events[|events| - 1]);
    }
  }

  /**
   In no run does a worker, a publisher or the owner touch freed memory, and from the load to the
   store of its quiescent counter a worker's snapshot is alive.
   */
  lemma NoUseAfterFree(n: nat, events: seq<Event>)
    requires n > 0
    ensures var s := Run(n, events);
            && !s.fault
            && forall i | 0 <= i < n && Reading(s.workers[i].pc) ::
                 s.workers[i].pc.b.held.Some? && s.workers[i].pc.b.held.value in s.r.heap
  {
    hide Run, MemoryOk, OwnerOk, CountsOk, LogOk, InFlightOk, NotAfter;
    RunKeeps(n, events);
    var s := Run(n, events);
    forall i | 0 <= i < n && Reading(s.workers[i].pc)
      ensures s.workers[i].pc.b.held.Some? && s.workers[i].pc.b.held.value in s.r.heap
    {
      assert WorkerOk(s.workers[i], i, s.r, s.writer);
    }
  }

  /**
   Each completed burst of each worker offers to TX exactly what the pure router makes of its packets
   under one valid published generation, not older than any publication that had returned before the
   load; the generations a worker uses never decrease.
   */
  lemma BurstsLinearize(n: nat, events: seq<Event>, i: nat)
    requires i < n
    ensures var s := Run(n, events);
            var log := s.workers[i].log;
            && (forall k | 0 <= k < |log| ::
                  var b := log[k];
                  && 1 <= b.generation <= |s.r.published| && b.floor <= b.generation
                  && ValidRules(s.r.published[b.generation - 1])
                  && Somes(b.outs) == RouteAll(s.r.published[b.generation - 1], b.burst))
            && (forall j, k | 0 <= j < k < |log| :: log[j].generation <= log[k].generation)
  {
    hide Run, HeapOk, FreedOnce, OwnerOk, CountsOk, InFlightOk, NotAfter, HoldsLive, Routes, ValidRules;
    RunKeeps(n, events);
    var s := Run(n, events);
    assert WorkerOk(s.workers[i], i, s.r, s.writer);
    var log := s.workers[i].log;
    forall k | 0 <= k < |log|
      ensures 1 <= log[k].generation <= |s.r.published| && log[k].floor <= log[k].generation
      ensures ValidRules(s.r.published[log[k].generation - 1])
      ensures Somes(log[k].outs) == RouteAll(s.r.published[log[k].generation - 1], log[k].burst)
    {
      assert BurstOk(log[k], s.r.published);
    }
  }

  /** The generation a burst uses is the one that is current when the burst loads it. */
  lemma LoadSeesCurrent(n: nat, events: seq<Event>, i: nat, input: Input)
    requires i < n && Run(n, events).workers[i].pc.Polled?
    ensures var s, t := Run(n, events), Run(n, events + [ByWorker(i, input)]);
            && t.workers[i].pc.Bursting?
            && t.workers[i].pc.b.generation == |s.r.published|
            && t.workers[i].pc.b.floor == s.r.returned <= |s.r.published|
  {
    hide Routes, Route, OwnerOk, CountsOk, FreedOnce, HeapOk;
    RunKeeps(n, events);
    AtWork(Run(n, events), i);
    assert (events + [ByWorker(i, input)])[..|events|] == events;
  }

  /** The publication counters after any run. */
  lemma SnapshotsAccounted(n: nat, events: seq<Event>)
    requires n > 0
    ensures var s := Run(n, events); var r := s.r;
            && r.success == r.generation
            && (r.published != [] && !Pending(s.writer) ==> r.reclaimed + 1 == r.generation)
            && |r.heap| <= 2
            && (forall id | id in r.heap :: id < r.nextId && r.frees[id] == 0)
            && (forall id | 0 <= id < r.nextId && id !in r.heap :: r.frees[id] == 1)
  {
    hide Run, OwnerOk, CountsOk, WorkerOk;
    RunKeeps(n, events);
    var s := Run(n, events);
    var keys := Ids(s.r.current) + Beside(s.writer, s.owner);
    assert |s.r.heap| == |s.r.heap.Keys| && s.r.heap.Keys == keys;
    AtMost(Ids(s.r.current), Beside(s.writer, s.owner));
  }

  lemma AtMost(a: set<SnapId>, b: set<SnapId>)
    requires |a| <= 1 && |b| <= 1
    ensures |a + b| <= 2
  {
    assert |a + b| == |a| + |b| - |a * b|;
  }

  /** `dp_dataplane_run` returns only with every worker stopped, so teardown is never refused. */
  lemma RunReturnsStopped(n: nat, events: seq<Event>)
    requires n > 0
    ensures var s := Run(n, events);
            && !s.owner.Refused?
            && (s.owner.Ran? || s.owner.Closing? ==>
                  WorkersStopped(s) && !s.running && forall i | 0 <= i < n :: AtRest(s.workers[i].pc))
  {
    hide Run, MemoryOk, CountsOk, WorkerOk, WorkersStopped, Placed;
    RunKeeps(n, events);
    if !Running(Run(n, events).owner) {
      NotRunningIsStopped(Run(n, events));
    }
  }

  /** After teardown nothing is left, and every snapshot ever built was freed exactly once. */
  lemma TeardownFreesAll(n: nat, events: seq<Event>)
    requires n > 0 && Run(n, events).owner.TornDown?
    ensures var r := Run(n, events).r;
            && r.current.None? && r.heap == map[] && !r.qsbr && !r.configured
            && forall id: SnapId :: r.frees[id] == if id < r.nextId then 1 else 0
  {
    hide Run, CountsOk, WorkerOk, Placed;
    RunKeeps(n, events);
    var s := Run(n, events);
    assert s.r.heap.Keys == {};
  }
}
