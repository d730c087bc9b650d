/**
 Rule publication with quiescent-state reclamation, as interleaved steps of N workers, the
 publishers and the owner thread. Every step is one access to shared memory, or private work.
 */
module Publication {
  import opened Wrappers
  import opened Actions
  import opened Rules
  import opened RewriteLaws
  import opened Parser
  import opened Router
  import opened Worker

  // ---------- The rules in memory ----------

  type SnapId = nat

  datatype Snap = Snap(generation: nat, rules: RuleSet)

  /**
   What publication reads and writes. `token` and `qsbr` are the QSBR object's global counter and
   whether it is allocated; `heap` holds the live snapshots and `frees` every free so far;
   `published` lists the rules of generations 1, 2, ... and `returned` is the last generation
   whose publication has returned: these two are history.
   */
  datatype Memory = Memory(token: nat, qsbr: bool, current: Option<SnapId>, heap: map<SnapId, Snap>, nextId: SnapId,
                           frees: multiset<SnapId>, configured: bool, generation: nat, success: nat, failed: nat,
                           reclaimed: nat, published: seq<RuleSet>, returned: nat)

  /** One burst between its snapshot load and its quiescent point. `generation` and `floor` are history. */
  datatype InFlight = InFlight(held: Option<SnapId>, generation: nat, floor: nat, burst: seq<Buffer>, outs: seq<Option<Frame>>)

  /** A completed burst. */
  datatype Burst = Burst(generation: nat, floor: nat, burst: seq<Buffer>, outs: seq<Option<Frame>>)

  // ---------- Workers ----------

  /** Where `dp_worker_run` stands. */
  datatype WorkerPc =
    | Parked                        // not launched
    | Entering                      // launched, nothing done yet
    | Entered                       // counted in active_workers
    | TokenRead(token: nat)         // registered, going online
    | Online                        // counter stored
    | Counted                       // counted in registered_readers
    | AtTop                         // about to read the stop flag
    | Polling
    | Polled(burst: seq<Buffer>)
    | Bursting(b: InFlight)
    | Quiescing(b: InFlight)                     // about to read the token
    | QuiescentRead(b: InFlight, token: nat)     // about to store it: the end of the read side
    | Leaving
    | Offline
    | Unregistered                  // no longer counted in registered_readers
    | Unflagged
    | Failing(error: int)
    | Failed(error: int)            // stop requested
    | Done(result: int)

  /** `counter` is the reader's QSBR counter, 0 when offline; `log` is history. */
  datatype Reader = Reader(pc: WorkerPc, counter: nat, launched: bool, registered: bool, log: seq<Burst>)

  /** What one step of a worker does: its own state, and its effect on the shared flags. */
  datatype Move = Move(w: Reader, stops: bool, active: int, readers: int, fault: bool)

  function Stay(w: Reader): Move {
    Move(w, false, 0, 0, false)
  }

  function Goto(w: Reader, pc: WorkerPc): Move {
    Stay(w.(pc := pc))
  }

  /** The environment's part in a worker step: what RX delivers, and the error of a failing start (0: none). */
  datatype Input = Input(burst: seq<Buffer>, error: int)

  function Delivered(burst: seq<Buffer>): seq<Buffer> {
    if |burst| <= BURST_SIZE then burst else burst[..BURST_SIZE]
  }

  ghost function Load(w: Reader, r: Memory, burst: seq<Buffer>): Move {
    if r.current.Some? && r.current.value !in r.heap then Move(w, false, 0, 0, true)
    else
      var generation := if r.current.Some? then r.heap[r.current.value].generation else 0;
      Goto(w, Bursting(InFlight(r.current, generation, r.returned, burst, [])))
  }

  /** Processes the next packet of the burst with the held snapshot, or ends the burst. */
  ghost function Process(w: Reader, b: InFlight, r: Memory): Move {
    if |b.outs| >= |b.burst| then
      Stay(w.(pc := Quiescing(b), log := if b.burst == [] then w.log else w.log + [Burst(b.generation, b.floor, b.burst, b.outs)]))
    else if b.held.None? then Goto(w, Bursting(b.(outs := b.outs + [None])))
    else if b.held.value !in r.heap then Move(w, false, 0, 0, true)
    else Goto(w, Bursting(b.(outs := b.outs + [Route(r.heap[b.held.value].rules, b.burst[|b.outs|])])))
  }

  ghost function Work(w: Reader, r: Memory, stop: bool, input: Input): Move {
    match w.pc
    case Parked => Stay(w)
    case Entering => Move(w.(pc := Entered), false, 1, 0, false)
    case Entered =>
      if !r.qsbr then Goto(w, Failing(-ENODEV))
      else if input.error != 0 then Goto(w, Failing(input.error))
      else Goto(w, TokenRead(r.token))
    case TokenRead(t) => Move(w.(pc := Online, counter := t), false, 0, 0, !r.qsbr)
    case Online => Move(w.(pc := Counted), false, 0, 1, false)
    case Counted => Stay(w.(pc := AtTop, registered := true))
    case AtTop => Goto(w, if stop then Leaving else Polling)
    case Polling => Goto(w, Polled(Delivered(input.burst)))
    case Polled(burst) => Load(w, r, burst)
    case Bursting(b) => Process(w, b, r)
    case Quiescing(b) => Move(w.(pc := QuiescentRead(b, r.token)), false, 0, 0, !r.qsbr)
    case QuiescentRead(_, t) => Move(w.(pc := AtTop, counter := t), false, 0, 0, !r.qsbr)
    case Leaving => Move(w.(pc := Offline, counter := 0), false, 0, 0, !r.qsbr)
    case Offline => Move(w.(pc := Unregistered), false, 0, -1, !r.qsbr)
    case Unregistered => Stay(w.(pc := Unflagged, registered := false))
    case Unflagged => Move(w.(pc := Done(0)), false, -1, 0, false)
    case Failing(e) => Move(w.(pc := Failed(e)), true, 0, 0, false)
    case Failed(e) => Move(w.(pc := Done(e)), false, -1, 0, false)
    case Done(_) => Stay(w)
  }

  // ---------- Publishers ----------

  /** Where the holder of the writer lock stands. */
  datatype WriterPc =
    | Idle
    | Locked(rules: RuleSet)
    | Built(made: SnapId)
    | Swapped(prior: Option<SnapId>)            // exchanged, not yet counted
    | Recorded(prior: Option<SnapId>)           // generation and success counted
    | Scanning(prior: Option<SnapId>, token: nat, next: nat)
    | Passed(prior: Option<SnapId>)
    | Releasing(result: int, published: bool)
    | OwnerHolds

  datatype Written = Written(writer: WriterPc, r: Memory, fault: bool)

  function Reclaim(r: Memory, id: Option<SnapId>, counted: bool): (Memory, bool) {
    if id.None? then (r, false)
    else if id.value !in r.heap then (r, true)
    else (r.(heap := r.heap - {id.value}, frees := r.frees + multiset{id.value},
             reclaimed := if counted then r.reclaimed + 1 else r.reclaimed), false)
  }

  /** A snapshot is built exactly from valid rules, when every allocation and table insert succeeds. */
  ghost function Build(r: Memory, rules: RuleSet, granted: bool): Written {
    if ValidRules(rules) && granted then
      Written(Built(r.nextId),
              r.(heap := r.heap[r.nextId := Snap(r.generation + 1, rules)], nextId := r.nextId + 1), false)
    else Written(Releasing(-EINVAL, false), r.(failed := r.failed + 1), false)
  }

  /** One reader of the scan: offline, or past the token. */
  predicate Passes(counter: nat, token: nat) {
    counter == 0 || counter >= token
  }

  /** Under the lock: is there anything to publish to, and does the new snapshot build? */
  ghost function Prepare(r: Memory, rules: RuleSet, granted: bool): Written {
    if !r.configured || !r.qsbr || r.current.None? then Written(Releasing(-ENODEV, false), r, false)
    else Build(r, rules, granted)
  }

  ghost function Exchange(r: Memory, made: SnapId): Written {
    if made !in r.heap then Written(Built(made), r, true)
    else Written(Swapped(r.current), r.(current := Some(made), published := r.published + [r.heap[made].rules]), false)
  }

  function Record(r: Memory, prior: Option<SnapId>): Written {
    Written(Recorded(prior), r.(generation := r.generation + 1, success := r.success + 1), false)
  }

  /** `rte_rcu_qsbr_start`. */
  function StartGrace(r: Memory, prior: Option<SnapId>): Written {
    Written(Scanning(prior, r.token + 1, 0), r.(token := r.token + 1), !r.qsbr)
  }

  /** `rte_rcu_qsbr_check`, one reader a step. */
  function Scan(r: Memory, workers: seq<Reader>, prior: Option<SnapId>, token: nat, next: nat): Written {
    if next >= |workers| then Written(Passed(prior), r, false)
    else if Passes(workers[next].counter, token) then Written(Scanning(prior, token, next + 1), r, !r.qsbr)
    else Written(Scanning(prior, token, next), r, !r.qsbr)
  }

  ghost function Finish(r: Memory, prior: Option<SnapId>): Written {
    var (freed, fault) := Reclaim(r, prior, true);
    Written(Releasing(0, true), freed, fault)
  }

  /** `rules` is what a new publisher brings; `granted` whether the environment lets its build succeed. */
  ghost function Publish(writer: WriterPc, r: Memory, workers: seq<Reader>, open: bool, rules: RuleSet, granted: bool): Written {
    match writer
    case Idle => Written(if open then Locked(rules) else Idle, r, false)
    case Locked(mine) => Prepare(r, mine, granted)
    case Built(made) => Exchange(r, made)
    case Swapped(prior) => Record(r, prior)
    case Recorded(prior) => StartGrace(r, prior)
    case Scanning(prior, t, next) => Scan(r, workers, prior, t, next)
    case Passed(prior) => Finish(r, prior)
    case Releasing(_, published) => Written(Idle, if published then r.(returned := r.generation) else r, false)
    case OwnerHolds => Written(writer, r, false)
  }

  // ---------- The owner thread ----------

  /** Where the owner stands: configure, `dp_dataplane_run`, teardown. */
  datatype OwnerPc =
    | Start
    | Ready
    | Launching(i: nat)
    | Marking(i: nat)
    | RunFirst                                  // worker 0 is about to run on this thread
    | RunningFirst
    | Joining(i: nat, until: nat, error: int)  // waiting for workers i..until-1
    | Ran(error: int)
    | Closing
    | Refused                                   // teardown found workers alive
    | TearLocked
    | TearSwapped(prior: Option<SnapId>)
    | TearFreed
    | TearUnlocking
    | TornDown

  datatype State = State(r: Memory, workers: seq<Reader>, writer: WriterPc, owner: OwnerPc,
                         stop: bool, active: int, readers: int, running: bool, fault: bool)

  predicate WorkersStopped(s: State) {
    s.active == 0 && s.readers == 0 && forall i | 0 <= i < |s.workers| :: !s.workers[i].launched && !s.workers[i].registered
  }

  /** `dp_configure_rules`; nothing else runs before it returns. */
  ghost function Configure(r: Memory, rules: RuleSet, qsbr: bool, granted: bool): Memory {
    if !qsbr then r
    else if !(ValidRules(rules) && granted) then r.(qsbr := true, failed := r.failed + 1)
    else
      r.(qsbr := true, current := Some(r.nextId), heap := r.heap[r.nextId := Snap(1, rules)], nextId := r.nextId + 1,
         configured := true, generation := 1, success := 1, published := [rules], returned := 1)
  }

  function Launch(s: State, i: nat): State
    requires i < |s.workers|
  {
    s.(workers := s.workers[i := s.workers[i].(pc := if s.workers[i].pc.Parked? then Entering else s.workers[i].pc)])
  }

  function Mark(s: State, i: nat, launched: bool): State
    requires i < |s.workers|
  {
    s.(workers := s.workers[i := s.workers[i].(launched := launched)])
  }

  function Over(w: Reader): bool {
    w.pc.Done?
  }

  function FirstError(error: int, result: int): int {
    if error != 0 then error else result
  }

  /** `ok` and `error` are the environment's answers to setup and launch. */
  datatype OwnerInput = OwnerInput(rules: RuleSet, qsbr: bool, granted: bool, ok: bool, error: int)

  /** `dp_dataplane_setup` and `dp_dataplane_run`, up to the return of the latter. */
  function RunStep(s: State, ok: bool, error: int): State
    requires s.workers != []
  {
    var n := |s.workers|;
    match s.owner
    case Ready => if ok then s.(running := true, owner := Launching(1)) else s.(owner := Closing)
    case Launching(i) =>
      if i >= n then Mark(s, 0, true).(owner := RunFirst)
      else if ok then Launch(s, i).(owner := Marking(i))
      else s.(stop := true, owner := Joining(1, i, if error < 0 then error else -EIO))
    case Marking(i) => if i >= n then s else Mark(s, i, true).(owner := Launching(i + 1))
    case RunFirst => Launch(s, 0).(owner := RunningFirst)
    case RunningFirst =>
      if Over(s.workers[0]) then
        Mark(s, 0, false).(owner := Joining(1, n, if s.workers[0].pc.result < 0 then s.workers[0].pc.result else 0))
      else s
    case Joining(i, until, error) =>
      if i >= until || i >= n then s.(running := false, owner := Ran(error))
      else if Over(s.workers[i]) then
        var result := s.workers[i].pc.result;
        Mark(s, i, false).(owner := Joining(i + 1, until, if result < 0 then FirstError(error, result) else error))
      else s
    case Ran(_) => s.(owner := Closing)
    case _ => s
  }

  /** `dp_dataplane_teardown` as far as rules are concerned: no grace period, but no worker either. */
  function TearStep(s: State): State {
    match s.owner
    case Closing =>
      if s.running || !WorkersStopped(s) then s.(owner := Refused)
      else if s.writer.Idle? then s.(writer := OwnerHolds, owner := TearLocked)
      else s
    case TearLocked => s.(r := s.r.(current := None), owner := TearSwapped(s.r.current))
    case TearSwapped(prior) =>
      var (freed, fault) := Reclaim(s.r, prior, false);
      s.(r := freed, owner := TearFreed, fault := s.fault || fault)
    case TearFreed => s.(r := s.r.(qsbr := false, configured := false), owner := TearUnlocking)
    case TearUnlocking => s.(writer := Idle, owner := TornDown)
    case _ => s
  }

  ghost function Own(s: State, input: OwnerInput): State
    requires s.workers != []
  {
    if s.owner.Start? then
      var r := Configure(s.r, input.rules, input.qsbr, input.granted);
      s.(r := r, owner := if r.configured then Ready else Closing)
    else if s.owner.Ready? || s.owner.Launching? || s.owner.Marking? || s.owner.RunFirst? || s.owner.RunningFirst? ||
            s.owner.Joining? || s.owner.Ran? then RunStep(s, input.ok, input.error)
    else TearStep(s)
  }

  // ---------- Runs ----------

  datatype Event =
    | ByWorker(i: nat, input: Input)
    | ByWriter(rules: RuleSet, granted: bool)
    | ByOwner(answer: OwnerInput)
    | ByStop                                   // dp_dataplane_request_stop, at any time

  ghost function Next(s: State, e: Event): State
    requires s.workers != []
    ensures |Next(s, e).workers| == |s.workers|
  {
    match e
    case ByWorker(i, input) =>
      if i >= |s.workers| then s
      else
        var m := Work(s.workers[i], s.r, s.stop, input);
        s.(workers := s.workers[i := m.w], stop := s.stop || m.stops, active := s.active + m.active,
           readers := s.readers + m.readers, fault := s.fault || m.fault)
    case ByWriter(rules, granted) =>
      var w := Publish(s.writer, s.r, s.workers, !s.owner.Start?, rules, granted);
      s.(writer := w.writer, r := w.r, fault := s.fault || w.fault)
    case ByOwner(answer) => Own(s, answer)
    case ByStop => s.(stop := true)
  }

  /** Before configure, with `n` workers. */
  function Initial(n: nat): State
    requires n > 0
  {
    State(Memory(1, false, None, map[], 0, multiset{}, false, 0, 0, 0, 0, [], 0),
          seq(n, _ => Reader(Parked, 0, false, false, [])), Idle, Start, false, 0, 0, false, false)
  }

  ghost function Run(n: nat, events: seq<Event>): (s: State)
    requires n > 0
    ensures |s.workers| == n
  {
    if events == [] then Initial(n) else Next(Run(n, events[..|events| - 1]), events[|events| - 1])
  }
}
