/** On every fair schedule a publication completes, and a stopped run returns. */
module PublicationProgress {
  import opened Wrappers
  import opened Rules
  import opened Router
  import opened Worker
  import opened Publication
  import opened PublicationSafety

  type Schedule = nat -> Event

  datatype Actor = AWorker(i: nat) | AWriter | AnOwner

  predicate By(e: Event, a: Actor) {
    match a
    case AWorker(i) => e.ByWorker? && e.i == i
    case AWriter => e.ByWriter?
    case AnOwner => e.ByOwner?
  }

  ghost predicate SoonFrom(sched: Schedule, a: Actor, k: nat) {
    exists m: nat :: k <= m && By(sched(m), a)
  }

  /** The actor is in the middle of something: a publisher only while it holds the lock. */
  predicate HasWork(s: State, a: Actor) {
    match a
    case AWorker(i) => i < |s.workers| && !AtRest(s.workers[i].pc)
    case AWriter => Publishing(s.writer)
    case AnOwner => Running(s.owner) || s.owner.Ran? || s.owner.Closing? || Tearing(s.owner)
  }

  /** A publisher holds the writer lock. */
  predicate Publishing(writer: WriterPc) {
    !writer.Idle? && !writer.OwnerHolds?
  }

  /** The state after the first `k` events of the schedule, from `s`. */
  ghost function At(s: State, sched: Schedule, k: nat): (t: State)
    requires s.workers != []
    ensures |t.workers| == |s.workers|
  {
    if k == 0 then s else Next(At(s, sched, k - 1), sched(k - 1))
  }

  /** From `k` on, whenever the actor has work to do it is scheduled now or later. */
  ghost predicate FairTo(s: State, sched: Schedule, a: Actor, k: nat)
    requires s.workers != []
  {
    forall j: nat | k <= j && HasWork(At(s, sched, j), a) :: SoonFrom(sched, a, j)
  }

  ghost predicate FairToWorkers(s: State, sched: Schedule, k: nat)
    requires s.workers != []
  {
    forall i | 0 <= i < |s.workers| :: FairTo(s, sched, AWorker(i), k)
  }

  lemma AtNext(s: State, sched: Schedule, k: nat)
    requires s.workers != []
    ensures At(s, sched, k + 1) == Next(At(s, sched, k), sched(k))
  {
  }

  lemma {:induction false} AtKeeps(s: State, sched: Schedule, k: nat)
    requires Inv(s)
    ensures Inv(At(s, sched, k))
  {
    hide Next, MemoryOk, OwnerOk, CountsOk, WorkerOk;
    if k == 0 {
    } else {
      AtKeeps(s, sched, k - 1);
      StepKeeps(At(s, sched, k - 1), sched(k - 1));
    }
  }

  // ---------- Fair progress in general ----------

  /** At time `k` the distance does not grow, the helper's step shrinks it, and the helper stays until it shrinks. */
  ghost predicate Descends(distance: nat -> nat, helper: nat -> Actor, sched: Schedule, k: nat) {
    distance(k) > 0 ==>
      && distance(k + 1) <= distance(k)
      && (By(sched(k), helper(k)) ==> distance(k + 1) < distance(k))
      && (distance(k + 1) == distance(k) ==> helper(k + 1) == helper(k))
  }

  ghost predicate AlwaysDescends(distance: nat -> nat, helper: nat -> Actor, sched: Schedule) {
    forall k: nat :: Descends(distance, helper, sched, k)
  }

  ghost predicate HelpersFair(distance: nat -> nat, helper: nat -> Actor, sched: Schedule) {
    forall k: nat :: distance(k) > 0 ==> SoonFrom(sched, helper(k), k)
  }

  /** Before the helper's next turn at `m` the distance shrinks, or it shrinks in that turn. */
  lemma {:induction false} Shrinks(distance: nat -> nat, helper: nat -> Actor, sched: Schedule, k: nat, m: nat) returns (j: nat)
    requires AlwaysDescends(distance, helper, sched) && distance(k) > 0 && k <= m && By(sched(m), helper(k))
    ensures k < j && distance(j) < distance(k) && distance(j - 1) == distance(k)
    decreases m - k
  {
    assert Descends(distance, helper, sched, k);
    if distance(k + 1) < distance(k) {
      j := k + 1;
    } else {
      j := Shrinks(distance, helper, sched, k + 1, m);
    }
  }

  /** Under fair helpers the distance reaches zero. */
  lemma {:induction false} Arrives(distance: nat -> nat, helper: nat -> Actor, sched: Schedule, k: nat) returns (m: nat)
    requires AlwaysDescends(distance, helper, sched) && HelpersFair(distance, helper, sched) && distance(k) > 0
    ensures k < m && distance(m) == 0 && distance(m - 1) > 0
    decreases distance(k)
  {
    assert SoonFrom(sched, helper(k), k);
    var turn: nat :| k <= turn && By(sched(turn), helper(k));
    var j := Shrinks(distance, helper, sched, k, turn);
    if distance(j) == 0 {
      m := j;
    } else {
      m := Arrives(distance, helper, sched, j);
    }
  }

  // ---------- The grace period ----------

  /** How many of its own steps a reader is from being passed by a scan for token `t`. */
  function Lag(w: Reader, t: nat): nat {
    if w.pc.TokenRead? then (if w.pc.token >= t then 0 else BURST_SIZE + 10)
    else if Passes(w.counter, t) then 0
    else
      match w.pc
      case Leaving => 1
      case QuiescentRead(_, r) => if r >= t then 1 else BURST_SIZE + 8
      case Quiescing(_) => 2
      case Bursting(b) => 3 + if |b.outs| <= |b.burst| then |b.burst| - |b.outs| else 0
      case Polled(burst) => 4 + |burst|
      case Polling => BURST_SIZE + 5
      case AtTop => BURST_SIZE + 6
      case Counted => BURST_SIZE + 7
      case _ => BURST_SIZE + 8
  }

  /** What is left of the scan from reader `i` on. */
  function LagFrom(ws: seq<Reader>, i: nat, t: nat): nat
    decreases |ws| - i
  {
    if i >= |ws| then 0 else 1 + Lag(ws[i], t) + LagFrom(ws, i + 1, t)
  }

  /** Steps to the end of a publication that scans or has scanned. */
  function GraceLeft(s: State): nat {
    match s.writer
    case Scanning(_, t, next) => 3 + LagFrom(s.workers, next, t)
    case Passed(_) => 2
    case Releasing(_, _) => 1
    case _ => 0
  }

  /** Whose step the scan is waiting for. */
  function GraceHelper(s: State): Actor {
    if s.writer.Scanning? && s.writer.next < |s.workers| && !Passes(s.workers[s.writer.next].counter, s.writer.token)
    then AWorker(s.writer.next) else AWriter
  }

  /** Not farther from the token, nearer while the counter lags, and as passing as before if as far. */
  predicate LagLess(w: Reader, v: Reader, t: nat) {
    && Lag(v, t) <= Lag(w, t)
    && (!Passes(w.counter, t) ==> Lag(v, t) < Lag(w, t))
    && (Lag(v, t) == Lag(w, t) ==> Passes(v.counter, t) == Passes(w.counter, t))
  }

  lemma LoopLagFalls(w: Reader, i: nat, r: Memory, writer: WriterPc, stop: bool, input: Input, t: nat)
    requires WorkerOk(w, i, r, writer) && t <= r.token && Served(r) && InLoop(w.pc)
    ensures LagLess(w, Work(w, r, stop, input).w, t)
  {
    hide Route, Routes, LogOk, NotAfter, Load, Process;
    if w.pc.Polled? {
      LoadLag(w, r, w.pc.burst);
    } else if w.pc.Bursting? {
      ProcessLag(w, w.pc.b, r);
    }
  }

  lemma EdgeLagFalls(w: Reader, i: nat, r: Memory, writer: WriterPc, stop: bool, input: Input, t: nat)
    requires WorkerOk(w, i, r, writer) && t <= r.token && !InLoop(w.pc)
    ensures LagLess(w, Work(w, r, stop, input).w, t)
  {
    hide LogOk, Load, Process;
  }

  /** A worker's own step brings it nearer to the token, and never takes back a passing counter. */
  lemma LagFalls(w: Reader, i: nat, r: Memory, writer: WriterPc, stop: bool, input: Input, t: nat)
    requires WorkerOk(w, i, r, writer) && t <= r.token && (!AtRest(w.pc) ==> Served(r))
    ensures LagLess(w, Work(w, r, stop, input).w, t)
  {
    hide WorkerOk, Work, LagLess;
    if InLoop(w.pc) {
      LoopLagFalls(w, i, r, writer, stop, input, t);
    } else {
      EdgeLagFalls(w, i, r, writer, stop, input, t);
    }
  }

  lemma LoadLag(w: Reader, r: Memory, burst: seq<Buffer>)
    requires Served(r)
    ensures var v := Load(w, r, burst).w;
            v.counter == w.counter && v.pc.Bursting? && v.pc.b.burst == burst && v.pc.b.outs == []
  {
  }

  lemma ProcessLag(w: Reader, b: InFlight, r: Memory)
    requires b.held.Some? && b.held.value in r.heap
    ensures var v := Process(w, b, r).w;
            && v.counter == w.counter
            && (if |b.outs| >= |b.burst| then v.pc.Quiescing?
                else v.pc.Bursting? && v.pc.b.burst == b.burst && |v.pc.b.outs| == |b.outs| + 1)
  {
    hide Route;
  }

  lemma {:induction false} LagFromFalls(ws: seq<Reader>, i: nat, t: nat, j: nat, v: Reader)
    requires j < |ws| && Lag(v, t) <= Lag(ws[j], t)
    ensures LagFrom(ws[j := v], i, t) ==
            LagFrom(ws, i, t) - if i <= j then Lag(ws[j], t) - Lag(v, t) else 0
    decreases |ws| - i
  {
    if i >= |ws| {
    } else {
      LagFromFalls(ws, i + 1, t, j, v);
    }
  }

  /** `t` is no farther from the end than `s`, nearer if the helper moved, and waits for the same helper if as far. */
  ghost predicate Nearer(s: State, t: State, moved: bool) {
    && GraceLeft(t) <= GraceLeft(s)
    && (moved ==> GraceLeft(t) < GraceLeft(s))
    && (GraceLeft(t) == GraceLeft(s) ==> GraceHelper(t) == GraceHelper(s))
  }

  lemma GraceByWorker(s: State, i: nat, input: Input)
    requires Inv(s) && GraceLeft(s) > 0 && i < |s.workers|
    ensures Nearer(s, Next(s, ByWorker(i, input)), GraceHelper(s) == AWorker(i))
  {
    hide Work, Served, HeapOk, FreedOnce, Accounts, OwnerOk, CountsOk, Lag;
    if s.writer.Scanning? {
      var t, v := s.writer.token, Next(s, ByWorker(i, input)).workers[i];
      if !AtRest(s.workers[i].pc) {
        AtWork(s, i);
      }
      LagFalls(s.workers[i], i, s.r, s.writer, s.stop, input, t);
      LagFromFalls(s.workers, s.writer.next, t, i, v);
    }
  }

  lemma GraceByWriter(s: State, rules: RuleSet, granted: bool)
    requires GraceLeft(s) > 0 && s.workers != []
    ensures Nearer(s, Next(s, ByWriter(rules, granted)), GraceHelper(s) == AWriter)
  {
  }

  lemma GraceByOwner(s: State, input: OwnerInput)
    requires Inv(s) && GraceLeft(s) > 0
    ensures Nearer(s, Next(s, ByOwner(input)), false)
  {
    hide MemoryOk, CountsOk, Placed, Configure, RunStep;
    if Running(s.owner) || s.owner.Ready? || s.owner.Ran? {
      GraceByRun(s, input.ok, input.error);
    }
  }

  /** What the owner does to a worker while it launches and joins. */
  predicate Touched(w: Reader, v: Reader) {
    v == w.(launched := v.launched) || (w.pc.Parked? && v == w.(pc := Entering))
  }

  /** A state that differs from `s` in the owner and its flags, and in touched workers. */
  ghost predicate BesideOwner(s: State, t: State) {
    && t.writer == s.writer && t.r == s.r && |t.workers| == |s.workers|
    && forall i | 0 <= i < |s.workers| :: Touched(s.workers[i], t.workers[i])
  }

  lemma LaunchTouches(s: State, i: nat, owner: OwnerPc)
    requires i < |s.workers|
    ensures BesideOwner(s, Launch(s, i).(owner := owner))
  {
  }

  lemma MarkTouches(s: State, i: nat, launched: bool, owner: OwnerPc)
    requires i < |s.workers|
    ensures BesideOwner(s, Mark(s, i, launched).(owner := owner))
  {
  }

  lemma MoveTouches(s: State, t: State)
    requires t == s.(owner := t.owner, running := t.running, stop := t.stop)
    ensures BesideOwner(s, t)
  {
  }

  lemma RunTouches(s: State, ok: bool, error: int)
    requires s.workers != []
    ensures BesideOwner(s, RunStep(s, ok, error))
  {
    hide BesideOwner, Launch, Mark;
    var t := RunStep(s, ok, error);
    match s.owner
    case Launching(i) =>
      if i >= |s.workers| {
        MarkTouches(s, 0, true, t.owner);
      } else if ok {
        LaunchTouches(s, i, t.owner);
      } else {
        MoveTouches(s, t);
      }
    case Marking(i) =>
      if i < |s.workers| {
        MarkTouches(s, i, true, t.owner);
      } else {
        MoveTouches(s, t);
      }
    case RunFirst => LaunchTouches(s, 0, t.owner);
    case RunningFirst =>
      if Over(s.workers[0]) {
        MarkTouches(s, 0, false, t.owner);
      } else {
        MoveTouches(s, t);
      }
    case Joining(i, until, _) =>
      if i < until && i < |s.workers| && Over(s.workers[i]) {
        MarkTouches(s, i, false, t.owner);
      } else {
        MoveTouches(s, t);
      }
    case _ => MoveTouches(s, t);
  }

  lemma TouchedLag(w: Reader, v: Reader, i: nat, r: Memory, writer: WriterPc, t: nat)
    requires Touched(w, v) && WorkerOk(w, i, r, writer)
    ensures SameLag(w, v, t)
  {
    hide HoldsLive, LogOk, InFlightOk, NotAfter;
  }

  lemma GraceByRun(s: State, ok: bool, error: int)
    requires Inv(s) && GraceLeft(s) > 0
    ensures Nearer(s, RunStep(s, ok, error), false)
  {
    hide MemoryOk, CountsOk, OwnerOk, RunStep, Touched, WorkerOk, Lag;
    var t := RunStep(s, ok, error);
    RunTouches(s, ok, error);
    if s.writer.Scanning? {
      forall i | 0 <= i < |s.workers|
        ensures SameLag(s.workers[i], t.workers[i], s.writer.token)
      {
        TouchedLag(s.workers[i], t.workers[i], i, s.r, s.writer, s.writer.token);
      }
      LagFromSame(s.workers, t.workers, s.writer.next, s.writer.token);
    }
  }

  predicate SameLag(w: Reader, v: Reader, t: nat) {
    Lag(v, t) == Lag(w, t) && v.counter == w.counter
  }

  lemma {:induction false} LagFromSame(ws: seq<Reader>, vs: seq<Reader>, i: nat, t: nat)
    requires |ws| == |vs| && forall j | 0 <= j < |ws| :: SameLag(ws[j], vs[j], t)
    ensures LagFrom(vs, i, t) == LagFrom(ws, i, t)
    decreases |ws| - i
  {
    if i >= |ws| {
    } else {
      LagFromSame(ws, vs, i + 1, t);
      assert SameLag(ws[i], vs[i], t);
    }
  }

  lemma GraceStep(s: State, e: Event)
    requires Inv(s) && GraceLeft(s) > 0
    ensures Nearer(s, Next(s, e), By(e, GraceHelper(s)))
  {
    hide MemoryOk, CountsOk, OwnerOk, WorkerOk, GraceLeft, LagFrom;
    match e
    case ByWorker(i, input) =>
      if i < |s.workers| {
        GraceByWorker(s, i, input);
      }
    case ByWriter(rules, granted) => GraceByWriter(s, rules, granted);
    case ByOwner(input) => GraceByOwner(s, input);
    case ByStop =>
      assert GraceLeft(s.(stop := true)) == GraceLeft(s) by { StopSame(s); }
  }

  lemma StopSame(s: State)
    ensures GraceLeft(s.(stop := true)) == GraceLeft(s)
  {
  }

  // ---------- Every publication completes ----------

  predicate Graceful(writer: WriterPc) {
    writer.Scanning? || writer.Passed? || writer.Releasing?
  }

  /** Steps until the grace period starts or the publication gives up. */
  function PrepareLeft(s: State): nat {
    match s.writer
    case Locked(_) => 4
    case Built(_) => 3
    case Swapped(_) => 2
    case Recorded(_) => 1
    case _ => 0
  }

  lemma PrepareStep(s: State, e: Event)
    requires Inv(s) && PrepareLeft(s) > 0
    ensures var t := Next(s, e);
            && PrepareLeft(t) <= PrepareLeft(s) && (e.ByWriter? ==> PrepareLeft(t) < PrepareLeft(s))
            && (PrepareLeft(t) == 0 ==> Graceful(t.writer))
  {
    hide WorkerOk, CountsOk, Placed, FreedOnce, Accounts, Work, Configure;
    if e.ByOwner? {
      RunTouches(s, e.answer.ok, e.answer.error);
    }
    hide RunStep;
  }

  lemma GraceEnds(s: State, e: Event)
    requires Inv(s) && GraceLeft(s) > 0 && GraceLeft(Next(s, e)) == 0
    ensures Next(s, e).writer.Idle?
  {
    hide WorkerOk, CountsOk, Placed, MemoryOk, Work, Configure;
    if e.ByOwner? {
      RunTouches(s, e.answer.ok, e.answer.error);
    }
    hide RunStep;
  }

  /**
   From any reachable state, on any schedule that lets the publisher holding the lock and the workers
   at work take their steps, the publisher releases the lock, and then the last published generation
   has returned. Nothing is asked of the schedule once the lock is free.
   */
  lemma PublicationCompletes(s: State, sched: Schedule, k: nat) returns (m: nat)
    requires Inv(s) && Publishing(At(s, sched, k).writer)
    requires FairTo(s, sched, AWriter, k) && FairToWorkers(s, sched, k)
    ensures k < m && At(s, sched, m).writer.Idle?
    ensures At(s, sched, m).r.returned == |At(s, sched, m).r.published|
  {
    hide At, MemoryOk, OwnerOk, CountsOk, WorkerOk, Next, GraceLeft, PrepareLeft;
    m := k;
    if !Graceful(At(s, sched, k).writer) {
      m := PreparationEnds(s, sched, k);
    }
    m := GracePeriodEnds(s, sched, k, m);
    AtKeeps(s, sched, m);
    IdleHasReturned(At(s, sched, m));
  }

  lemma IdleHasReturned(s: State)
    requires Inv(s) && s.writer.Idle?
    ensures s.r.returned == |s.r.published|
  {
    hide WorkerOk, CountsOk, OwnerOk, HeapOk, FreedOnce;
  }

  lemma PreparationEnds(s: State, sched: Schedule, k: nat) returns (m: nat)
    requires Inv(s) && Publishing(At(s, sched, k).writer) && !Graceful(At(s, sched, k).writer)
    requires FairTo(s, sched, AWriter, k)
    ensures k < m && Graceful(At(s, sched, m).writer)
  {
    hide At, MemoryOk, OwnerOk, CountsOk, WorkerOk, Next, PrepareLeft, AlwaysDescends, HelpersFair;
    PrepareDescends(s, sched, k);
    PrepareHelpersFair(s, sched, k);
    NotYet(At(s, sched, k));
    m := Arrives(PrepareDistance(s, sched, k), Always(AWriter), sched, k);
    AtKeeps(s, sched, m - 1);
    AtNext(s, sched, m - 1);
    PrepareStep(At(s, sched, m - 1), sched(m - 1));
  }

  function Always(a: Actor): nat -> Actor {
    (j: nat) => a
  }

  ghost function PrepareDistance(s: State, sched: Schedule, k: nat): nat -> nat
    requires s.workers != []
  {
    (j: nat) => if j < k then 0 else PrepareLeft(At(s, sched, j))
  }

  lemma PrepareDescends(s: State, sched: Schedule, k: nat)
    requires Inv(s)
    ensures AlwaysDescends(PrepareDistance(s, sched, k), Always(AWriter), sched)
  {
    hide At, Next, MemoryOk, OwnerOk, CountsOk, WorkerOk, PrepareLeft;
    forall j: nat
      ensures Descends(PrepareDistance(s, sched, k), Always(AWriter), sched, j)
    {
      AtKeeps(s, sched, j);
      AtNext(s, sched, j);
      if PrepareDistance(s, sched, k)(j) > 0 {
        PrepareStep(At(s, sched, j), sched(j));
      }
    }
  }

  lemma PrepareHelpersFair(s: State, sched: Schedule, k: nat)
    requires s.workers != [] && FairTo(s, sched, AWriter, k)
    ensures HelpersFair(PrepareDistance(s, sched, k), Always(AWriter), sched)
  {
    hide At, SoonFrom;
    forall j: nat | PrepareDistance(s, sched, k)(j) > 0
      ensures SoonFrom(sched, Always(AWriter)(j), j)
    {
      assert HasWork(At(s, sched, j), AWriter);
    }
  }

  lemma NotYet(s: State)
    ensures Publishing(s.writer) && !Graceful(s.writer) ==> PrepareLeft(s) > 0
    ensures Graceful(s.writer) ==> GraceLeft(s) > 0
  {
  }

  /** The distance to the end of the grace period over time; before `k` there is nothing to wait for. */
  ghost function GraceDistance(s: State, sched: Schedule, k: nat): nat -> nat
    requires s.workers != []
  {
    (j: nat) => if j < k then 0 else GraceLeft(At(s, sched, j))
  }

  ghost function GraceHelpers(s: State, sched: Schedule): nat -> Actor
    requires s.workers != []
  {
    (j: nat) => GraceHelper(At(s, sched, j))
  }

  lemma GraceDescends(s: State, sched: Schedule, k: nat)
    requires Inv(s)
    ensures AlwaysDescends(GraceDistance(s, sched, k), GraceHelpers(s, sched), sched)
  {
    hide At, Next, MemoryOk, OwnerOk, CountsOk, WorkerOk, GraceHelper, GraceLeft, LagFrom;
    forall j: nat
      ensures Descends(GraceDistance(s, sched, k), GraceHelpers(s, sched), sched, j)
    {
      AtKeeps(s, sched, j);
      AtNext(s, sched, j);
      if GraceDistance(s, sched, k)(j) > 0 {
        GraceStep(At(s, sched, j), sched(j));
      }
    }
  }

  lemma GraceHelpersFair(s: State, sched: Schedule, from: nat, k: nat)
    requires Inv(s) && from <= k && FairTo(s, sched, AWriter, from) && FairToWorkers(s, sched, from)
    ensures HelpersFair(GraceDistance(s, sched, k), GraceHelpers(s, sched), sched)
  {
    hide At, MemoryOk, OwnerOk, CountsOk, WorkerOk, GraceHelper, GraceLeft, FairTo, FairToWorkers, SoonFrom;
    forall j: nat | GraceDistance(s, sched, k)(j) > 0
      ensures SoonFrom(sched, GraceHelpers(s, sched)(j), j)
    {
      HelperFair(s, sched, from, j);
    }
  }

  lemma GracePeriodEnds(s: State, sched: Schedule, from: nat, k: nat) returns (m: nat)
    requires Inv(s) && from <= k && Graceful(At(s, sched, k).writer)
    requires FairTo(s, sched, AWriter, from) && FairToWorkers(s, sched, from)
    ensures k < m && At(s, sched, m).writer.Idle?
  {
    hide At, Next, MemoryOk, OwnerOk, CountsOk, WorkerOk, GraceLeft, FairTo, FairToWorkers, AlwaysDescends, HelpersFair;
    GraceDescends(s, sched, k);
    GraceHelpersFair(s, sched, from, k);
    NotYet(At(s, sched, k));
    m := Arrives(GraceDistance(s, sched, k), GraceHelpers(s, sched), sched, k);
    AtKeeps(s, sched, m - 1);
    AtNext(s, sched, m - 1);
    GraceEnds(At(s, sched, m - 1), sched(m - 1));
  }

  lemma HelperFair(s: State, sched: Schedule, from: nat, j: nat)
    requires Inv(s) && from <= j && FairTo(s, sched, AWriter, from) && FairToWorkers(s, sched, from)
    requires GraceLeft(At(s, sched, j)) > 0
    ensures SoonFrom(sched, GraceHelper(At(s, sched, j)), j)
  {
    hide At, MemoryOk, OwnerOk, CountsOk, WorkerOk, GraceHelper, GraceLeft, HasWork, SoonFrom;
    AtKeeps(s, sched, j);
    GraceHelperWorks(At(s, sched, j));
  }

  /** The scan waits only for a worker at work, or for the publisher itself. */
  lemma GraceHelperWorks(s: State)
    requires Inv(s) && GraceLeft(s) > 0
    ensures HasWork(s, GraceHelper(s))
    ensures GraceHelper(s) == AWriter || (GraceHelper(s).AWorker? && GraceHelper(s).i < |s.workers|)
  {
    hide MemoryOk, OwnerOk, CountsOk, LogOk, HoldsLive, InFlightOk, NotAfter;
    if GraceHelper(s).AWorker? {
      var i := GraceHelper(s).i;
      assert WorkerOk(s.workers[i], i, s.r, s.writer);
    }
  }

  /** `dp_dataplane_run` is over, or was never entered. */
  predicate AfterRun(owner: OwnerPc) {
    !owner.Start? && !owner.Ready? && !Running(owner)
  }

  lemma AfterRunStays(s: State, e: Event)
    requires s.workers != [] && AfterRun(s.owner)
    ensures AfterRun(Next(s, e).owner)
  {
    hide Work, Publish, Reclaim, WorkersStopped;
  }

  lemma {:induction false} AfterRunForever(s: State, sched: Schedule, k: nat, m: nat)
    requires s.workers != [] && AfterRun(At(s, sched, k).owner) && k <= m
    ensures AfterRun(At(s, sched, m).owner)
    decreases m - k
  {
    hide Next, AfterRun;
    if k == m {
    } else {
      AfterRunForever(s, sched, k, m - 1);
      AfterRunStays(At(s, sched, m - 1), sched(m - 1));
    }
  }

  /** After the run, the publisher in flight needs no worker to finish: teardown's lock is always given back. */
  lemma PublicationCompletesAlone(s: State, sched: Schedule, k: nat) returns (m: nat)
    requires Inv(s) && AfterRun(At(s, sched, k).owner) && Publishing(At(s, sched, k).writer)
    requires FairTo(s, sched, AWriter, k)
    ensures k < m && At(s, sched, m).writer.Idle?
  {
    hide At, MemoryOk, OwnerOk, CountsOk, WorkerOk, WorkersStopped, SoonFrom;
    forall i, j: nat | 0 <= i < |s.workers| && k <= j
      ensures AtRest(At(s, sched, j).workers[i].pc)
    {
      AfterRunForever(s, sched, k, j);
      AtKeeps(s, sched, j);
      NotRunningIsStopped(At(s, sched, j));
    }
    m := PublicationCompletes(s, sched, k);
  }

  // ---------- Every stopped run returns ----------

  /** How many of its own steps a worker is from having returned, once stop is requested. */
  function ExitLag(pc: WorkerPc): nat {
    match pc
    case Done(_) => 0
    case Unflagged => 1
    case Failed(_) => 1
    case Unregistered => 2
    case Failing(_) => 2
    case Offline => 3
    case Leaving => 4
    case AtTop => 5
    case QuiescentRead(_, _) => 6
    case Quiescing(_) => 7
    case Bursting(b) => 8 + if |b.outs| <= |b.burst| then |b.burst| - |b.outs| else 0
    case Polled(burst) => 9 + |burst|
    case Polling => 10 + BURST_SIZE
    case Counted => 6
    case Online => 7
    case TokenRead(_) => 8
    case Entered => 9
    case Entering => 10
    case Parked => 11
  }

  /** Launches, joins and returns the owner still has before it, with `n` workers. */
  function OwnerLag(owner: OwnerPc, n: nat): nat {
    match owner
    case Launching(i) => n + 3 + 2 * (if i <= n then n - i else 0)
    case Marking(i) => n + 2 + 2 * (if i <= n then n - i else 0)
    case RunFirst => n + 2
    case RunningFirst => n + 1
    case Joining(i, until, _) => 1 + if i <= until then until - i else 0
    case _ => 0
  }

  function RunLeft(s: State): nat {
    if Running(s.owner) then OwnerLag(s.owner, |s.workers|) + Sum(s.workers, ExitLag) else 0
  }

  /** Whose step the owner is waiting for. */
  function RunHelper(s: State): Actor {
    if s.owner.RunningFirst? && s.workers != [] && !Over(s.workers[0]) then AWorker(0)
    else if s.owner.Joining? && s.owner.i < s.owner.until && s.owner.i < |s.workers| && !Over(s.workers[s.owner.i])
    then AWorker(s.owner.i)
    else AnOwner
  }

  lemma ExitFalls(w: Reader, i: nat, r: Memory, writer: WriterPc, input: Input)
    requires WorkerOk(w, i, r, writer) && (!AtRest(w.pc) ==> Served(r))
    ensures var v := Work(w, r, true, input).w;
            if AtRest(w.pc) then v == w else ExitLag(v.pc) < ExitLag(w.pc)
  {
    hide Route, Routes, LogOk, NotAfter, Load, Process;
    if w.pc.Polled? {
      LoadLag(w, r, w.pc.burst);
    } else if w.pc.Bursting? {
      ProcessLag(w, w.pc.b, r);
    }
  }

  ghost predicate NearerReturn(s: State, t: State, moved: bool) {
    && RunLeft(t) <= RunLeft(s)
    && (moved ==> RunLeft(t) < RunLeft(s))
    && (RunLeft(t) == RunLeft(s) ==> RunHelper(t) == RunHelper(s))
  }

  lemma ReturnByWorker(s: State, i: nat, input: Input)
    requires Inv(s) && s.stop && Running(s.owner) && i < |s.workers|
    ensures NearerReturn(s, Next(s, ByWorker(i, input)), RunHelper(s) == AWorker(i))
  {
    hide Work, Served, HeapOk, FreedOnce, Accounts, TokenOk, CountsOk, ExitLag, OwnerLag, Sum;
    var v := Next(s, ByWorker(i, input)).workers[i];
    assert Placed(s.owner, i, s.workers[i]);
    if !AtRest(s.workers[i].pc) {
      AtWork(s, i);
    }
    ExitFalls(s.workers[i], i, s.r, s.writer, input);
    SumUpdate(s.workers, ExitLag, i, v);
  }

  lemma ReturnByLaunch(s: State, i: nat)
    requires i < |s.workers| && s.workers[i].pc.Parked?
    ensures Sum(Launch(s, i).workers, ExitLag) < Sum(s.workers, ExitLag)
  {
    SumUpdate(s.workers, ExitLag, i, Launch(s, i).workers[i]);
  }

  lemma ReturnByMark(s: State, i: nat, launched: bool)
    requires i < |s.workers|
    ensures Sum(Mark(s, i, launched).workers, ExitLag) == Sum(s.workers, ExitLag)
  {
    SumUpdate(s.workers, ExitLag, i, Mark(s, i, launched).workers[i]);
  }

  lemma ReturnByOwner(s: State, ok: bool, error: int)
    requires s.workers != [] && OwnerOk(s) && Running(s.owner)
    ensures NearerReturn(s, RunStep(s, ok, error), RunHelper(s).AnOwner?)
  {
    hide Sum, ExitLag, Launch, Mark;
    match s.owner
    case Launching(i) =>
      if i >= |s.workers| {
        ReturnByMark(s, 0, true);
        MarkTouches(s, 0, true, RunFirst);
      } else if ok {
        assert Placed(s.owner, i, s.workers[i]);
        ReturnByLaunch(s, i);
        LaunchTouches(s, i, Marking(i));
      }
    case Marking(i) =>
      ReturnByMark(s, i, true);
      MarkTouches(s, i, true, Launching(i + 1));
    case RunFirst =>
      assert Placed(s.owner, 0, s.workers[0]);
      ReturnByLaunch(s, 0);
      LaunchTouches(s, 0, RunningFirst);
    case RunningFirst =>
      ReturnByMark(s, 0, false);
      MarkTouches(s, 0, false, s.owner);
    case Joining(i, until, _) =>
      if i < until {
        ReturnByMark(s, i, false);
        MarkTouches(s, i, false, s.owner);
      }
  }

  lemma ReturnStep(s: State, e: Event)
    requires Inv(s) && s.stop && RunLeft(s) > 0
    ensures NearerReturn(s, Next(s, e), By(e, RunHelper(s)))
    ensures Next(s, e).stop && (RunLeft(Next(s, e)) == 0 ==> Next(s, e).owner.Ran?)
  {
    hide MemoryOk, CountsOk, OwnerOk, WorkerOk, Sum, ExitLag, Work, Publish;
    match e
    case ByWorker(i, input) =>
      if i < |s.workers| {
        ReturnByWorker(s, i, input);
      }
    case ByWriter(rules, granted) =>
    case ByOwner(input) =>
      ReturnByOwner(s, input.ok, input.error);
      RunLeadsToRan(s, input.ok, input.error);
    case ByStop =>
  }

  lemma RunLeadsToRan(s: State, ok: bool, error: int)
    requires s.workers != [] && Running(s.owner) && s.stop
    ensures var t := RunStep(s, ok, error);
            t.stop && (Running(t.owner) || t.owner.Ran?) && (Running(t.owner) ==> OwnerLag(t.owner, |t.workers|) > 0)
  {
  }

  lemma StopKept(s: State, e: Event)
    requires s.workers != [] && s.stop
    ensures Next(s, e).stop
  {
    hide Work, Publish, Configure, Reclaim, WorkersStopped;
  }

  lemma {:induction false} StopStays(s: State, sched: Schedule, k: nat, m: nat)
    requires s.workers != [] && At(s, sched, k).stop && k <= m
    ensures At(s, sched, m).stop
    decreases m - k
  {
    hide At, Next;
    if k == m {
    } else {
      StopStays(s, sched, k, m - 1);
      AtNext(s, sched, m - 1);
      StopKept(At(s, sched, m - 1), sched(m - 1));
    }
  }

  ghost function ReturnDistance(s: State, sched: Schedule, k: nat): nat -> nat
    requires s.workers != []
  {
    (j: nat) => if j < k then 0 else RunLeft(At(s, sched, j))
  }

  ghost function ReturnHelpers(s: State, sched: Schedule): nat -> Actor
    requires s.workers != []
  {
    (j: nat) => RunHelper(At(s, sched, j))
  }

  lemma ReturnDescends(s: State, sched: Schedule, k: nat)
    requires Inv(s) && At(s, sched, k).stop
    ensures AlwaysDescends(ReturnDistance(s, sched, k), ReturnHelpers(s, sched), sched)
  {
    hide At, Next, MemoryOk, OwnerOk, CountsOk, WorkerOk, RunHelper, RunLeft;
    forall j: nat
      ensures Descends(ReturnDistance(s, sched, k), ReturnHelpers(s, sched), sched, j)
    {
      AtKeeps(s, sched, j);
      AtNext(s, sched, j);
      if ReturnDistance(s, sched, k)(j) > 0 {
        StopStays(s, sched, k, j);
        ReturnStep(At(s, sched, j), sched(j));
      }
    }
  }

  lemma ReturnHelpersFair(s: State, sched: Schedule, k: nat)
    requires Inv(s) && FairTo(s, sched, AnOwner, k) && FairToWorkers(s, sched, k)
    ensures HelpersFair(ReturnDistance(s, sched, k), ReturnHelpers(s, sched), sched)
  {
    hide At, MemoryOk, OwnerOk, CountsOk, WorkerOk, RunLeft, RunHelper, HasWork, SoonFrom;
    forall j: nat | ReturnDistance(s, sched, k)(j) > 0
      ensures SoonFrom(sched, ReturnHelpers(s, sched)(j), j)
    {
      AtKeeps(s, sched, j);
      RunHelperWorks(At(s, sched, j));
    }
  }

  /** The owner waits only for a worker that has not returned, or for itself. */
  lemma RunHelperWorks(s: State)
    requires Inv(s) && RunLeft(s) > 0
    ensures HasWork(s, RunHelper(s))
    ensures RunHelper(s) == AnOwner || (RunHelper(s).AWorker? && RunHelper(s).i < |s.workers|)
  {
    hide MemoryOk, CountsOk, WorkerOk, Sum, OwnerLag;
    if RunHelper(s).AWorker? {
      assert Placed(s.owner, RunHelper(s).i, s.workers[RunHelper(s).i]);
    }
  }

  /**
   From any reachable state of the run in which stop is requested, on any schedule fair to the owner
   and the workers, `dp_dataplane_run` returns, with every worker stopped.
   */
  lemma StoppedRunReturns(s: State, sched: Schedule, k: nat) returns (m: nat)
    requires Inv(s) && At(s, sched, k).stop && Running(At(s, sched, k).owner)
    requires FairTo(s, sched, AnOwner, k) && FairToWorkers(s, sched, k)
    ensures k < m && At(s, sched, m).owner.Ran? && WorkersStopped(At(s, sched, m))
  {
    hide At, Next, MemoryOk, OwnerOk, CountsOk, WorkerOk, AlwaysDescends, HelpersFair, FairTo, FairToWorkers,
      Sum, RunHelper, WorkersStopped;
    ReturnDescends(s, sched, k);
    ReturnHelpersFair(s, sched, k);
    StillRunning(At(s, sched, k));
    m := Arrives(ReturnDistance(s, sched, k), ReturnHelpers(s, sched), sched, k);
    AtKeeps(s, sched, m - 1);
    AtKeeps(s, sched, m);
    AtNext(s, sched, m - 1);
    StopStays(s, sched, k, m - 1);
    ReturnStep(At(s, sched, m - 1), sched(m - 1));
    NotRunningIsStopped(At(s, sched, m));
  }

  /** `dp_dataplane_request_stop` at any moment of a run ends it, on every fair schedule. */
  lemma RequestedStopReturns(s: State, sched: Schedule, k: nat) returns (m: nat)
    requires Inv(s) && sched(k).ByStop? && Running(At(s, sched, k).owner)
    requires FairTo(s, sched, AnOwner, k + 1) && FairToWorkers(s, sched, k + 1)
    ensures k < m && At(s, sched, m).owner.Ran? && WorkersStopped(At(s, sched, m))
  {
    hide At, MemoryOk, OwnerOk, CountsOk, WorkerOk, FairTo, FairToWorkers, WorkersStopped, Work, Publish, Own;
    AtNext(s, sched, k);
    m := StoppedRunReturns(s, sched, k + 1);
  }

  lemma StillRunning(s: State)
    requires Running(s.owner)
    ensures RunLeft(s) > 0
  {
  }

  /** A worker whose start failed requests the stop in its next step. */
  lemma FailureStops(s: State, sched: Schedule, k: nat, i: nat) returns (m: nat)
    requires i < |s.workers| && At(s, sched, k).workers[i].pc.Failing? && FairTo(s, sched, AWorker(i), k)
    ensures k < m && At(s, sched, m).stop
  {
    hide At;
    assert HasWork(At(s, sched, k), AWorker(i));
    assert SoonFrom(sched, AWorker(i), k);
    var turn: nat :| k <= turn && By(sched(turn), AWorker(i));
    m := FailureStopsBy(s, sched, k, i, turn);
  }

  lemma {:induction false} FailureStopsBy(s: State, sched: Schedule, k: nat, i: nat, turn: nat) returns (m: nat)
    requires i < |s.workers| && At(s, sched, k).workers[i].pc.Failing? && k <= turn && By(sched(turn), AWorker(i))
    ensures k < m && At(s, sched, m).stop
    decreases turn - k
  {
    hide At;
    AtNext(s, sched, k);
    FailingStep(At(s, sched, k), sched(k), i);
    if At(s, sched, k + 1).stop {
      m := k + 1;
    } else {
      m := FailureStopsBy(s, sched, k + 1, i, turn);
    }
  }

  lemma FailingStep(s: State, e: Event, i: nat)
    requires i < |s.workers| && s.workers[i].pc.Failing?
    ensures if By(e, AWorker(i)) then Next(s, e).stop else Next(s, e).workers[i].pc.Failing?
  {
    if e.ByOwner? {
      RunTouches(s, e.answer.ok, e.answer.error);
      assert Touched(s.workers[i], RunStep(s, e.answer.ok, e.answer.error).workers[i]);
    }
    hide Publish, Configure, Reclaim, WorkersStopped, RunStep, Launch, Mark;
  }

  // ---------- Teardown completes ----------

  /** From `k` on no new publisher takes the lock, as when the Go side has closed publication. */
  ghost predicate ClosedFrom(s: State, sched: Schedule, k: nat)
    requires s.workers != []
  {
    forall m: nat | k <= m && At(s, sched, m).writer.Idle? :: !sched(m).ByWriter?
  }

  predicate Quiet(s: State) {
    AfterRun(s.owner) && !Publishing(s.writer)
  }

  function TearLeft(owner: OwnerPc): nat {
    match owner
    case Ran(_) => 6
    case Closing => 5
    case TearLocked => 4
    case TearSwapped(_) => 3
    case TearFreed => 2
    case TearUnlocking => 1
    case _ => 0
  }

  lemma QuietStep(s: State, e: Event)
    requires Inv(s) && Quiet(s) && (s.writer.Idle? ==> !e.ByWriter?)
    ensures var t := Next(s, e);
            && Quiet(t) && TearLeft(t.owner) <= TearLeft(s.owner)
            && (e.ByOwner? && TearLeft(s.owner) > 0 ==> TearLeft(t.owner) < TearLeft(s.owner))
            && (TearLeft(s.owner) > 0 && TearLeft(t.owner) == 0 ==> t.owner.TornDown?)
  {
    hide Work, MemoryOk, CountsOk, WorkerOk, Placed, Reclaim, WorkersStopped;
    if e.ByOwner? && s.owner.Closing? {
      LockKeeps(s);
    }
  }

  lemma {:induction false} QuietStays(s: State, sched: Schedule, k: nat, m: nat)
    requires Inv(s) && Quiet(At(s, sched, k)) && ClosedFrom(s, sched, k) && k <= m
    ensures Quiet(At(s, sched, m))
    decreases m - k
  {
    hide At, Next, MemoryOk, OwnerOk, CountsOk, WorkerOk, Quiet;
    if k == m {
    } else {
      QuietStays(s, sched, k, m - 1);
      AtKeeps(s, sched, m - 1);
      AtNext(s, sched, m - 1);
      QuietStep(At(s, sched, m - 1), sched(m - 1));
    }
  }

  ghost function TearDistance(s: State, sched: Schedule, k: nat): nat -> nat
    requires s.workers != []
  {
    (j: nat) => if j < k then 0 else TearLeft(At(s, sched, j).owner)
  }

  lemma TearDescends(s: State, sched: Schedule, k: nat)
    requires Inv(s) && Quiet(At(s, sched, k)) && ClosedFrom(s, sched, k)
    ensures AlwaysDescends(TearDistance(s, sched, k), Always(AnOwner), sched)
  {
    hide At, Next, MemoryOk, OwnerOk, CountsOk, WorkerOk, Quiet, TearLeft;
    forall j: nat
      ensures Descends(TearDistance(s, sched, k), Always(AnOwner), sched, j)
    {
      AtNext(s, sched, j);
      if TearDistance(s, sched, k)(j) > 0 {
        AtKeeps(s, sched, j);
        QuietStays(s, sched, k, j);
        QuietStep(At(s, sched, j), sched(j));
      }
    }
  }

  lemma TearHelpersFair(s: State, sched: Schedule, k: nat)
    requires s.workers != [] && FairTo(s, sched, AnOwner, k)
    ensures HelpersFair(TearDistance(s, sched, k), Always(AnOwner), sched)
  {
    hide At, SoonFrom;
    forall j: nat | TearDistance(s, sched, k)(j) > 0
      ensures SoonFrom(sched, Always(AnOwner)(j), j)
    {
      assert HasWork(At(s, sched, j), AnOwner);
    }
  }

  lemma QuietTeardown(s: State, sched: Schedule, k: nat) returns (m: nat)
    requires Inv(s) && Quiet(At(s, sched, k)) && TearLeft(At(s, sched, k).owner) > 0
    requires ClosedFrom(s, sched, k) && FairTo(s, sched, AnOwner, k)
    ensures k < m && At(s, sched, m).owner.TornDown?
  {
    hide At, Next, MemoryOk, OwnerOk, CountsOk, WorkerOk, Quiet, TearLeft, AlwaysDescends, HelpersFair, FairTo;
    TearDescends(s, sched, k);
    TearHelpersFair(s, sched, k);
    m := Arrives(TearDistance(s, sched, k), Always(AnOwner), sched, k);
    AtKeeps(s, sched, m - 1);
    AtNext(s, sched, m - 1);
    QuietStays(s, sched, k, m - 1);
    QuietStep(At(s, sched, m - 1), sched(m - 1));
  }

  /**
   Once the run has returned and publication is closed, teardown gets the lock from the publisher in
   flight, if any, and completes, on every schedule that lets those two take their steps while they
   have any to take; no worker has to move.
   */
  lemma TeardownCompletes(s: State, sched: Schedule, k: nat) returns (m: nat)
    requires Inv(s) && (At(s, sched, k).owner.Ran? || At(s, sched, k).owner.Closing?)
    requires ClosedFrom(s, sched, k) && FairTo(s, sched, AWriter, k) && FairTo(s, sched, AnOwner, k)
    ensures k < m && At(s, sched, m).owner.TornDown?
  {
    hide At, Next, MemoryOk, CountsOk, WorkerOk, SoonFrom, Placed;
    var free := k;
    AtKeeps(s, sched, k);
    if Publishing(At(s, sched, k).writer) {
      free := PublicationCompletesAlone(s, sched, k);
      AfterRunForever(s, sched, k, free);
      AtKeeps(s, sched, free);
    }
    if At(s, sched, free).owner.TornDown? {
      m := free;
    } else {
      m := QuietTeardown(s, sched, free);
    }
  }

  // ---------- Such schedules exist ----------

  /** Position in a round of all workers, the publisher and the owner. */
  function Slot(k: nat, n: nat): (slot: nat)
    ensures slot < n + 2
  {
    if k == 0 then 0
    else
      var before := Slot(k - 1, n);
      if before + 1 == n + 2 then 0 else before + 1
  }

  const NO_RULES := RuleSet([], [])

  /** Whoever's turn it is takes one step; no publisher is let in anew. */
  function TurnOf(s: State, slot: nat): Event {
    if slot < |s.workers| then ByWorker(slot, Input([], 0))
    else if slot == |s.workers| then (if Publishing(s.writer) then ByWriter(NO_RULES, true) else ByStop)
    else ByOwner(OwnerInput(NO_RULES, true, true, true, 0))
  }

  ghost function Driven(s: State, k: nat): (t: State)
    requires s.workers != []
    ensures |t.workers| == |s.workers|
  {
    if k == 0 then s
    else
      var before := Driven(s, k - 1);
      Next(before, TurnOf(before, Slot(k - 1, |s.workers|)))
  }

  ghost function RoundRobin(s: State): Schedule
    requires s.workers != []
  {
    (k: nat) => TurnOf(Driven(s, k), Slot(k, |s.workers|))
  }

  lemma {:induction false} RoundRobinAt(s: State, k: nat)
    requires s.workers != []
    ensures At(s, RoundRobin(s), k) == Driven(s, k)
  {
    hide Next, TurnOf, Slot;
    if k == 0 {
    } else {
      RoundRobinAt(s, k - 1);
    }
  }

  lemma {:induction false} NextTurn(n: nat, k: nat, slot: nat) returns (m: nat)
    requires slot < n + 2
    ensures k <= m && Slot(m, n) == slot && forall i | k <= i < m :: Slot(i, n) != slot
    decreases if Slot(k, n) <= slot then slot - Slot(k, n) else n + 2 - Slot(k, n) + slot
  {
    if Slot(k, n) == slot {
      m := k;
    } else {
      m := NextTurn(n, k + 1, slot);
    }
  }

  /** Only a publisher's own step takes the lock from it. */
  lemma PublishingKept(s: State, e: Event)
    requires Inv(s) && Publishing(s.writer) && !e.ByWriter?
    ensures Publishing(Next(s, e).writer)
  {
    hide WorkerOk, CountsOk, MemoryOk, Placed, Work, Configure, Reclaim, WorkersStopped;
    if e.ByOwner? {
      RunTouches(s, e.answer.ok, e.answer.error);
    }
    hide RunStep;
  }

  lemma {:induction false} PublishingLasts(s: State, k: nat, m: nat)
    requires Inv(s) && k <= m && Publishing(Driven(s, k).writer)
    requires forall i | k <= i < m :: Slot(i, |s.workers|) != |s.workers|
    ensures Publishing(Driven(s, m).writer)
    decreases m - k
  {
    hide Next, At, Slot, MemoryOk, OwnerOk, CountsOk, WorkerOk, Publishing;
    if k == m {
    } else {
      PublishingLasts(s, k, m - 1);
      RoundRobinAt(s, m - 1);
      AtKeeps(s, RoundRobin(s), m - 1);
      PublishingKept(Driven(s, m - 1), TurnOf(Driven(s, m - 1), Slot(m - 1, |s.workers|)));
    }
  }

  lemma RoundRobinFair(s: State, a: Actor, k: nat)
    requires Inv(s) && HasWork(At(s, RoundRobin(s), k), a)
    ensures SoonFrom(RoundRobin(s), a, k)
  {
    hide Next, At, MemoryOk, OwnerOk, CountsOk, WorkerOk;
    var n := |s.workers|;
    var m := NextTurn(n, k, match a case AWorker(i) => i case AWriter => n case AnOwner => n + 1);
    if a.AWriter? {
      RoundRobinAt(s, k);
      PublishingLasts(s, k, m);
    }
    assert By(RoundRobin(s)(m), a);
  }

  /** From every reachable state some schedule is fair to everyone and lets no new publisher in. */
  lemma FairScheduleExists(s: State) returns (sched: Schedule)
    requires Inv(s)
    ensures FairTo(s, sched, AWriter, 0) && FairTo(s, sched, AnOwner, 0) && FairToWorkers(s, sched, 0)
    ensures ClosedFrom(s, sched, 0)
  {
    hide Next, At, MemoryOk, OwnerOk, CountsOk, WorkerOk, HasWork, SoonFrom;
    sched := RoundRobin(s);
    forall a: Actor, k: nat | HasWork(At(s, sched, k), a)
      ensures SoonFrom(sched, a, k)
    {
      RoundRobinFair(s, a, k);
    }
    forall k: nat | At(s, sched, k).writer.Idle?
      ensures !sched(k).ByWriter?
    {
      RoundRobinAt(s, k);
    }
  }
}
