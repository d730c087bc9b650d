/**
 What a run has to show for itself: every burst that RX delivered has been processed once and in
 order, a worker's result is the answer it got when it registered, workers leave only after a stop,
 and the return code is the first failure. Each is told against a diary kept from the events alone.
 */
module RunOutcome {
  import opened Wrappers
  import opened Actions
  import opened Rules
  import opened RewriteLaws
  import opened Router
  import opened Publication
  import opened PublicationSafety
  import opened PublicationProgress
  import opened PublicationRequests

  // ---------- A worker's diary ----------

  /** The nonempty bursts RX handed over, and the answer to the registration with QSBR. */
  datatype Diary = Diary(arrived: seq<seq<Buffer>>, registered: Option<int>)

  /** RX stores at most 32 mbufs. */
  function FirstThirtyTwo(burst: seq<Buffer>): seq<Buffer> {
    if |burst| <= 32 then burst else burst[..32]
  }

  function DiaryNext(w: Reader, d: Diary, input: Input): Diary {
    if w.pc.Entered? then d.(registered := Some(input.error))
    else if w.pc.Polling? && input.burst != [] then d.(arrived := d.arrived + [FirstThirtyTwo(input.burst)])
    else d
  }

  /** What worker `i` was handed and told in the course of a run. */
  ghost function DiaryOf(n: nat, events: seq<Event>, i: nat): Diary
    requires i < n
  {
    if events == [] then Diary([], None)
    else
      var front, e := events[..|events| - 1], events[|events| - 1];
      if e.ByWorker? && e.i == i then DiaryNext(Run(n, front).workers[i], DiaryOf(n, front, i), e.input)
      else DiaryOf(n, front, i)
  }

  function Bursts(log: seq<Burst>): seq<seq<Buffer>> {
    if log == [] then [] else Bursts(log[..|log| - 1]) + [log[|log| - 1].burst]
  }

  function Nonempty(burst: seq<Buffer>): seq<seq<Buffer>> {
    if burst == [] then [] else [burst]
  }

  /** The burst a worker has received and not yet completed. */
  function InHand(pc: WorkerPc): seq<seq<Buffer>> {
    match pc
    case Polled(burst) => Nonempty(burst)
    case Bursting(b) => Nonempty(b.burst)
    case _ => []
  }

  /** The answer to the registration that a worker at `pc` has had. */
  predicate RegisteredAs(pc: WorkerPc, registered: Option<int>) {
    match pc
    case Parked => registered.None?
    case Entering => registered.None?
    case Entered => registered.None?
    case Failing(e) => registered == Some(e) && e != 0
    case Failed(e) => registered == Some(e) && e != 0
    case Done(result) => registered == Some(result)
    case _ => registered == Some(0)
  }

  /** On the way out of the loop, or out of it. */
  predicate Left(pc: WorkerPc) {
    pc.Leaving? || pc.Offline? || pc.Unregistered? || pc.Unflagged? || (pc.Done? && pc.result == 0)
  }

  ghost predicate Tells(w: Reader, d: Diary, stop: bool) {
    && d.arrived == Bursts(w.log) + InHand(w.pc)
    && RegisteredAs(w.pc, d.registered)
    && (Left(w.pc) ==> stop)
  }

  lemma TellsPoll(w: Reader, d: Diary, r: Memory, stop: bool, input: Input)
    requires Tells(w, d, stop) && (w.pc.Polling? || w.pc.Polled?)
    ensures Tells(Work(w, r, stop, input).w, DiaryNext(w, d, input), stop)
  {
    hide Route, Bursts;
  }

  lemma LogMore(log: seq<Burst>, b: Burst)
    ensures Bursts(log + [b]) == Bursts(log) + [b.burst]
  {
    assert (log + [b])[..|log|] == log;
  }

  lemma TellsProcess(w: Reader, d: Diary, r: Memory, stop: bool)
    requires Tells(w, d, stop) && w.pc.Bursting?
    ensures Tells(Process(w, w.pc.b, r).w, d, stop)
  {
    hide Route, Bursts;
    var b := w.pc.b;
    LogMore(w.log, Burst(b.generation, b.floor, b.burst, b.outs));
  }

  // The steps that neither receive nor process.

  predicate AtEdge(pc: WorkerPc) {
    !pc.Polling? && !pc.Polled? && !pc.Bursting?
  }

  lemma EdgeBursts(w: Reader, r: Memory, stop: bool, input: Input)
    requires AtEdge(w.pc)
    ensures var v := Work(w, r, stop, input).w;
            v.log == w.log && InHand(w.pc) == InHand(v.pc) == []
  {
    hide Load, Process;
  }

  lemma EdgeAnswers(w: Reader, d: Diary, r: Memory, stop: bool, input: Input)
    requires AtEdge(w.pc) && RegisteredAs(w.pc, d.registered) && (w.pc.Entered? ==> r.qsbr)
    ensures var e := DiaryNext(w, d, input);
            e.arrived == d.arrived && RegisteredAs(Work(w, r, stop, input).w.pc, e.registered)
  {
    hide Load, Process, FirstThirtyTwo;
  }

  lemma EdgeLeaves(w: Reader, r: Memory, stop: bool, input: Input)
    requires AtEdge(w.pc) && (Left(w.pc) ==> stop)
    requires w.pc.Failing? ==> w.pc.error != 0
    requires w.pc.Failed? ==> w.pc.error != 0
    ensures var m := Work(w, r, stop, input); Left(m.w.pc) ==> stop || m.stops
  {
    hide Load, Process;
  }

  lemma TellsEdge(w: Reader, d: Diary, r: Memory, stop: bool, input: Input)
    requires Tells(w, d, stop) && (w.pc.Entered? ==> r.qsbr) && AtEdge(w.pc)
    ensures var m := Work(w, r, stop, input);
            Tells(m.w, DiaryNext(w, d, input), stop || m.stops)
  {
    hide Work, Bursts, InHand, Left, DiaryNext;
    EdgeBursts(w, r, stop, input);
    EdgeAnswers(w, d, r, stop, input);
    EdgeLeaves(w, r, stop, input);
  }

  lemma TellsWork(w: Reader, d: Diary, r: Memory, stop: bool, input: Input)
    requires Tells(w, d, stop) && (w.pc.Entered? ==> r.qsbr)
    ensures var m := Work(w, r, stop, input);
            Tells(m.w, DiaryNext(w, d, input), stop || m.stops)
  {
    hide Tells, Load, Process, Bursts;
    if w.pc.Polling? || w.pc.Polled? {
      TellsPoll(w, d, r, stop, input);
      PollNeverStops(w, r, stop, input);
    } else if w.pc.Bursting? {
      TellsProcess(w, d, r, stop);
      PollNeverStops(w, r, stop, input);
    } else {
      TellsEdge(w, d, r, stop, input);
    }
  }

  lemma PollNeverStops(w: Reader, r: Memory, stop: bool, input: Input)
    requires w.pc.Polling? || w.pc.Polled? || w.pc.Bursting?
    ensures !Work(w, r, stop, input).stops
  {
    hide Route;
  }

  lemma TouchedTells(w: Reader, v: Reader, d: Diary, before: bool, after: bool)
    requires Tells(w, d, before) && Touched(w, v) && (before ==> after)
    ensures Tells(v, d, after)
  {
    hide Bursts;
  }

  /** The owner starts and marks workers, and may stop them; nothing else of theirs changes. */
  lemma OwnerTouches(s: State, a: OwnerInput, i: nat)
    requires i < |s.workers|
    ensures var t := Next(s, ByOwner(a)); Touched(s.workers[i], t.workers[i]) && (s.stop ==> t.stop)
  {
    hide Configure, Reclaim, WorkersStopped, RunStep, Touched;
    if s.stop {
      StopKept(s, ByOwner(a));
    }
    RunTouches(s, a.ok, a.error);
    SameTouched(s.workers[i]);
  }

  lemma SameTouched(w: Reader)
    ensures Touched(w, w)
  {
    assert w == w.(launched := w.launched);
  }

  /** A worker's step tells in its diary what it did; nobody else's step changes what the diary says. */
  lemma TellsStep(s: State, e: Event, i: nat, d: Diary)
    requires Inv(s) && i < |s.workers| && Tells(s.workers[i], d, s.stop)
    ensures var t := Next(s, e);
            Tells(t.workers[i], if e.ByWorker? && e.i == i then DiaryNext(s.workers[i], d, e.input) else d, t.stop)
  {
    hide MemoryOk, OwnerOk, CountsOk, WorkerOk, Work, DiaryNext, Bursts, InHand, RegisteredAs, Left;
    if e.ByWorker? && e.i == i {
      if s.workers[i].pc.Entered? {
        AtWork(s, i);
      }
      TellsWork(s.workers[i], d, s.r, s.stop, e.input);
    } else if e.ByOwner? {
      OwnerTouches(s, e.answer, i);
      TouchedTells(s.workers[i], Next(s, e).workers[i], d, s.stop, Next(s, e).stop);
    }
  }

  lemma {:induction false} WorkerTells(n: nat, events: seq<Event>, i: nat)
    requires i < n
    ensures Tells(Run(n, events).workers[i], DiaryOf(n, events, i), Run(n, events).stop)
  {
    hide Inv, Next, Tells, DiaryNext;
    if events == [] {
      BlankDiary(n, i);
    } else {
      var front := events[..|events| - 1];
      WorkerTells(n, front, i);
      RunKeeps(n, front);
      TellsStep(Run(n, front), events[|events| - 1], i, DiaryOf(n, front, i));
    }
  }

  lemma BlankDiary(n: nat, i: nat)
    requires i < n
    ensures Tells(Run(n, []).workers[i], Diary([], None), false)
  {
  }

  /**
   Conservation of bursts: what RX has delivered to a worker is what it has logged, in order, and the
   burst in hand; a worker that is done has none in hand.
   */
  lemma NothingLost(n: nat, events: seq<Event>, i: nat)
    requires i < n
    ensures var w, d := Run(n, events).workers[i], DiaryOf(n, events, i);
            && d.arrived == Bursts(w.log) + InHand(w.pc)
            && (w.pc.Done? ==> d.arrived == Bursts(w.log))
  {
    hide Run, Bursts, DiaryOf;
    WorkerTells(n, events, i);
    var w := Run(n, events).workers[i];
    if w.pc.Done? {
      assert Bursts(w.log) + [] == Bursts(w.log);
    }
  }

  lemma {:induction false} BurstsAt(log: seq<Burst>, k: nat)
    requires k < |log|
    ensures |Bursts(log)| == |log| && Bursts(log)[k] == log[k].burst
  {
    var n := |log| - 1;
    if k == n {
      BurstsCount(log[..n]);
    } else {
      BurstsAt(log[..n], k);
    }
  }

  lemma {:induction false} BurstsCount(log: seq<Burst>)
    ensures |Bursts(log)| == |log|
  {
    if log == [] {
    } else {
      BurstsCount(log[..|log| - 1]);
    }
  }

  /** The `k`-th burst delivered to a worker is routed whole under the rules of one accepted request. */
  lemma ArrivalsRouted(n: nat, events: seq<Event>, i: nat, k: nat)
    requires i < n && k < |Run(n, events).workers[i].log|
    ensures var arrived, accepted, b := DiaryOf(n, events, i).arrived, Accepted(n, events), Run(n, events).workers[i].log[k];
            && k < |arrived| && 1 <= b.generation <= |accepted|
            && Somes(b.outs) == RouteAll(accepted[b.generation - 1], arrived[k])
  {
    hide Run, Bursts, DiaryOf, Accepted, RouteAll, Somes;
    NothingLost(n, events, i);
    BurstsAt(Run(n, events).workers[i].log, k);
    BurstsServeRequests(n, events, i);
  }

  /** A worker returns the answer to its registration, and with a good answer it leaves only once stop is requested. */
  lemma WorkerResult(n: nat, events: seq<Event>, i: nat)
    requires i < n
    ensures var s, registered := Run(n, events), DiaryOf(n, events, i).registered;
            var pc := s.workers[i].pc;
            && (pc.Done? ==> registered == Some(pc.result))
            && (Looping(pc) ==> registered == Some(0))
            && (Left(pc) ==> s.stop)
  {
    hide Run, Bursts, DiaryOf, Left;
    WorkerTells(n, events, i);
  }

  // ---------- The owner's diary ----------

  /** What setup answered, the error of a launch that failed, and what the run returned. */
  datatype Journal = Journal(setup: Option<bool>, launch: Option<int>, code: Option<int>)

  /** Any failure to launch counts as negative. */
  function LaunchCode(error: int): int {
    if error < 0 then error else -EIO
  }

  function JournalNext(s: State, j: Journal, e: Event): Journal {
    if !e.ByOwner? then j
    else
      match s.owner
      case Ready => j.(setup := Some(e.answer.ok))
      case Launching(i) => if i < |s.workers| && !e.answer.ok then j.(launch := Some(LaunchCode(e.answer.error))) else j
      case Ran(error) => j.(code := Some(error))
      case _ => j
  }

  ghost function JournalOf(n: nat, events: seq<Event>): Journal
    requires n > 0
  {
    if events == [] then Journal(None, None, None)
    else
      var front := events[..|events| - 1];
      JournalNext(Run(n, front), JournalOf(n, front), events[|events| - 1])
  }

  /** Worker `i` is done with `result`, and no worker before it with a negative one. */
  ghost predicate FirstWith(ws: seq<Reader>, i: nat, result: int)
    requires i < |ws| && forall k | 0 <= k <= i :: ws[k].pc.Done?
  {
    ws[i].pc == Done(result) && forall k | 0 <= k < i :: ws[k].pc.result >= 0
  }

  /** The first negative result among the first `joined` workers, 0 if there is none. */
  ghost predicate FirstNegative(ws: seq<Reader>, joined: nat, code: int)
    requires joined <= |ws|
  {
    && (forall i | 0 <= i < joined :: ws[i].pc.Done?)
    && (code == 0 ==> forall i | 0 <= i < joined :: ws[i].pc.result >= 0)
    && (code != 0 ==> code < 0 && exists i | 0 <= i < joined :: FirstWith(ws, i, code))
  }

  /** What a run that has joined the first `joined` workers returns if nothing else fails. */
  ghost predicate CodeSoFar(ws: seq<Reader>, stop: bool, launch: Option<int>, joined: nat, code: int)
    requires joined <= |ws|
  {
    match launch
    case Some(error) => code == error < 0 && stop
    case None => FirstNegative(ws, joined, code)
  }

  ghost predicate Records(s: State, j: Journal) {
    match s.owner
    case Start => j == Journal(None, None, None)
    case Ready => j == Journal(None, None, None)
    case Launching(_) => j == Journal(Some(true), None, None)
    case Marking(_) => j == Journal(Some(true), None, None)
    case RunFirst => j == Journal(Some(true), None, None)
    case RunningFirst => j == Journal(Some(true), None, None)
    case Joining(k, until, code) =>
      && k <= until <= |s.workers| && j.setup == Some(true) && j.code.None?
      && (j.launch.None? ==> until == |s.workers|) && CodeSoFar(s.workers, s.stop, j.launch, k, code)
    case Ran(code) =>
      && j.setup == Some(true) && j.code.None? && CodeSoFar(s.workers, s.stop, j.launch, |s.workers|, code)
    case _ => j.setup == Some(true) ==> j.code.Some? && CodeSoFar(s.workers, s.stop, j.launch, |s.workers|, j.code.value)
  }

  /** Whoever is done stays done with the same result. */
  ghost predicate DoneKept(ws: seq<Reader>, vs: seq<Reader>) {
    |vs| == |ws| && forall i | 0 <= i < |ws| && ws[i].pc.Done? :: vs[i].pc == ws[i].pc
  }

  lemma CodeKept(ws: seq<Reader>, vs: seq<Reader>, before: bool, after: bool, launch: Option<int>, joined: nat, code: int)
    requires joined <= |ws| && CodeSoFar(ws, before, launch, joined, code)
    requires DoneKept(ws, vs) && (before ==> after)
    ensures CodeSoFar(vs, after, launch, joined, code)
  {
    if launch.None? && code != 0 {
      var i :| 0 <= i < joined && FirstWith(ws, i, code);
      assert FirstWith(vs, i, code);
    }
  }

  lemma JoinNext(ws: seq<Reader>, k: nat, code: int)
    requires k < |ws| && FirstNegative(ws, k, code) && ws[k].pc.Done?
    ensures var result := ws[k].pc.result;
            FirstNegative(ws, k + 1, if result < 0 then FirstError(code, result) else code)
  {
    var result := ws[k].pc.result;
    if code != 0 {
      var i :| 0 <= i < k && FirstWith(ws, i, code);
      assert FirstWith(ws, i, code);
    } else if result < 0 {
      assert FirstWith(ws, k, result);
    }
  }

  lemma StepKeepsDone(s: State, e: Event)
    requires s.workers != []
    ensures DoneKept(s.workers, Next(s, e).workers) && (s.stop ==> Next(s, e).stop)
  {
    hide Work, Configure, Reclaim, WorkersStopped, RunStep, Publish, DoneKept;
    if s.stop {
      StopKept(s, e);
    }
    if e.ByWorker? && e.i < |s.workers| {
      DoneStays(s.workers[e.i], s.r, s.stop, e.input);
      OneMoved(s.workers, e.i, Work(s.workers[e.i], s.r, s.stop, e.input).w);
    } else if e.ByOwner? {
      RunTouches(s, e.answer.ok, e.answer.error);
      TouchedKeepsDone(s, RunStep(s, e.answer.ok, e.answer.error));
      OneMoved(s.workers, 0, s.workers[0]);
    } else {
      OneMoved(s.workers, 0, s.workers[0]);
    }
  }

  lemma DoneStays(w: Reader, r: Memory, stop: bool, input: Input)
    ensures w.pc.Done? ==> Work(w, r, stop, input).w == w
  {
  }

  lemma OneMoved(ws: seq<Reader>, i: nat, v: Reader)
    requires i < |ws| && (ws[i].pc.Done? ==> v.pc == ws[i].pc)
    ensures DoneKept(ws, ws[i := v]) && DoneKept(ws, ws)
  {
  }

  lemma TouchedKeepsDone(s: State, t: State)
    requires BesideOwner(s, t)
    ensures DoneKept(s.workers, t.workers)
  {
  }

  /** While the owner stands still, the records stay true. */
  lemma RecordsKept(s: State, t: State, j: Journal)
    requires Inv(s) && Records(s, j) && t.owner == s.owner && DoneKept(s.workers, t.workers) && (s.stop ==> t.stop)
    ensures Records(t, j)
  {
    hide Inv, CodeSoFar, DoneKept;
    assert |t.workers| == |s.workers| by {
      SameCount(s.workers, t.workers);
    }
    if s.owner.Joining? {
      CodeKept(s.workers, t.workers, s.stop, t.stop, j.launch, s.owner.i, s.owner.error);
    } else if s.owner.Ran? {
      CodeKept(s.workers, t.workers, s.stop, t.stop, j.launch, |s.workers|, s.owner.error);
    } else if AfterRun(s.owner) && j.setup == Some(true) {
      CodeKept(s.workers, t.workers, s.stop, t.stop, j.launch, |s.workers|, j.code.value);
    }
  }

  lemma SameCount(ws: seq<Reader>, vs: seq<Reader>)
    requires DoneKept(ws, vs)
    ensures |vs| == |ws|
  {
  }

  /** Up to the end of the launches. */
  lemma RecordsLaunch(s: State, j: Journal, a: OwnerInput)
    requires Inv(s) && Records(s, j)
    requires s.owner.Start? || s.owner.Ready? || s.owner.Launching? || s.owner.Marking? || s.owner.RunFirst?
    ensures Records(Next(s, ByOwner(a)), JournalNext(s, j, ByOwner(a)))
  {
    hide MemoryOk, WorkerOk, CountsOk, Placed, Configure, FirstNegative;
  }

  /** Joining one more worker keeps the code right. */
  lemma CodeNext(ws: seq<Reader>, stop: bool, launch: Option<int>, k: nat, code: int)
    requires k < |ws| && CodeSoFar(ws, stop, launch, k, code) && ws[k].pc.Done?
    ensures var result := ws[k].pc.result;
            CodeSoFar(ws, stop, launch, k + 1, if result < 0 then FirstError(code, result) else code)
  {
    hide FirstNegative;
    if launch.None? {
      JoinNext(ws, k, code);
    }
  }

  lemma NoneJoined(ws: seq<Reader>, stop: bool)
    ensures CodeSoFar(ws, stop, None, 0, 0)
  {
  }

  /** The whole run has been joined. */
  lemma CodeComplete(ws: seq<Reader>, stop: bool, launch: Option<int>, k: nat, code: int)
    requires k <= |ws| && CodeSoFar(ws, stop, launch, k, code) && (launch.None? ==> k == |ws|)
    ensures CodeSoFar(ws, stop, launch, |ws|, code)
  {
  }

  lemma RecordsJoin(s: State, j: Journal, a: OwnerInput)
    requires Inv(s) && Records(s, j) && (s.owner.RunningFirst? || s.owner.Joining? || s.owner.Ran?)
    ensures Records(Next(s, ByOwner(a)), JournalNext(s, j, ByOwner(a)))
  {
    hide MemoryOk, WorkerOk, CountsOk, Placed, Configure, CodeSoFar, FirstNegative, DoneKept;
    var t := Next(s, ByOwner(a));
    StepKeepsDone(s, ByOwner(a));
    match s.owner
    case RunningFirst =>
      if Over(s.workers[0]) {
        NoneJoined(s.workers, s.stop);
        CodeNext(s.workers, s.stop, None, 0, 0);
        CodeKept(s.workers, t.workers, s.stop, t.stop, None, 1, t.owner.error);
      }
    case Joining(k, until, code) =>
      if k >= until {
        CodeComplete(s.workers, s.stop, j.launch, k, code);
        CodeKept(s.workers, t.workers, s.stop, t.stop, j.launch, |s.workers|, code);
      } else if Over(s.workers[k]) {
        CodeNext(s.workers, s.stop, j.launch, k, code);
        CodeKept(s.workers, t.workers, s.stop, t.stop, j.launch, k + 1, t.owner.error);
      } else {
        CodeKept(s.workers, t.workers, s.stop, t.stop, j.launch, k, code);
      }
    case Ran(code) => CodeKept(s.workers, t.workers, s.stop, t.stop, j.launch, |s.workers|, code);
  }

  lemma RecordsTear(s: State, j: Journal, a: OwnerInput)
    requires Inv(s) && Records(s, j) && AfterRun(s.owner) && !s.owner.Ran?
    ensures Records(Next(s, ByOwner(a)), j)
  {
    hide MemoryOk, WorkerOk, CountsOk, OwnerOk, Placed, Configure, CodeSoFar, Reclaim, WorkersStopped, RunStep;
  }

  lemma RecordsStep(s: State, j: Journal, e: Event)
    requires Inv(s) && Records(s, j)
    ensures Records(Next(s, e), JournalNext(s, j, e))
  {
    hide MemoryOk, WorkerOk, CountsOk, OwnerOk, Records, DoneKept, Own, Publish, Work;
    if e.ByOwner? {
      if AfterRun(s.owner) && !s.owner.Ran? {
        RecordsTear(s, j, e.answer);
      } else if s.owner.RunningFirst? || s.owner.Joining? || s.owner.Ran? {
        RecordsJoin(s, j, e.answer);
      } else {
        RecordsLaunch(s, j, e.answer);
      }
    } else {
      StepKeepsDone(s, e);
      RecordsKept(s, Next(s, e), j);
    }
  }

  lemma {:induction false} OwnerRecords(n: nat, events: seq<Event>)
    requires n > 0
    ensures Records(Run(n, events), JournalOf(n, events))
  {
    hide Inv, Next, Records, JournalNext;
    if events == [] {
      BlankJournal(n);
    } else {
      var front := events[..|events| - 1];
      OwnerRecords(n, front);
      RunKeeps(n, front);
      RecordsStep(Run(n, front), JournalOf(n, front), events[|events| - 1]);
    }
  }

  lemma BlankJournal(n: nat)
    requires n > 0
    ensures Records(Run(n, []), Journal(None, None, None))
  {
  }

  /**
   What `dp_dataplane_run` returns: the error of the launch that failed, and then stop is requested;
   otherwise all workers have run, and it is the first negative result among them in the order of
   their numbers, 0 if none is negative. A setup that succeeded is not torn down before that return.
   */
  lemma RunReturns(n: nat, events: seq<Event>)
    requires n > 0
    ensures var s, j := Run(n, events), JournalOf(n, events);
            && (s.owner.Ran? ==> CodeSoFar(s.workers, s.stop, j.launch, n, s.owner.error))
            && (AfterRun(s.owner) && !s.owner.Ran? && j.setup == Some(true) ==>
                  j.code.Some? && CodeSoFar(s.workers, s.stop, j.launch, n, j.code.value))
            && (Running(s.owner) || s.owner.Ran? ==> j.setup == Some(true))
  {
    hide Run, CodeSoFar, JournalOf;
    OwnerRecords(n, events);
  }
}
