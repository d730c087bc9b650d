/**
 What becomes of a publish request: the rules a publisher brings are the rules that later bursts are
 routed by, or nothing changes. Requests are told by the events alone: the one that takes the writer
 lock and the environment's answer to the publisher's next step.
 */
module PublicationRequests {
  import opened Wrappers
  import opened Actions
  import opened Rules
  import opened RewriteLaws
  import opened Router
  import opened Publication
  import opened PublicationSafety
  import opened PublicationProgress

  // ---------- One request ----------

  /** The environment's answer to the first publisher step at `from` or later, before `to`. */
  function Answer(sched: Schedule, from: nat, until: nat): Option<bool>
    decreases until - from
  {
    if from >= until then None
    else if sched(from).ByWriter? then Some(sched(from).granted)
    else Answer(sched, from + 1, until)
  }

  function IfOk(ok: bool, rules: RuleSet): seq<RuleSet> {
    if ok then [rules] else []
  }

  /** A request for `rules` has been decided: it is published whole, or counted as failed, or refused. */
  ghost predicate Decided(before: Memory, rules: RuleSet, ok: bool, after: Memory) {
    && after.published == before.published + IfOk(ok, rules)
    && after.generation == before.generation + (if ok then 1 else 0)
    && after.success == before.success + (if ok then 1 else 0)
    && after.reclaimed == before.reclaimed + (if ok then 1 else 0)
    && after.failed == before.failed + (if before.configured && !ok then 1 else 0)
    && after.returned == after.generation
    && (if ok then after.current.Some? && after.current.value in after.heap && after.heap[after.current.value].rules == rules
        else after.current == before.current && after.heap == before.heap)
  }

  /** What a publisher holding the lock for `rules` has done so far; `answer` is what it was told, if anything. */
  ghost predicate Carried(before: Memory, rules: RuleSet, answer: Option<bool>, t: State) {
    var ok := before.configured && ValidRules(rules) && answer == Some(true);
    && Publishing(t.writer) && !t.owner.Start?
    && (answer.None? <==> t.writer.Locked?) && (t.writer.Locked? ==> t.writer.rules == rules)
    && (t.writer.Built? ==> ok && t.writer.made in t.r.heap && t.r.heap[t.writer.made].rules == rules)
    && (Pending(t.writer) ==> ok)
    && (t.writer.Releasing? ==> t.writer.published == ok && t.writer.result == Result(before, ok))
    && (t.writer.Locked? || (t.writer.Releasing? && !ok) ==> t.r.heap == before.heap && t.r.current == before.current)
    && t.r.configured == before.configured
    && t.r.published == before.published + IfOk(Pending(t.writer) || (t.writer.Releasing? && ok), rules)
    && t.r.failed == before.failed + (if t.writer.Releasing? && before.configured && !ok then 1 else 0)
  }

  /** What `dp_publish_rules` returns; a build fails in several ways, for which -EINVAL stands. */
  function Result(before: Memory, ok: bool): int {
    if ok then 0 else if before.configured then -EINVAL else -ENODEV
  }

  lemma LockTaken(s: State, rules: RuleSet, granted: bool)
    requires Inv(s) && s.writer.Idle? && !s.owner.Start?
    ensures Carried(s.r, rules, None, Next(s, ByWriter(rules, granted)))
  {
    hide ValidRules, MemoryOk, OwnerOk, CountsOk, WorkerOk;
  }

  lemma CarriedByOthers(before: Memory, rules: RuleSet, answer: Option<bool>, t: State, e: Event)
    requires Inv(t) && Carried(before, rules, answer, t) && !e.ByWriter?
    ensures Carried(before, rules, answer, Next(t, e))
  {
    hide ValidRules, CountsOk, WorkerOk, Placed, FreedOnce, Accounts, HeapOk, Work, WorkersStopped;
  }

  lemma CarriedByWriter(before: Memory, rules: RuleSet, answer: Option<bool>, t: State, e: Event)
    requires Inv(t) && Carried(before, rules, answer, t) && e.ByWriter? && !t.writer.Releasing?
    ensures Carried(before, rules, if answer.Some? then answer else Some(e.granted), Next(t, e))
  {
    hide ValidRules, CountsOk, WorkerOk, Placed, FreedOnce, Accounts, Work, WorkersStopped;
  }

  lemma Released(s: State, rules: RuleSet, answer: Option<bool>, t: State, e: Event)
    requires Inv(s) && s.writer.Idle? && Inv(t) && Carried(s.r, rules, answer, t) && Next(t, e).writer.Idle?
    ensures answer.Some? && t.writer.Releasing?
    ensures var ok := s.r.configured && ValidRules(rules) && answer == Some(true);
            t.writer.result == Result(s.r, ok) && Decided(s.r, rules, ok, Next(t, e).r)
  {
    hide ValidRules, CountsOk, WorkerOk, Placed, FreedOnce, Work, WorkersStopped;
    if s.r.configured {
      ConfiguredBefore(s);
    }
  }

  lemma ConfiguredBefore(s: State)
    requires Inv(s) && s.writer.Idle? && s.r.configured
    ensures s.r.published != []
  {
    hide CountsOk, WorkerOk, Placed, MemoryOk;
  }

  /** From the step that takes the lock on, as long as it is held. */
  lemma {:induction false} CarriedAlong(s: State, sched: Schedule, k: nat, j: nat)
    requires Inv(s) && At(s, sched, k).writer.Idle? && !At(s, sched, k).owner.Start? && sched(k).ByWriter?
    requires k < j && forall i | k < i <= j :: !At(s, sched, i).writer.Idle?
    ensures Carried(At(s, sched, k).r, sched(k).rules, Answer(sched, k + 1, j), At(s, sched, j))
  {
    hide MemoryOk, OwnerOk, CountsOk, WorkerOk, Next, Carried, At;
    var before, rules := At(s, sched, k).r, sched(k).rules;
    AtKeeps(s, sched, j - 1);
    AtNext(s, sched, j - 1);
    if j == k + 1 {
      LockTaken(At(s, sched, k), rules, sched(k).granted);
    } else {
      CarriedAlong(s, sched, k, j - 1);
      AnswerNext(sched, k + 1, j - 1);
      HeldOn(before, rules, Answer(sched, k + 1, j - 1), At(s, sched, j - 1), sched(j - 1));
    }
  }

  lemma HeldOn(before: Memory, rules: RuleSet, answer: Option<bool>, t: State, e: Event)
    requires Inv(t) && Carried(before, rules, answer, t) && !Next(t, e).writer.Idle?
    ensures Carried(before, rules, if answer.None? && e.ByWriter? then Some(e.granted) else answer, Next(t, e))
  {
    hide Inv, Carried;
    if e.ByWriter? {
      CarriedByWriter(before, rules, answer, t, e);
    } else {
      CarriedByOthers(before, rules, answer, t, e);
    }
  }

  lemma {:induction false} AnswerNext(sched: Schedule, from: nat, until: nat)
    requires from <= until
    ensures var before := Answer(sched, from, until);
            Answer(sched, from, until + 1) == (if before.None? && sched(until).ByWriter? then Some(sched(until).granted) else before)
    decreases until - from
  {
    if from == until {
    } else {
      AnswerNext(sched, from + 1, until);
    }
  }

  /**
   A publisher step that finds the lock free takes it, and when it is given back the request has been
   decided: the rules it brought follow the published ones and are current, exactly if the runtime was
   configured, they are valid and the environment granted the build; otherwise nothing has changed but
   the failure count.
   */
  lemma RequestDecided(s: State, sched: Schedule, k: nat, m: nat)
    requires Inv(s) && At(s, sched, k).writer.Idle? && !At(s, sched, k).owner.Start? && sched(k).ByWriter?
    requires k < m && At(s, sched, m).writer.Idle? && forall i | k < i < m :: !At(s, sched, i).writer.Idle?
    ensures k + 1 < m && Answer(sched, k + 1, m - 1).Some?
    ensures var before, rules := At(s, sched, k).r, sched(k).rules;
            var ok := before.configured && ValidRules(rules) && Answer(sched, k + 1, m - 1).value;
            && Decided(before, rules, ok, At(s, sched, m).r)
            && At(s, sched, m - 1).writer == Releasing(Result(before, ok), ok)
  {
    hide MemoryOk, OwnerOk, CountsOk, WorkerOk, Next, Carried, At, ValidRules, Decided;
    AtKeeps(s, sched, k);
    AtKeeps(s, sched, m - 1);
    AtNext(s, sched, m - 1);
    LockTaken(At(s, sched, k), sched(k).rules, sched(k).granted);
    NotIdle(At(s, sched, k).r, sched(k).rules, None, Next(At(s, sched, k), sched(k)));
    CarriedAlong(s, sched, k, m - 1);
    Released(At(s, sched, k), sched(k).rules, Answer(sched, k + 1, m - 1), At(s, sched, m - 1), sched(m - 1));
    ReleasingAs(At(s, sched, k).r, sched(k).rules, Answer(sched, k + 1, m - 1), At(s, sched, m - 1));
  }

  lemma NotIdle(before: Memory, rules: RuleSet, answer: Option<bool>, t: State)
    requires Carried(before, rules, answer, t)
    ensures !t.writer.Idle?
  {
  }

  lemma ReleasingAs(before: Memory, rules: RuleSet, answer: Option<bool>, t: State)
    requires Carried(before, rules, answer, t) && t.writer.Releasing?
    ensures var ok := before.configured && ValidRules(rules) && answer == Some(true);
            t.writer == Releasing(Result(before, ok), ok)
  {
    hide ValidRules;
  }

  lemma FirstIdle(s: State, sched: Schedule, k: nat, m: nat) returns (j: nat)
    requires s.workers != [] && k < m && At(s, sched, m).writer.Idle?
    ensures k < j <= m && At(s, sched, j).writer.Idle? && forall i | k < i < j :: !At(s, sched, i).writer.Idle?
    decreases m
  {
    hide At;
    if i: nat :| k < i < m && At(s, sched, i).writer.Idle? {
      j := FirstIdle(s, sched, k, i);
    } else {
      j := m;
    }
  }

  /**
   On every schedule that is fair to the publisher and the workers, a request that finds the lock free
   comes to its end, and to the right one.
   */
  lemma RequestServed(s: State, sched: Schedule, k: nat) returns (m: nat)
    requires Inv(s) && At(s, sched, k).writer.Idle? && !At(s, sched, k).owner.Start? && sched(k).ByWriter?
    requires FairTo(s, sched, AWriter, k + 1) && FairToWorkers(s, sched, k + 1)
    ensures k + 1 < m && At(s, sched, m).writer.Idle? && forall i | k < i < m :: !At(s, sched, i).writer.Idle?
    ensures var granted := Answer(sched, k + 1, m - 1);
            && granted.Some?
            && var before, rules := At(s, sched, k).r, sched(k).rules;
            var ok := before.configured && ValidRules(rules) && granted.value;
            Decided(before, rules, ok, At(s, sched, m).r) && At(s, sched, m - 1).writer == Releasing(Result(before, ok), ok)
  {
    hide MemoryOk, OwnerOk, CountsOk, WorkerOk, Next, At, ValidRules, Decided, FairTo, FairToWorkers;
    AtKeeps(s, sched, k);
    AtNext(s, sched, k);
    LockTaken(At(s, sched, k), sched(k).rules, sched(k).granted);
    m := PublicationCompletes(s, sched, k + 1);
    m := FirstIdle(s, sched, k, m);
    RequestDecided(s, sched, k, m);
  }

  /** `rest` after a first event. */
  ghost function Then(e: Event, rest: Schedule): Schedule {
    (k: nat) => if k == 0 then e else rest(k - 1)
  }

  lemma {:induction false} AtThen(s: State, e: Event, rest: Schedule, k: nat)
    requires s.workers != []
    ensures At(s, Then(e, rest), k + 1) == At(Next(s, e), rest, k)
  {
    hide Next;
    if k == 0 {
      AtNext(s, Then(e, rest), 0);
    } else {
      AtThen(s, e, rest, k - 1);
      AtNext(s, Then(e, rest), k);
    }
  }

  lemma FairThen(s: State, e: Event, rest: Schedule, a: Actor)
    requires s.workers != [] && FairTo(Next(s, e), rest, a, 0)
    ensures FairTo(s, Then(e, rest), a, 1)
  {
    hide Next, At, HasWork;
    var sched := Then(e, rest);
    forall j: nat | 1 <= j && HasWork(At(s, sched, j), a)
      ensures SoonFrom(sched, a, j)
    {
      AtThen(s, e, rest, j - 1);
      assert SoonFrom(rest, a, j - 1);
      var m: nat :| j - 1 <= m && By(rest(m), a);
      assert By(sched(m + 1), a);
    }
  }

  /** From every reachable state with a free lock some schedule lets a request for these rules in and is fair to it. */
  lemma RequestScheduleExists(s: State, rules: RuleSet) returns (sched: Schedule)
    requires Inv(s) && s.writer.Idle? && !s.owner.Start?
    ensures sched(0) == ByWriter(rules, true) && FairTo(s, sched, AWriter, 1) && FairToWorkers(s, sched, 1)
  {
    hide MemoryOk, OwnerOk, CountsOk, WorkerOk, Next, FairTo;
    var e := ByWriter(rules, true);
    StepKeeps(s, e);
    var rest := FairScheduleExists(Next(s, e));
    sched := Then(e, rest);
    FairThen(s, e, rest, AWriter);
    forall i | 0 <= i < |s.workers|
      ensures FairTo(s, sched, AWorker(i), 1)
    {
      FairThen(s, e, rest, AWorker(i));
    }
  }

  // ---------- Configure ----------

  /** `dp_configure_rules` publishes its rules as generation 1, or nothing; only a failed build is counted. */
  lemma ConfigureDecided(n: nat, events: seq<Event>, a: OwnerInput)
    requires n > 0 && Run(n, events).owner.Start?
    ensures var s, t := Run(n, events), Run(n, events + [ByOwner(a)]);
            var ok := a.qsbr && ValidRules(a.rules) && a.granted;
            && s.r.published == [] && s.r.failed == 0
            && t.r.published == IfOk(ok, a.rules)
            && t.r.failed == (if a.qsbr && !ok then 1 else 0)
            && t.r.generation == t.r.success == t.r.returned == |t.r.published|
            && (t.r.configured <==> ok) && t.owner == (if ok then Ready else Closing)
  {
    hide MemoryOk, CountsOk, WorkerOk, ValidRules, Run;
    RunKeeps(n, events);
    StartUnfailed(n, events);
    RunNext(n, events, ByOwner(a));
  }

  lemma RunNext(n: nat, events: seq<Event>, e: Event)
    requires n > 0
    ensures Run(n, events + [e]) == Next(Run(n, events), e)
  {
    hide Next;
    assert (events + [e])[..|events|] == events;
  }

  /** Before configure nothing has been counted. */
  lemma {:induction false} StartUnfailed(n: nat, events: seq<Event>)
    requires n > 0 && Run(n, events).owner.Start?
    ensures Run(n, events).r == Initial(n).r
  {
    if events == [] {
    } else {
      var front := events[..|events| - 1];
      RunKeeps(n, front);
      hide MemoryOk, CountsOk, WorkerOk, ValidRules, Run;
      StartStep(Run(n, front), events[|events| - 1]);
      assert events == front + [events[|events| - 1]];
      RunNext(n, front, events[|events| - 1]);
      StartUnfailed(n, front);
    }
  }

  lemma StartStep(s: State, e: Event)
    requires Inv(s) && Next(s, e).owner.Start?
    ensures s.owner.Start? && Next(s, e).r == s.r
  {
    hide MemoryOk, CountsOk, WorkerOk, ValidRules, Placed, Work, WorkersStopped;
  }

  // ---------- All requests of a run ----------

  /** The request that holds the lock and has not been answered, after `e`. */
  ghost function AskingNext(s: State, asking: Option<RuleSet>, e: Event): Option<RuleSet> {
    if !e.ByWriter? then asking else if s.writer.Idle? && !s.owner.Start? then Some(e.rules) else None
  }

  /** What `e` decides: configure, or the request that is being answered. */
  ghost function Newly(s: State, asking: Option<RuleSet>, e: Event): seq<RuleSet> {
    match e
    case ByOwner(a) => IfOk(s.owner.Start? && a.qsbr && ValidRules(a.rules) && a.granted, a.rules)
    case ByWriter(_, granted) =>
      if asking.None? then [] else IfOk(s.r.configured && ValidRules(asking.value) && granted, asking.value)
    case _ => []
  }

  ghost function Asking(n: nat, events: seq<Event>): Option<RuleSet>
    requires n > 0
  {
    if events == [] then None
    else
      var front := events[..|events| - 1];
      AskingNext(Run(n, front), Asking(n, front), events[|events| - 1])
  }

  /** The rules of configure and of the requests that succeed, in the order in which they are decided. */
  ghost function Accepted(n: nat, events: seq<Event>): seq<RuleSet>
    requires n > 0
  {
    if events == [] then []
    else
      var front := events[..|events| - 1];
      Accepted(n, front) + Newly(Run(n, front), Asking(n, front), events[|events| - 1])
  }

  /** A snapshot built and not yet exchanged. */
  ghost function AboutToPublish(s: State): seq<RuleSet>
    requires s.writer.Built? ==> s.writer.made in s.r.heap
  {
    if s.writer.Built? then [s.r.heap[s.writer.made].rules] else []
  }

  ghost predicate Follows(s: State, asking: Option<RuleSet>, accepted: seq<RuleSet>) {
    && asking == (if s.writer.Locked? then Some(s.writer.rules) else None)
    && (s.writer.Built? ==> s.writer.made in s.r.heap)
    && accepted == s.r.published + AboutToPublish(s)
  }

  lemma FollowsWriter(s: State, asking: Option<RuleSet>, accepted: seq<RuleSet>, e: Event)
    requires Inv(s) && Follows(s, asking, accepted) && e.ByWriter?
    ensures Follows(Next(s, e), AskingNext(s, asking, e), accepted + Newly(s, asking, e))
  {
    hide ValidRules, CountsOk, WorkerOk, Placed, FreedOnce, Accounts, Work, WorkersStopped;
  }

  lemma FollowsConfigure(s: State, asking: Option<RuleSet>, accepted: seq<RuleSet>, e: Event)
    requires Inv(s) && Follows(s, asking, accepted) && e.ByOwner? && s.owner.Start?
    ensures Follows(Next(s, e), asking, accepted + Newly(s, asking, e))
  {
    hide ValidRules, CountsOk, WorkerOk, Placed, FreedOnce, Accounts, Work, RunStep, TearStep;
  }

  lemma FollowsOwner(s: State, asking: Option<RuleSet>, accepted: seq<RuleSet>, e: Event)
    requires Inv(s) && Follows(s, asking, accepted) && e.ByOwner? && !s.owner.Start?
    ensures Follows(Next(s, e), asking, accepted)
  {
    hide ValidRules, CountsOk, WorkerOk, Placed, MemoryOk, Work, Configure, WorkersStopped, Reclaim;
    if s.owner.TearSwapped? {
      ReclaimKeepsPublished(s.r, s.owner.prior);
    }
  }

  lemma ReclaimKeepsPublished(r: Memory, prior: Option<SnapId>)
    ensures Reclaim(r, prior, false).0.published == r.published
  {
  }

  lemma FollowsOthers(s: State, asking: Option<RuleSet>, accepted: seq<RuleSet>, e: Event)
    requires s.workers != [] && Follows(s, asking, accepted) && (e.ByWorker? || e.ByStop?)
    ensures Follows(Next(s, e), asking, accepted)
  {
    hide Work;
  }

  lemma FollowsStep(s: State, asking: Option<RuleSet>, accepted: seq<RuleSet>, e: Event)
    requires Inv(s) && Follows(s, asking, accepted)
    ensures Follows(Next(s, e), AskingNext(s, asking, e), accepted + Newly(s, asking, e))
  {
    hide MemoryOk, OwnerOk, CountsOk, WorkerOk, Next, ValidRules, Follows;
    if e.ByWriter? {
      FollowsWriter(s, asking, accepted, e);
    } else if e.ByOwner? && s.owner.Start? {
      FollowsConfigure(s, asking, accepted, e);
    } else {
      assert accepted + Newly(s, asking, e) == accepted;
      if e.ByOwner? {
        FollowsOwner(s, asking, accepted, e);
      } else {
        FollowsOthers(s, asking, accepted, e);
      }
    }
  }

  /** The published rules are the accepted ones, but for one that is about to be exchanged. */
  lemma {:induction false} PublishedAreAccepted(n: nat, events: seq<Event>)
    requires n > 0
    ensures Follows(Run(n, events), Asking(n, events), Accepted(n, events))
  {
    hide Next, Inv, ValidRules, Follows, AskingNext, Newly;
    if events == [] {
      NothingAccepted(n);
    } else {
      var front := events[..|events| - 1];
      PublishedAreAccepted(n, front);
      RunKeeps(n, front);
      FollowsStep(Run(n, front), Asking(n, front), Accepted(n, front), events[|events| - 1]);
    }
  }

  lemma NothingAccepted(n: nat)
    requires n > 0
    ensures Follows(Run(n, []), Asking(n, []), Accepted(n, []))
  {
  }

  /**
   Linearization in terms of requests: the burst of generation `g` sends exactly what the pure router
   makes of its packets under the rules of the `g`-th accepted request, configure being the first.
   */
  lemma BurstsServeRequests(n: nat, events: seq<Event>, i: nat)
    requires i < n
    ensures var accepted, log := Accepted(n, events), Run(n, events).workers[i].log;
            && (forall k | 0 <= k < |log| ::
                  var b := log[k];
                  && 1 <= b.generation <= |accepted| && b.floor <= b.generation
                  && ValidRules(accepted[b.generation - 1])
                  && Somes(b.outs) == RouteAll(accepted[b.generation - 1], b.burst))
            && (forall j, k | 0 <= j < k < |log| :: log[j].generation <= log[k].generation)
  {
    hide Run, Inv, Routes, ValidRules, Accepted, Asking, AboutToPublish;
    BurstsLinearize(n, events, i);
    PublishedAreAccepted(n, events);
  }
}
