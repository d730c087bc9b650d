/** Who owns what between configure and EAL cleanup, and in which order it is given back. */
module Lifecycle {
  import opened Actions

  /** What a DPDK call returns: 0, or a negative error. */
  type Answer = x: int | x <= 0

  /** A port's flags; `open` is the environment's side: the port may hold mbufs of the pool. */
  datatype Port = Port(owned: bool, started: bool, open: bool)

  /** What `dp_stats` says about the release of ports and pool. */
  datatype ReleaseStats = ReleaseStats(portsClosed: nat, poolInUse: nat, poolFreed: bool)

  /**
   The ownership flags of `dp`: `active` says that a rule snapshot is current, `alive` that
   `dp_workers_stopped` would say no.
   */
  datatype Flags = Flags(attempted: bool, initialized: bool, configured: bool, ready: bool, running: bool, ran: bool,
                         alive: bool, pool: bool, rx: Port, tx: Port, active: bool, qsbr: bool, writer: bool,
                         stats: ReleaseStats)

  const CLOSED := Port(false, false, false)
  const IN_USE := Port(true, true, true)
  const NO_STATS := ReleaseStats(0, 0, false)
  const BEFORE_INIT := Flags(false, false, false, false, false, false, false, false, CLOSED, CLOSED, false, false, false, NO_STATS)

  /** The environment's answers while one port is set up, and while it is torn down. */
  datatype PortUp = PortUp(configure: Answer, queues: Answer, start: Answer)
  datatype PortDown = PortDown(stop: Answer, close: Answer)

  datatype SetupAnswers = SetupAnswers(checks: Answer, pool: bool, rx: PortUp, tx: PortUp)
  datatype TeardownAnswers = TeardownAnswers(rx: PortDown, tx: PortDown, inUse: nat)

  // ---------- What the operations do ----------

  /** A port once its setup has been tried: the pool is handed to it before its queues can fail. */
  function PortAfterSetup(p: Port, a: PortUp): Port {
    if a.configure < 0 then p
    else if a.queues < 0 || a.start < 0 then p.(open := true)
    else p.(open := true, started := true)
  }

  function FirstFailure(a: Answer, b: Answer): Answer {
    if a < 0 then a else b
  }

  function SetupError(a: PortUp): Answer {
    FirstFailure(a.configure, FirstFailure(a.queues, a.start))
  }

  /** What `dp_dataplane_setup` leaves and returns: ownership is recorded before anything is half built. */
  ghost predicate SetUp(f: Flags, a: SetupAnswers, g: Flags, ret: int) {
    if !f.initialized then g == f && ret == -ENODEV
    else if f.pool || f.ready then g == f && ret == -EALREADY
    else if !f.configured then g == f && ret == -EINVAL
    else if a.checks < 0 then g == f && ret == a.checks
    else
      var rx, tx := f.rx.(owned := true), f.tx.(owned := true);
      if !a.pool then g == f.(rx := rx, tx := tx) && ret == -ENOMEM
      else
        && ret == FirstFailure(SetupError(a.rx), SetupError(a.tx))
        && g == f.(pool := true, ready := ret == 0, rx := PortAfterSetup(rx, a.rx),
                   tx := if SetupError(a.rx) < 0 then tx else PortAfterSetup(tx, a.tx))
  }

  /** An owned port loses `started` if its stop succeeds, and ownership if its close succeeds. */
  function PortAfterTeardown(p: Port, a: PortDown): Port {
    if !p.owned then p
    else Port(a.close < 0, p.started && a.stop < 0, p.open && a.close < 0)
  }

  /** The first failure among the calls made on a port. */
  function PortError(p: Port, a: PortDown): Answer {
    if !p.owned then 0 else if p.started then FirstFailure(a.stop, a.close) else a.close
  }

  function ClosedNow(p: Port, a: PortDown): nat {
    if p.owned && a.close == 0 then 1 else 0
  }

  /** What `dp_dataplane_teardown` leaves and returns. */
  ghost predicate TornDown(f: Flags, a: TeardownAnswers, g: Flags, ret: int) {
    if f.running || f.alive then g == f && ret == -EBUSY
    else
      var rx, tx := PortAfterTeardown(f.rx, a.rx), PortAfterTeardown(f.tx, a.tx);
      var error := FirstFailure(PortError(f.rx, a.rx), PortError(f.tx, a.tx));
      var closed := !rx.owned && !tx.owned;
      && g == f.(configured := false, ready := false, active := false, qsbr := false, rx := rx, tx := tx,
                 pool := f.pool && !(closed && a.inUse == 0),
                 stats := ReleaseStats(f.stats.portsClosed + ClosedNow(f.rx, a.rx) + ClosedNow(f.tx, a.tx),
                                       if f.pool && closed then a.inUse else f.stats.poolInUse,
                                       f.stats.poolFreed || (f.pool && closed && a.inUse == 0)))
      && ret == if error == 0 && f.pool && closed && a.inUse != 0 then -EBUSY else error
  }

  lemma TornDownBySteps(f: Flags, a: TeardownAnswers, g: Flags, ret: int, error: int, closed: nat)
    requires !f.running && !f.alive
    requires !g.configured && !g.ready && !g.active && !g.qsbr
    requires g.attempted == f.attempted && g.initialized == f.initialized && g.running == f.running && g.ran == f.ran
    requires g.alive == f.alive && g.writer == f.writer
    requires g.rx == PortAfterTeardown(f.rx, a.rx) && g.tx == PortAfterTeardown(f.tx, a.tx)
    requires error == FirstFailure(PortError(f.rx, a.rx), PortError(f.tx, a.tx))
    requires closed == f.stats.portsClosed + ClosedNow(f.rx, a.rx) + ClosedNow(f.tx, a.tx)
    requires var due := f.pool && !g.rx.owned && !g.tx.owned;
             && g.pool == (f.pool && !(due && a.inUse == 0))
             && g.stats == (if due then ReleaseStats(closed, a.inUse, f.stats.poolFreed || a.inUse == 0)
                            else f.stats.(portsClosed := closed))
             && ret == if error == 0 && due && a.inUse != 0 then -EBUSY else error
    ensures TornDown(f, a, g, ret)
  {
    hide PortAfterTeardown, PortError, ClosedNow;
  }

  /** Something `dp_runtime_cleanup` refuses to run under. */
  predicate StillHeld(f: Flags) {
    || f.running || f.alive || f.pool || f.rx.owned || f.tx.owned || f.rx.started || f.tx.started
    || f.active || f.qsbr || f.writer || f.configured
  }

  ghost predicate CleanedUp(f: Flags, answer: Answer, g: Flags, ret: int) {
    if !f.initialized then g == f && ret == -ENODEV
    else if StillHeld(f) then g == f && ret == -EBUSY
    else g == f.(initialized := false) && ret == answer
  }

  // ---------- The operations themselves ----------

  /** A worker's flags as other threads read them. */
  datatype WorkerFlags = WorkerFlags(launched: bool, readerRegistered: bool)

  class Runtime {
    var attempted: bool
    var initialized: bool
    var configured: bool
    var ready: bool
    var running: bool
    var ran: bool
    var pool: bool
    var ports: array<Port>
    var active: bool
    var qsbr: bool
    var writer: bool
    var activeWorkers: nat
    var registeredReaders: nat
    var workers: seq<WorkerFlags>
    var stats: ReleaseStats

    ghost predicate Valid()
      reads this
    {
      ports.Length == 2
    }

    ghost predicate Alive()
      reads this`activeWorkers, this`registeredReaders, this`workers
    {
      activeWorkers != 0 || registeredReaders != 0
      || exists i | 0 <= i < |workers| :: workers[i].launched || workers[i].readerRegistered
    }

    ghost function View(): Flags
      reads this, ports
      requires Valid()
    {
      Flags(attempted, initialized, configured, ready, running, ran, Alive(), pool, ports[0], ports[1], active, qsbr, writer, stats)
    }

    constructor ()
      ensures Valid() && View() == BEFORE_INIT && fresh(ports)
    {
      attempted, initialized, configured, ready, running, ran, pool := false, false, false, false, false, false, false;
      active, qsbr, writer := false, false, false;
      ports := new Port[2](_ => CLOSED);
      activeWorkers, registeredReaders, stats := 0, 0, NO_STATS;
      workers := [];
    }

    /** `dp_workers_stopped`. */
    method WorkersStopped() returns (stopped: bool)
      ensures stopped == !Alive()
    {
      if activeWorkers != 0 || registeredReaders != 0 {
        return false;
      }
      for i := 0 to |workers|
        invariant forall j | 0 <= j < i :: !workers[j].launched && !workers[j].readerRegistered
      {
        if workers[i].launched || workers[i].readerRegistered {
          return false;
        }
      }
      return true;
    }

    method SetupPort(i: nat, a: PortUp) returns (ret: int)
      requires Valid() && i < 2
      modifies ports
      ensures ret == SetupError(a) && ports[i] == PortAfterSetup(old(ports[i]), a) && ports[1 - i] == old(ports[1 - i])
    {
      ret := a.configure;
      if ret < 0 {
        return;
      }
      ports[i] := ports[i].(open := true);
      ret := a.queues;
      if ret < 0 {
        return;
      }
      ret := a.start;
      if ret < 0 {
        return;
      }
      ports[i] := ports[i].(started := true);
    }

    /** Both ports, up to the first failure. */
    method SetupPorts(a: SetupAnswers) returns (ret: int)
      requires Valid()
      modifies ports
      ensures ret == FirstFailure(SetupError(a.rx), SetupError(a.tx))
      ensures ports[0] == PortAfterSetup(old(ports[0]), a.rx)
      ensures ports[1] == if SetupError(a.rx) < 0 then old(ports[1]) else PortAfterSetup(old(ports[1]), a.tx)
    {
      hide PortAfterSetup, SetupError;
      for i := 0 to 2
        invariant i == 0 ==> ports[0] == old(ports[0])
        invariant i > 0 ==> SetupError(a.rx) == 0 && ports[0] == PortAfterSetup(old(ports[0]), a.rx)
        invariant i < 2 ==> ports[1] == old(ports[1])
        invariant i == 2 ==> SetupError(a.tx) == 0 && ports[1] == PortAfterSetup(old(ports[1]), a.tx)
      {
        ret := SetupPort(i, if i == 0 then a.rx else a.tx);
        if ret < 0 {
          return;
        }
      }
      return 0;
    }

    method DataplaneSetup(a: SetupAnswers) returns (ret: int)
      requires Valid()
      modifies this`pool, this`ready, ports
      ensures Valid() && SetUp(old(View()), a, View(), ret)
    {
      hide Alive, PortAfterSetup, SetupError;
      if !initialized {
        return -ENODEV;
      }
      if pool || ready {
        return -EALREADY;
      }
      if !configured {
        return -EINVAL;
      }
      if a.checks < 0 {
        return a.checks;
      }
      ports[0], ports[1] := ports[0].(owned := true), ports[1].(owned := true);
      if !a.pool {
        return -ENOMEM;
      }
      pool := true;
      ret := SetupPorts(a);
      if ret == 0 {
        ready := true;
      }
    }

    /** The stop and close of one port, after `error`. */
    method ReleasePort(i: nat, a: PortDown, error: int) returns (firstError: int)
      requires Valid() && i < 2
      modifies ports, this`stats
      ensures stats == old(stats).(portsClosed := old(stats.portsClosed) + ClosedNow(old(ports[i]), a))
      ensures ports[i] == PortAfterTeardown(old(ports[i]), a) && ports[1 - i] == old(ports[1 - i])
      ensures firstError == if error != 0 then error else PortError(old(ports[i]), a)
    {
      firstError := error;
      if !ports[i].owned {
        return;
      }
      if ports[i].started {
        var ret := a.stop;
        if ret < 0 && firstError == 0 {
          firstError := ret;
        }
        if ret == 0 {
          ports[i] := ports[i].(started := false);
        }
      }
      var ret := a.close;
      if ret < 0 && firstError == 0 {
        firstError := ret;
      }
      if ret == 0 {
        ports[i] := ports[i].(owned := false, open := false);
        stats := stats.(portsClosed := stats.portsClosed + 1);
      }
    }

    /** Both owned ports; a failure does not keep the other port from being released. */
    method ReleasePorts(a: TeardownAnswers) returns (firstError: int)
      requires Valid()
      modifies ports, this`stats
      ensures Alive() == old(Alive())
      ensures ports[0] == PortAfterTeardown(old(ports[0]), a.rx) && ports[1] == PortAfterTeardown(old(ports[1]), a.tx)
      ensures firstError == FirstFailure(PortError(old(ports[0]), a.rx), PortError(old(ports[1]), a.tx))
      ensures stats == old(stats).(portsClosed := old(stats.portsClosed) + ClosedNow(old(ports[0]), a.rx) + ClosedNow(old(ports[1]), a.tx))
    {
      hide PortAfterTeardown, PortError, ClosedNow;
      firstError := 0;
      for i := 0 to 2
        invariant stats == old(stats).(portsClosed := old(stats.portsClosed)
                    + (if i > 0 then ClosedNow(old(ports[0]), a.rx) else 0) + if i > 1 then ClosedNow(old(ports[1]), a.tx) else 0)
        invariant i == 0 ==> firstError == 0 && ports[0] == old(ports[0])
        invariant i > 0 ==> ports[0] == PortAfterTeardown(old(ports[0]), a.rx)
        invariant i == 1 ==> firstError == PortError(old(ports[0]), a.rx)
        invariant i < 2 ==> ports[1] == old(ports[1])
        invariant i == 2 ==> ports[1] == PortAfterTeardown(old(ports[1]), a.tx)
        invariant i == 2 ==> firstError == FirstFailure(PortError(old(ports[0]), a.rx), PortError(old(ports[1]), a.tx))
      {
        firstError := ReleasePort(i, if i == 0 then a.rx else a.tx, firstError);
      }
    }

    method DataplaneTeardown(a: TeardownAnswers) returns (ret: int)
      requires Valid()
      modifies this`ready, this`active, this`qsbr, this`configured, this`pool, this`stats, ports
      ensures Valid() && TornDown(old(View()), a, View(), ret)
    {
      if running {
        return -EBUSY;
      }
      var stopped := WorkersStopped();
      if !stopped {
        return -EBUSY;
      }
      ret := ReleaseAll(a);
    }

    /** Rules, under the writer lock, then ports, then pool. */
    method ReleaseAll(a: TeardownAnswers) returns (ret: int)
      requires Valid() && !running && !Alive()
      modifies this`ready, this`active, this`qsbr, this`configured, this`pool, this`stats, ports
      ensures Valid() && TornDown(old(View()), a, View(), ret)
    {
      hide Alive, PortAfterTeardown, PortError, ClosedNow, TornDown, FirstFailure;
      ghost var before := View();
      ready := false;
      active, qsbr, configured := false, false, false;
      assert !Alive();
      var firstError := ReleasePorts(a);
      ghost var closed := stats.portsClosed;
      ret := FreePool(a.inUse, firstError);
      TornDownBySteps(before, a, View(), ret, firstError, closed);
    }

    /** The queues of a port hold mbufs themselves, so the pool waits for both closes. */
    method FreePool(inUse: nat, firstError: int) returns (ret: int)
      requires Valid()
      modifies this`pool, this`stats
      ensures Alive() == old(Alive())
      ensures var due := old(pool) && !ports[0].owned && !ports[1].owned;
              && pool == (old(pool) && !(due && inUse == 0))
              && stats == (if due then old(stats).(poolInUse := inUse, poolFreed := old(stats).poolFreed || inUse == 0) else old(stats))
              && ret == if firstError == 0 && due && inUse != 0 then -EBUSY else firstError
    {
      if pool && !ports[0].owned && !ports[1].owned {
        stats := stats.(poolInUse := inUse);
        if inUse != 0 {
          return if firstError != 0 then firstError else -EBUSY;
        }
        pool := false;
        stats := stats.(poolFreed := true);
      }
      return firstError;
    }

    /** `answer` is what `rte_eal_cleanup` returns. */
    method RuntimeCleanup(answer: Answer) returns (ret: int)
      requires Valid()
      modifies this`initialized
      ensures Valid() && CleanedUp(old(View()), answer, View(), ret)
    {
      hide Alive;
      if !initialized {
        return -ENODEV;
      }
      var stopped := WorkersStopped();
      if running || !stopped || pool || ports[0].owned || ports[1].owned || ports[0].started || ports[1].started ||
         active || qsbr || writer || configured {
        return -EBUSY;
      }
      initialized := false;
      return answer;
    }

    /** `dp_dataplane_get_stats`, as far as the release of resources goes. */
    method GetStats() returns (ret: int, result: ReleaseStats)
      ensures ret == (if running then -EBUSY else 0) && result == if running then NO_STATS else stats
    {
      if running {
        return -EBUSY, NO_STATS;
      }
      return 0, stats;
    }
  }

  // ---------- Histories ----------

  /** One call of the control side. Rule configuration and publication only show their flags here. */
  datatype Call =
    | Init(ok: bool)
    | Configure(qsbr: bool, built: bool)
    | SetupCall(up: SetupAnswers)
    | RunEnter
    | WorkersMove(alive: bool)
    | RunReturn
    | PublishEnter
    | PublishReturn
    | Teardown(down: TeardownAnswers)
    | Cleanup(answer: Answer)

  /**
   What a call does. A run returns only with its workers stopped (`PublicationSafety.RunReturnsStopped`),
   and a teardown that gets past its first check waits for the writer lock.
   */
  ghost predicate Does(f: Flags, c: Call, g: Flags, ret: int) {
    match c
    case Init(ok) => g == if f.attempted then f else f.(attempted := true, initialized := ok)
    case Configure(qsbr, built) =>
      if !f.initialized || f.configured || f.ready || f.running || f.ran then g == f
      else if !(f.qsbr || qsbr) then g == f
      else if !built then g == f.(qsbr := true)
      else g == f.(qsbr := true, active := true, configured := true)
    case SetupCall(up) => SetUp(f, up, g, ret)
    case RunEnter => g == if f.ready && !f.ran then f.(ran := true, running := true) else f
    case WorkersMove(alive) => g == if f.running then f.(alive := alive) else f
    case RunReturn => !f.alive && g == f.(running := false)
    case PublishEnter => g == if f.initialized then f.(writer := true) else f
    case PublishReturn => g == f.(writer := false)
    case Teardown(down) => (f.running || f.alive || !f.writer) && TornDown(f, down, g, ret)
    case Cleanup(answer) => CleanedUp(f, answer, g, ret)
  }

  /** An open port is owned and has its pool; a runtime that is not initialized holds nothing. */
  predicate Safe(f: Flags) {
    && (f.rx.open ==> f.rx.owned && f.pool) && (f.tx.open ==> f.tx.owned && f.pool)
    && (f.initialized ==> f.attempted) && (f.ready ==> f.pool) && (f.alive ==> f.running)
    && (!f.initialized ==> !StillHeld(f) && !f.rx.open && !f.tx.open && !f.ready)
  }

  /** A port marked started that is no longer owned: no later teardown will stop it. */
  predicate Stale(p: Port) {
    p.started && !p.owned
  }

  predicate Clean(f: Flags) {
    !Stale(f.rx) && !Stale(f.tx)
  }

  /** `fs` are the states before, between and after `calls`, which return `rets`. */
  ghost predicate History(fs: seq<Flags>, calls: seq<Call>, rets: seq<int>) {
    && |fs| == |calls| + 1 && |rets| == |calls| && fs[0] == BEFORE_INIT
    && forall k | 0 <= k < |calls| :: Does(fs[k], calls[k], fs[k + 1], rets[k])
  }

  lemma SetupKeepsSafe(f: Flags, up: SetupAnswers, g: Flags, ret: int)
    requires Safe(f) && SetUp(f, up, g, ret)
    ensures Safe(g) && (Clean(f) ==> Clean(g))
  {
  }

  lemma TeardownKeepsSafe(f: Flags, down: TeardownAnswers, g: Flags, ret: int)
    requires Safe(f) && TornDown(f, down, g, ret)
    ensures Safe(g)
  {
    hide PortError, FirstFailure;
  }

  lemma CleanupKeepsSafe(f: Flags, answer: Answer, g: Flags, ret: int)
    requires Safe(f) && CleanedUp(f, answer, g, ret)
    ensures Safe(g) && (Clean(f) ==> Clean(g))
  {
  }

  lemma StartKeepsSafe(f: Flags, c: Call, g: Flags, ret: int)
    requires Safe(f) && Does(f, c, g, ret) && (c.Init? || c.Configure?)
    ensures Safe(g) && (Clean(f) ==> Clean(g))
  {
    hide SetUp, TornDown, CleanedUp;
  }

  lemma RunKeepsSafe(f: Flags, c: Call, g: Flags, ret: int)
    requires Safe(f) && Does(f, c, g, ret) && (c.RunEnter? || c.WorkersMove? || c.RunReturn? || c.PublishEnter? || c.PublishReturn?)
    ensures Safe(g) && (Clean(f) ==> Clean(g))
  {
    hide SetUp, TornDown, CleanedUp;
  }

  lemma CallKeepsSafe(f: Flags, c: Call, g: Flags, ret: int)
    requires Safe(f) && Does(f, c, g, ret)
    ensures Safe(g) && (Clean(f) && !c.Teardown? ==> Clean(g))
  {
    hide SetUp, TornDown, CleanedUp, Safe, Clean;
    match c
    case Init(_) => StartKeepsSafe(f, c, g, ret);
    case Configure(_, _) => StartKeepsSafe(f, c, g, ret);
    case SetupCall(up) => SetupKeepsSafe(f, up, g, ret);
    case Teardown(down) => TeardownKeepsSafe(f, down, g, ret);
    case Cleanup(answer) => CleanupKeepsSafe(f, answer, g, ret);
    case _ => RunKeepsSafe(f, c, g, ret);
  }

  /** After any history: an open port has its pool, and nothing outlives a cleaned-up runtime. */
  lemma {:induction false} HistorySafe(fs: seq<Flags>, calls: seq<Call>, rets: seq<int>)
    requires History(fs, calls, rets)
    ensures Safe(fs[|calls|])
    decreases |calls|
  {
    hide Does;
    var n := |calls|;
    if n == 0 {
    } else {
      HistorySafe(fs[..n], calls[..n - 1], rets[..n - 1]);
      CallKeepsSafe(fs[n - 1], calls[n - 1], fs[n], rets[n - 1]);
    }
  }

  /** The pool is freed only by a teardown, with no mbuf in use and both ports closed. */
  lemma PoolFreedLast(fs: seq<Flags>, calls: seq<Call>, rets: seq<int>, k: nat)
    requires History(fs, calls, rets) && k < |calls| && fs[k].pool && !fs[k + 1].pool
    ensures calls[k].Teardown? && calls[k].down.inUse == 0
    ensures forall p: Port | p in {fs[k + 1].rx, fs[k + 1].tx} :: !p.owned && !p.open
  {
    HistorySafe(fs[..k + 1], calls[..k], rets[..k]);
    assert Does(fs[k], calls[k], fs[k + 1], rets[k]);
  }

  /** EAL cleanup is entered only by a cleanup call that finds nothing held. */
  lemma CleanupEntersLast(fs: seq<Flags>, calls: seq<Call>, rets: seq<int>, k: nat)
    requires History(fs, calls, rets) && k < |calls| && fs[k].initialized && !fs[k + 1].initialized
    ensures calls[k].Cleanup? && !StillHeld(fs[k]) && !fs[k].rx.open && !fs[k].tx.open
  {
    HistorySafe(fs[..k + 1], calls[..k], rets[..k]);
    assert Does(fs[k], calls[k], fs[k + 1], rets[k]);
  }

  /**
   A cleanup after a teardown that returned 0 is refused exactly when some port was, on entry to that
   teardown, marked started without being owned.
   */
  lemma CleanupRefusedIff(f: Flags, down: TeardownAnswers, g: Flags, answer: Answer, h: Flags, ret: int)
    requires Safe(f) && f.initialized
    requires Does(f, Teardown(down), g, 0) && Does(g, Cleanup(answer), h, ret)
    ensures h.initialized <==> !Clean(f)
    ensures ret == if Clean(f) then answer else -EBUSY
  {
  }

  /** A port becomes stale exactly by a teardown whose stop fails and whose close succeeds. */
  lemma StaleIff(p: Port, down: PortDown)
    requires !Stale(p)
    ensures Stale(PortAfterTeardown(p, down)) <==> p.owned && p.started && down.stop < 0 && down.close == 0
  {
  }

  lemma NothingStale()
    ensures Clean(BEFORE_INIT)
  {
  }

  /** Without an earlier teardown no port is stale. */
  lemma {:induction false} FirstTeardownClean(fs: seq<Flags>, calls: seq<Call>, rets: seq<int>)
    requires History(fs, calls, rets) && forall k | 0 <= k < |calls| :: !calls[k].Teardown?
    ensures Clean(fs[|calls|])
    decreases |calls|
  {
    var n := |calls|;
    hide Safe, Clean, Does;
    if n == 0 {
      NothingStale();
    } else {
      FirstTeardownClean(fs[..n], calls[..n - 1], rets[..n - 1]);
      HistorySafe(fs[..n], calls[..n - 1], rets[..n - 1]);
      CallKeepsSafe(fs[n - 1], calls[n - 1], fs[n], rets[n - 1]);
    }
  }

  /** One failed stop: the second teardown reports success, and cleanup is refused all the same. */
  lemma StaleStartRefusesCleanup() returns (fs: seq<Flags>, calls: seq<Call>, rets: seq<int>)
    ensures History(fs, calls, rets)
    ensures |calls| == 6 && calls[4].Teardown? && rets[4] == 0 && calls[5].Cleanup? && rets[5] == -EBUSY
    ensures !fs[6].running && !fs[6].alive && !fs[6].writer
  {
    var up := SetupAnswers(0, true, PortUp(0, 0, 0), PortUp(0, 0, 0));
    var failing := TeardownAnswers(PortDown(-EIO, 0), PortDown(0, 0), 0);
    var working := TeardownAnswers(PortDown(0, 0), PortDown(0, 0), 0);
    var initialized := BEFORE_INIT.(attempted := true, initialized := true);
    var configured := initialized.(qsbr := true, active := true, configured := true);
    var ready := configured.(pool := true, ready := true, rx := IN_USE, tx := IN_USE);
    var torn := initialized.(rx := CLOSED.(started := true), stats := ReleaseStats(2, 0, true));
    fs := [BEFORE_INIT, initialized, configured, ready, torn, torn, torn];
    calls := [Init(true), Configure(true, true), SetupCall(up), Teardown(failing), Teardown(working), Cleanup(0)];
    rets := [0, 0, 0, -EIO, 0, -EBUSY];
    assert PortAfterSetup(CLOSED.(owned := true), PortUp(0, 0, 0)) == IN_USE;
  }

  /**
   A life in order: every call does its work, a teardown and a second run in the middle are turned
   away, a publication passes, and at the end nothing is held.
   */
  lemma OrderlyLife(up: SetupAnswers, down: TeardownAnswers, answer: Answer) returns (fs: seq<Flags>, calls: seq<Call>, rets: seq<int>)
    requires up == SetupAnswers(0, true, PortUp(0, 0, 0), PortUp(0, 0, 0))
    requires down == TeardownAnswers(PortDown(0, 0), PortDown(0, 0), 0)
    ensures History(fs, calls, rets)
    ensures calls == [Init(true), Configure(true, true), SetupCall(up), RunEnter, WorkersMove(true), PublishEnter,
                      PublishReturn, Teardown(down), WorkersMove(false), RunReturn, RunEnter, Teardown(down), Cleanup(answer)]
    ensures fs[5].running && fs[5].alive && fs[6].writer && !fs[7].writer
    ensures rets[7] == -EBUSY && fs[8] == fs[7] && fs[11] == fs[10] && fs[10].ran && !fs[10].running
    ensures rets[11] == 0 && rets[12] == answer && !StillHeld(fs[13]) && !fs[13].initialized && fs[13].attempted
    ensures fs[13].stats == ReleaseStats(2, 0, true)
  {
    hide Does, SetUp, TornDown, CleanedUp, StillHeld;
    var initialized, configured, ready := SetUpInOrder(up);
    var running, alive, published := RunInOrder(ready, down);
    var returned, torn, left := TornDownInOrder(running, down, answer);
    fs := [BEFORE_INIT, initialized, configured, ready, running, alive, published, alive, alive, running,
           returned, returned, torn, left];
    calls := [Init(true), Configure(true, true), SetupCall(up), RunEnter, WorkersMove(true), PublishEnter,
              PublishReturn, Teardown(down), WorkersMove(false), RunReturn, RunEnter, Teardown(down), Cleanup(answer)];
    rets := [0, 0, 0, 0, 0, 0, 0, -EBUSY, 0, 0, 0, 0, answer];
  }

  /** What setup leaves when nothing fails. */
  predicate SetUpFlags(f: Flags) {
    f == Flags(true, true, true, true, false, false, false, true, IN_USE, IN_USE, true, true, false, NO_STATS)
  }

  lemma SetUpInOrder(up: SetupAnswers) returns (initialized: Flags, configured: Flags, ready: Flags)
    requires up == SetupAnswers(0, true, PortUp(0, 0, 0), PortUp(0, 0, 0))
    ensures Does(BEFORE_INIT, Init(true), initialized, 0) && Does(initialized, Configure(true, true), configured, 0)
    ensures Does(configured, SetupCall(up), ready, 0) && SetUpFlags(ready)
  {
    hide TornDown, CleanedUp;
    initialized := BEFORE_INIT.(attempted := true, initialized := true);
    configured := initialized.(qsbr := true, active := true, configured := true);
    ready := configured.(pool := true, ready := true, rx := IN_USE, tx := IN_USE);
    assert PortAfterSetup(CLOSED.(owned := true), PortUp(0, 0, 0)) == IN_USE;
  }

  lemma RunInOrder(ready: Flags, down: TeardownAnswers) returns (running: Flags, alive: Flags, published: Flags)
    requires SetUpFlags(ready)
    ensures running == ready.(ran := true, running := true) && alive == running.(alive := true) && published == alive.(writer := true)
    ensures Does(ready, RunEnter, running, 0) && Does(running, WorkersMove(true), alive, 0)
    ensures Does(alive, PublishEnter, published, 0) && Does(published, PublishReturn, alive, 0)
    ensures Does(alive, Teardown(down), alive, -EBUSY) && Does(alive, WorkersMove(false), running, 0)
  {
    hide SetUp, CleanedUp;
    running := ready.(ran := true, running := true);
    alive := running.(alive := true);
    published := alive.(writer := true);
  }

  lemma TornDownInOrder(running: Flags, down: TeardownAnswers, answer: Answer) returns (returned: Flags, torn: Flags, left: Flags)
    requires SetUpFlags(running.(ran := false, running := false)) && running.ran && running.running
    requires down == TeardownAnswers(PortDown(0, 0), PortDown(0, 0), 0)
    ensures returned == running.(running := false)
    ensures Does(running, RunReturn, returned, 0) && Does(returned, RunEnter, returned, 0)
    ensures Does(returned, Teardown(down), torn, 0) && Does(torn, Cleanup(answer), left, answer)
    ensures !StillHeld(left) && !left.initialized && left.attempted && left.stats == ReleaseStats(2, 0, true)
  {
    hide SetUp;
    returned := running.(running := false);
    torn := BEFORE_INIT.(attempted := true, initialized := true, ran := true, stats := ReleaseStats(2, 0, true));
    left := torn.(initialized := false);
    assert PortAfterTeardown(IN_USE, PortDown(0, 0)) == CLOSED;
  }

  // ---------- The owner goroutine's end ----------

  /** The errors so far, first one first. */
  function Combine(first: seq<int>, next: int): seq<int> {
    if next == 0 then first else first + [next]
  }

  /**
   `finishLifecycle`, with publication closed: teardown, statistics, and cleanup only after a teardown
   without error. The statistics are kept even when teardown fails.
   */
  method FinishLifecycle(rt: Runtime, runErrors: seq<int>, down: TeardownAnswers, answer: Answer)
    returns (errors: seq<int>, stats: ReleaseStats)
    requires rt.Valid() && Safe(rt.View()) && Clean(rt.View())
    requires rt.initialized && !rt.writer
    modifies rt, rt.ports
    ensures rt.Valid() && rt.running == old(rt.running)
    ensures stats == if rt.running then NO_STATS else rt.View().stats
    // Never refused: EAL stays initialized only when teardown itself failed.
    ensures rt.initialized ==> |errors| > |runErrors| && errors[|runErrors|] != 0
    ensures !rt.initialized ==> !StillHeld(rt.View()) && errors == Combine(runErrors, answer)
    // Refused to a run that is not over, with both calls reporting it.
    ensures rt.running ==> rt.initialized && errors == runErrors + [-EBUSY, -EBUSY]
    // A pool whose port did not close is kept.
    ensures (rt.View().rx.open || rt.View().tx.open) ==> rt.pool && rt.initialized
  {
    ghost var before := rt.View();
    var torn := rt.DataplaneTeardown(down);
    ghost var between := rt.View();
    TeardownKeepsSafe(before, down, between, torn);
    var statsError;
    statsError, stats := rt.GetStats();
    errors := Combine(Combine(runErrors, torn), statsError);
    if torn != 0 {
      return;
    }
    var cleaned := rt.RuntimeCleanup(answer);
    errors := Combine(errors, cleaned);
    CleanupRefusedIff(before, down, between, answer, rt.View(), cleaned);
    CleanupKeepsSafe(between, answer, rt.View(), cleaned);
  }
}
