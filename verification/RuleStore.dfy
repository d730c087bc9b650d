/**
 The writer's side of publication on real snapshots: configure, publish and teardown as the lock
 holder runs them, with the grace period (proved safe and finite in Publication) between the
 exchange and the free.
 */
module RuleStore {
  import opened Actions
  import opened Rules
  import opened RuleIndex
  import opened Worker

  lemma PlusNothing(l: Live, r: Live)
    ensures Live(0, 0, 0, 0).Plus(r) == r
    ensures l.Plus(r) == r ==> l == Live(0, 0, 0, 0)
  {
  }

  class Store {
    const heap: Heap
    const stats: RuleStats
    var initialized: bool
    var ready: bool
    var running: bool
    var ran: bool
    var active: Snapshot?
    var qsbr: bool
    var configured: bool
    var generation: nat
    var success: nat
    var failed: nat
    ghost var rules: RuleSet
    ghost var base: nat

    /**
     One snapshot is alive, the one that indexes `rules`; every earlier generation has been reclaimed.
     `base` is what had been reclaimed when the rules were configured.
     */
    ghost predicate Valid()
      reads this, heap, stats, active
    {
      && (configured <==> active != null) && (configured ==> qsbr && initialized) && success == generation
      && (active != null ==>
            && ValidRules(rules) && Indexes(active, rules) && active.generation == generation
            && heap.live == Resources(active) && stats.reclaimed + 1 == base + generation)
      && (active == null ==> heap.live == Live(0, 0, 0, 0))
    }

    /** After `dp_runtime_init`. */
    constructor (heap: Heap, stats: RuleStats)
      requires heap.live == Live(0, 0, 0, 0)
      ensures Valid() && initialized && !configured && generation == 0 && this.heap == heap && this.stats == stats
    {
      this.heap, this.stats := heap, stats;
      initialized, ready, running, ran := true, false, false, false;
      active, qsbr, configured, generation, success, failed := null, false, false, 0, 0, 0;
    }

    /** `dp_configure_rules`; `created` is what creating the QSBR object returns. */
    method ConfigureRules(rs: RuleSet, created: int, env: BuildEnv) returns (ret: int)
      requires Valid() && created <= 0
      modifies this, heap, stats
      ensures Valid()
      ensures ret == 0 <==> old(initialized && !configured && !ready && !running && !ran)
                            && (old(qsbr) || created == 0) && ValidRules(rs) && Grants(env, rs)
      ensures if !old(initialized) then ret == -ENODEV
              else if old(configured || ready || running || ran) then ret == -EALREADY
              else if !old(qsbr) && created < 0 then ret == created
              else BuildCode(rs, env, ret)
      ensures ret == 0 ==> configured && rules == rs && generation == 1 && base == stats.reclaimed == old(stats.reclaimed)
      ensures ret != 0 ==> active == old(active) && generation == old(generation) && heap.live == old(heap.live) && rules == old(rules)
    {
      hide ValidRules, Grants, BuildCode, Indexes, Resources, Live.Plus, Live.Covers;
      if !initialized {
        return -ENODEV;
      }
      if configured || ready || running || ran {
        return -EALREADY;
      }
      if !qsbr {
        if created < 0 {
          return created;
        }
        qsbr := true;
      }
      var snapshot;
      ret, snapshot := SnapshotBuild(heap, rs, 1, env, stats);
      if ret < 0 {
        failed := failed + 1;
        return;
      }
      PlusNothing(heap.live, Resources(snapshot));
      active, configured, generation, success, rules, base := snapshot, true, 1, 1, rs, stats.reclaimed;
    }

    /** `dp_publish_rules`: all or nothing, and the prior snapshot with everything it owns is gone afterwards. */
    method PublishRules(rs: RuleSet, env: BuildEnv) returns (ret: int, published: nat)
      requires Valid()
      modifies this, heap, stats
      ensures Valid() && configured == old(configured) && base == old(base)
      ensures ret == 0 <==> configured && ValidRules(rs) && Grants(env, rs)
      ensures if configured then BuildCode(rs, env, ret) else ret == -ENODEV
      ensures ret == 0 ==> published == generation == old(generation) + 1 && rules == rs && fresh(active)
      ensures ret == 0 ==> stats.reclaimed == old(stats.reclaimed) + 1
      ensures ret != 0 ==> active == old(active) && generation == old(generation) && heap.live == old(heap.live) && rules == old(rules)
      ensures failed == old(failed) + if ret != 0 && configured then 1 else 0
    {
      hide ValidRules, Grants, BuildCode, Indexes, Resources;
      published := 0;
      if !initialized || !configured || !qsbr || active == null {
        return -ENODEV, published;
      }
      var next := generation + 1;
      var snapshot;
      ret, snapshot := SnapshotBuild(heap, rs, next, env, stats);
      if ret < 0 {
        failed := failed + 1;
        return;
      }
      var prior := active;
      active := snapshot;
      rules := rs;
      generation := next;
      success := success + 1;
      SnapshotFree(heap, prior, true, true, stats);
      published := next;
      return 0, published;
    }

    /** `dp_rules_teardown`. */
    method RulesTeardown()
      requires Valid()
      modifies this, heap, stats
      ensures Valid() && !configured && active == null && !qsbr && heap.live == Live(0, 0, 0, 0)
      ensures stats.reclaimed == old(stats.reclaimed) && generation == old(generation)
    {
      hide ValidRules, Indexes, Resources, Live.Plus, Live.Covers;
      if active != null {
        ghost var resources := Resources(active);
        SnapshotFree(heap, active, false, true, stats);
        PlusNothing(heap.live, resources);
        active := null;
      }
      qsbr := false;
      configured := false;
    }

    /** Workers that load the current snapshot decide every packet as the published rules do. */
    lemma CurrentDecides()
      requires Valid() && configured
      ensures Decides(active, rules)
    {
      BuiltDecides(active, rules);
    }
  }
}
