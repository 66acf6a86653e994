/// Whole runs: any sequence of boots, hot operations and cleanups within one kernel
/// boot, each of which may die at any of its states (src/runtime/boot.rs, src/runtime/hot.rs).
module Runs {
  import opened Devices
  import opened Ledgers
  import opened Lifecycle
  import opened Rules
  import opened RuleTransaction
  import opened SoftReboot
  import opened Wrappers

  datatype Operation =
    | BootOp(plan: seq<Rule>, requested: seq<Uid>, nonVfs: set<string>, calls: seq<Call>, successful: bool,
             activeTargets: seq<string>, targets: seq<string>, unmounts: seq<string>)
    | HotOp(action: Action, id: string, planned: seq<Rule>, requested: seq<Uid>,
            guarded: bool, prepared: bool, refreshed: bool)
    | CleanupOp(mountsValid: bool)

  /** What the planner promises of the rules it encodes. Targets may be taken already. */
  ghost predicate Planned(op: Operation) {
    match op
    case BootOp(plan, _, _, _, _, _, _, _) => UniqueKeys(plan) && Solid(plan)
    case HotOp(_, _, planned, _, _, _, _) => Solid(planned)
    case CleanupOp(_) => true
  }

  predicate PlansKey(op: Operation, k: Key) {
    op.BootOp? && k in KeysOf(op.plan)
  }

  /** The keys of live rules that some boot plan names. */
  function Contested(live: Live, ops: seq<Operation>): set<Key> {
    set k | k in live && exists op :: op in ops && PlansKey(op, k)
  }

  /** The mounts that a boot makes at targets it does not report. */
  function StraysOf(calls: seq<Call>, targets: seq<string>): set<LiveMount> {
    set c | c in calls && c.MountOne? && c.mount.target !in targets :: c.mount
  }

  function Strays(ops: seq<Operation>): set<LiveMount> {
    set op, m | op in ops && op.BootOp? && m in StraysOf(op.calls, op.targets) :: m
  }

  /** Any sequence of operations within one boot, each of which may die at any of
      its states. Every state of every such run satisfies the invariant: `clean`
      records nothing, `ready` is the exact difference to the baseline, an
      interrupted record names everything live, and a baseline rule can be gone only
      where a boot plan named its key. Once interrupted, nothing changes any more. */
  method AnyRun(dev: Device, ops: seq<Operation>, ghost b: Baseline)
    requires dev.Valid() && Inv(b, dev.bootId, dev.Now())
    requires b.contested == Contested(b.live, ops) && b.strays == Strays(ops)
    requires forall op :: op in ops ==> Planned(op)
    modifies dev`live, dev`uids, dev`mounts, dev`disk, dev`history, dev`refusals
    ensures dev.Valid() && old(dev.history) <= dev.history
    ensures forall i :: old(|dev.history|) <= i < |dev.history| ==> Inv(b, dev.bootId, dev.history[i])
    ensures Inv(b, dev.bootId, dev.Now())
    ensures Stuck(old(dev.disk), dev.bootId) ==> dev.Now() == old(dev.Now())
  {
    hide Inv, OwnKeys, Claims, Served;
    for n := 0 to |ops|
      invariant dev.Valid() && old(dev.history) <= dev.history
      invariant forall i :: old(|dev.history|) <= i < |dev.history| ==> Inv(b, dev.bootId, dev.history[i])
      invariant Inv(b, dev.bootId, dev.Now())
      invariant Stuck(old(dev.disk), dev.bootId) ==> dev.Now() == old(dev.Now())
    {
      var since := |dev.history| - 1;
      assert ops[n] in ops && Planned(ops[n]);
      OneOperation(dev, ops, n, b);
      var dies: bool := *;
      if dies {
        ghost var h := dev.history;
        dev.Crash(since);
        assert dev.Now() == h[|dev.history| - 1];
      }
    }
  }

  method OneOperation(dev: Device, ops: seq<Operation>, n: nat, ghost b: Baseline)
    requires dev.Valid() && Inv(b, dev.bootId, dev.Now())
    requires n < |ops| && Planned(ops[n])
    requires b.contested == Contested(b.live, ops) && b.strays == Strays(ops)
    modifies dev`live, dev`uids, dev`mounts, dev`disk, dev`history, dev`refusals
    ensures dev.Valid() && old(dev.history) <= dev.history
    ensures forall i :: old(|dev.history|) <= i < |dev.history| ==> Inv(b, dev.bootId, dev.history[i])
    ensures Inv(b, dev.bootId, dev.Now())
    ensures Stuck(old(dev.disk), dev.bootId) ==> dev.Now() == old(dev.Now()) && dev.history == old(dev.history)
  {
    match ops[n] {
      case BootOp(plan, requested, nonVfs, calls, successful, activeTargets, targets, unmounts) =>
        PlanIsOwn(b, ops, n);
        hide Inv, OwnKeys, Claims, Served, StraysAreKnown;
        var _ := Boot(dev, plan, requested, nonVfs, calls, successful, activeTargets, targets, unmounts, b);
      case HotOp(action, id, planned, requested, guarded, prepared, refreshed) =>
        hide Inv;
        var _ := HotApply(dev, action, id, planned, requested, guarded, prepared, refreshed, b);
      case CleanupOp(mountsValid) =>
        hide Inv;
        var _ := Cleanup(dev, mountsValid, b);
    }
  }

  lemma PlanIsOwn(b: Baseline, ops: seq<Operation>, n: nat)
    requires n < |ops| && ops[n].BootOp? && Planned(ops[n])
    requires b.contested == Contested(b.live, ops) && b.strays == Strays(ops)
    ensures OwnKeys(b, ops[n].plan) && StraysAreKnown(b, ops[n].calls, ops[n].targets)
  {
    forall m | MountOne(m) in ops[n].calls && m.target !in ops[n].targets ensures m in Strays(ops) {
      assert MountOne(m).mount in StraysOf(ops[n].calls, ops[n].targets);
    }
    forall r | r in ops[n].plan ensures Free(b, KeyOf(r)) {
      assert PlansKey(ops[n], KeyOf(r));
    }
  }

  /** A clean ledger of this boot means the baseline, whatever ran, as long as no
      boot plan names the key of a baseline rule and no boot mounts anything at a
      target it does not report. */
  lemma CleanMeansBaseline(b: Baseline, ops: seq<Operation>, bootId: string, s: Snap)
    requires Inv(b, bootId, s) && OfThisBoot(s.disk, bootId) && s.disk.value.phase.Clean?
    requires b.contested == Contested(b.live, ops) && b.strays == Strays(ops)
    ensures var d := s.disk.value;
            && d.rules == [] && d.pendingRules == [] && d.mounts == [] && d.isolatedUids == []
            && (d.ksuUnmounts == None || d.ksuUnmounts == Some([]))
    ensures s.uids == b.uids && b.mounts <= s.mounts <= b.mounts + Strays(ops)
    ensures Strays(ops) == {} ==> s.mounts == b.mounts
    ensures forall k :: (forall op :: op in ops ==> !PlansKey(op, k)) ==> Look(s.live, k) == Look(b.live, k)
    ensures (forall op, k :: op in ops && PlansKey(op, k) ==> k !in b.live) ==> s.live == b.live
  {
    forall k | forall op :: op in ops ==> !PlansKey(op, k) ensures Look(s.live, k) == Look(b.live, k) {
      assert Kept(b, s.live, k) && k !in b.contested;
    }
    if forall op, k :: op in ops && PlansKey(op, k) ==> k !in b.live {
      assert b.contested == {};
      HomeIsBaseline(b, s);
    }
  }

  // --- Boot and cleanup ---------------------------------------------------

  /** Whether the live rules after a boot differ from those before it, or whether
      the commit claimed one that was there before. */
  ghost predicate Untouched(plan: seq<Rule>, was: Live, now: Live) {
    forall r :: r in plan && KeyOf(r) in was ==>
      Look(now, KeyOf(r)) == Look(was, KeyOf(r)) && was[KeyOf(r)] != PayloadOf(r)
  }

  /** Deleting what a boot claimed leads back to where it started exactly when it
      left every live rule on a planned key alone, and none of them was identical
      to the planned one. */
  lemma BackToBaseline(plan: seq<Rule>, was: Live, now: Live, claimed: seq<Rule>)
    requires WithinPlan(plan, was, now) && Claims(claimed, plan, now)
    ensures now - KeysOf(claimed) == was <==> Untouched(plan, was, now)
  {
    var end := now - KeysOf(claimed);
    if end == was {
      forall r | r in plan && KeyOf(r) in was
        ensures Look(now, KeyOf(r)) == Look(was, KeyOf(r)) && was[KeyOf(r)] != PayloadOf(r)
      {
        assert KeyOf(r) in end;
        assert Look(now, KeyOf(r)) == Some(PayloadOf(r)) ==> r in claimed;
      }
    }
    if Untouched(plan, was, now) {
      forall k ensures Look(end, k) == Look(was, k) {
        if k in KeysOf(claimed) {
          var r :| r in claimed && KeyOf(r) == k;
          assert r in plan;
        } else {
          assert forall x :: x in plan && KeyOf(x) == k && Look(now, k) == Some(PayloadOf(x)) ==> x in claimed;
          assert Look(now, k) == Look(was, k);
        }
      }
      SameLive(end, was);
    }
  }

  /** Where every planned rule was published or withdrawn, as after an accepted or a
      refused batch, the way back exists exactly when no planned key was taken before. */
  lemma PublishedPlan(plan: seq<Rule>, was: Live, now: Live, claimed: seq<Rule>)
    requires WithinPlan(plan, was, now) && Claims(claimed, plan, now)
    requires forall r :: r in plan ==> Look(now, KeyOf(r)) == Some(PayloadOf(r)) || KeyOf(r) !in now
    ensures now - KeysOf(claimed) == was <==> forall r :: r in plan ==> KeyOf(r) !in was
  {
    BackToBaseline(plan, was, now, claimed);
  }

  /** Where nothing was published, as after a boot that skipped its rules, the way
      back exists exactly when no live rule is identical to a planned one. */
  lemma SkippedPlan(plan: seq<Rule>, was: Live, claimed: seq<Rule>)
    requires Claims(claimed, plan, was)
    ensures was - KeysOf(claimed) == was <==> forall r :: r in plan ==> Look(was, KeyOf(r)) != Some(PayloadOf(r))
  {
    BackToBaseline(plan, was, was, claimed);
  }

  /** A boot from a clean ledger over whatever is live, then a cleanup. If both
      report success, the ledger is clean again and of the live rules exactly those
      that the commit claimed are gone, and of the new mounts exactly those at the
      reported targets. `live` and `mounts` are what the boot left. */
  method BootAndCleanup(dev: Device, plan: seq<Rule>, requested: seq<Uid>, nonVfs: set<string>, calls: seq<Call>,
                        successful: bool, activeTargets: seq<string>, targets: seq<string>, unmounts: seq<string>,
                        mountsValid: bool)
    returns (ok: bool, ghost live: Live, ghost claimed: seq<Rule>, ghost mounts: set<LiveMount>)
    requires dev.Valid() && MayStart(dev.disk, dev.bootId, dev.namespace) && UniqueKeys(plan) && Solid(plan)
    modifies dev`live, dev`uids, dev`mounts, dev`disk, dev`history, dev`refusals
    ensures dev.Valid() && old(dev.history) <= dev.history
    ensures WithinPlan(plan, old(dev.live), live) && (calls == [] ==> live == old(dev.live))
    ensures ok ==> OfThisBoot(dev.disk, dev.bootId) && RequireClean(dev.disk.value)
    ensures MountedBy(calls, old(dev.mounts), mounts)
    ensures ok ==> dev.uids == old(dev.uids) && dev.mounts == mounts - NewAt(mounts, old(dev.mounts), targets)
    ensures ok ==> (dev.mounts == old(dev.mounts)
                    <==> forall m :: m in mounts - old(dev.mounts) ==> m.target in targets)
    ensures ok ==> Claims(claimed, plan, live) && dev.live == live - KeysOf(claimed)
    ensures ok ==> (dev.live == old(dev.live) <==> Untouched(plan, old(dev.live), live))
    ensures dev.forwardWorks && dev.plainListings && successful && mountsValid && DistinctIds(old(dev.mounts)) ==>
              Served(plan, activeTargets, live) ==>
              (forall rules :: Claims(rules, plan, live) ==> Unrelated(live, rules)) ==> ok
  {
    ghost var was := dev.live;
    ghost var b := Baseline(was, dev.uids, dev.mounts, (set k | k in was && k in KeysOf(plan)),
                                StraysOf(calls, targets));
    claimed := [];
    live, mounts := was, dev.mounts;
    StartsHome(b, dev.bootId, dev.namespace, plan, calls, targets, dev.Now());
    hide Inv, OwnKeys, WithinPlan, Claims, Served, Unrelated, StraysAreKnown, MountedBy, DistinctIds;
    ok := Boot(dev, plan, requested, nonVfs, calls, successful, activeTargets, targets, unmounts, b);
    live, mounts := dev.live, dev.mounts;
    if !ok { return; }
    claimed := dev.disk.value.rules;
    ok := Cleanup(dev, mountsValid, b);
    if ok {
      CleanThisBoot(b, dev.bootId, dev.namespace, dev.Now());
      BackToBaseline(plan, was, live, claimed);
      MountsGiven(calls, old(dev.mounts), mounts, targets);
    }
  }

  /** Taking away the new mounts at some targets leads back exactly when no new
      mount is anywhere else. */
  lemma MountsGiven(calls: seq<Call>, was: set<LiveMount>, now: set<LiveMount>, targets: seq<string>)
    requires MountedBy(calls, was, now)
    ensures now - NewAt(now, was, targets) == was <==> forall m :: m in now - was ==> m.target in targets
  {
    if m :| m in now - was && m.target !in targets {
      assert m in now - NewAt(now, was, targets);
    }
  }

  lemma StartsHome(b: Baseline, bootId: string, namespace: string, plan: seq<Rule>, calls: seq<Call>,
                   targets: seq<string>, s: Snap)
    requires MayStart(s.disk, bootId, namespace) && UniqueKeys(plan) && Solid(plan)
    requires b == Baseline(s.live, s.uids, s.mounts, (set k | k in s.live && k in KeysOf(plan)),
                           StraysOf(calls, targets))
    ensures Inv(b, bootId, s) && OwnKeys(b, plan) && StraysAreKnown(b, calls, targets)
  {
  }

  lemma CleanThisBoot(b: Baseline, bootId: string, namespace: string, s: Snap)
    requires Home(b, s) && MayStart(s.disk, bootId, namespace) && OfThisBoot(s.disk, bootId)
    ensures RequireClean(s.disk.value) && s.uids == b.uids
  {
  }

  /** A rule that someone else put there before the boot, identical to a planned one,
      is deleted by the cleanup, although the boot published nothing. */
  method TwinIsDeleted(twin: Rule, bootId: string, namespace: string) returns (dev: Device)
    requires !Derivable(PayloadOf(twin))
    ensures fresh(dev) && dev.Valid() && dev.bootId == bootId
    ensures dev.history[0] == Snap(map[KeyOf(twin) := PayloadOf(twin)], {}, {}, None)
    ensures dev.live == map[] && OfThisBoot(dev.disk, bootId) && RequireClean(dev.disk.value)
  {
    var live: Live := map[KeyOf(twin) := PayloadOf(twin)];
    dev := new Device(Snap(live, {}, {}, None), bootId, namespace);
    dev.forwardWorks, dev.plainListings := true, true;
    ghost var h := dev.history;
    var ok, now, claimed, _ := BootAndCleanup(dev, [twin], [], {}, [], true, [], [], [], true);
    assert h[0] == dev.history[0];
    forall rules | Claims(rules, [twin], live) ensures Unrelated(live, rules) {
      assert twin in rules && KeyOf(twin) in KeysOf(rules);
    }
    assert ok && twin in [twin] && twin in claimed;
    assert KeyOf(twin) in KeysOf(claimed);
  }

  // --- Repeated cleanup ---------------------------------------------------

  /** However many attempts failed or died, and wherever, a cleanup whose calls work
      ends with a clean ledger and the recorded rules gone. */
  method CleanupRetry(dev: Device, attempts: nat, ghost b: Baseline) returns (ok: bool)
    requires dev.Valid() && Inv(b, dev.bootId, dev.Now())
    requires Cleanable(dev.bootId, dev.namespace, dev.Now())
    modifies dev`live, dev`uids, dev`mounts, dev`disk, dev`history, dev`refusals, dev`forwardWorks, dev`plainListings
    ensures dev.Valid() && old(dev.history) <= dev.history
    ensures ok && Home(b, dev.Now()) && MayStart(dev.disk, dev.bootId, dev.namespace)
  {
    hide Inv, Home, Cleanable;
    for n := 0 to attempts
      invariant dev.Valid() && old(dev.history) <= dev.history
      invariant Inv(b, dev.bootId, dev.Now()) && Cleanable(dev.bootId, dev.namespace, dev.Now())
    {
      dev.forwardWorks, dev.plainListings := *, *;
      var mountsValid: bool := *;
      var since := |dev.history| - 1;
      ghost var g := dev.Now();
      var _ := Cleanup(dev, mountsValid, b);
      ghost var h := dev.history;
      dev.Crash(since);
      assert dev.Now() == h[|dev.history| - 1];
    }
    dev.forwardWorks, dev.plainListings := true, true;
    ok := Cleanup(dev, true, b);
  }
}
