/// Boot, hot operations and cleanup as transitions of the stored ledger
/// (src/runtime/boot.rs, src/runtime/hot.rs, src/runtime/ledger.rs).
module Lifecycle {
  import HotTransaction
  import opened Devices
  import opened Ledgers
  import opened Rules
  import opened RuleTransaction
  import opened Wrappers

  // --- Ledger checks ------------------------------------------------------

  predicate RequireClean(d: Record) {
    && d.phase.Clean?
    && d.pendingRules == [] && d.rules == [] && d.mounts == [] && d.isolatedUids == []
    && (d.ksuUnmounts.Some? ==> d.ksuUnmounts.value == [])
  }

  predicate RequireReady(d: Record) {
    d.phase.Ready?
  }

  function OwnedUnmounts(d: Record): (r: Result<seq<string>>)
    ensures r.Err? <==> d.ksuUnmounts == None && d.mounts != []
    ensures r.Ok? ==> r.value == if d.ksuUnmounts == None then [] else d.ksuUnmounts.value
  {
    if d.ksuUnmounts.Some? then Ok(d.ksuUnmounts.value)
    else if d.mounts == [] then Ok([])
    else Err
  }

  function FreshRecord(bootId: string, namespace: string): Record {
    Record(1, bootId, namespace, 0, Clean, [], [], [], Some([]), {}, [], false)
  }

  function LedgerForBoot(saved: Option<Record>, bootId: string, namespace: string): (r: Result<Record>)
    ensures r.Ok? ==> r.value.bootId == bootId && r.value.version == 1 && !r.value.phase.Unrecognised?
    ensures saved.Some? && saved.value.bootId == bootId ==>
              r == if saved.value.namespace == namespace && saved.value.version == 1 && !saved.value.phase.Unrecognised?
                   then Ok(saved.value) else Err
    ensures !(saved.Some? && saved.value.bootId == bootId) ==>
              r == Ok(FreshRecord(bootId, namespace))
              && var d := r.value;
                 && d.phase == Clean && d.namespace == namespace && d.generation == 0 && !d.error
                 && d.rules == [] && d.pendingRules == [] && d.mounts == [] && d.isolatedUids == []
                 && d.ksuUnmounts == Some([]) && d.nonVfsModules == {}
  {
    if saved.Some? && saved.value.bootId == bootId then
      if saved.value.namespace != namespace || saved.value.version != 1 || saved.value.phase.Unrecognised? then Err
      else Ok(saved.value)
    else Ok(FreshRecord(bootId, namespace))
  }

  // --- What the stored ledger says about the world ------------------------

  /** The live state that no operation of this boot made. Boot plans may name keys
      that are live in it; those keys are contested. A boot may leave mounts at
      targets that it does not report; those are strays. */
  datatype Baseline = Baseline(
    live: Live, uids: set<Uid>, mounts: set<LiveMount>, contested: set<Key>, strays: set<LiveMount>)

  /** A key is as in the baseline, but a contested one may be gone. */
  predicate Kept(b: Baseline, live: Live, k: Key) {
    Look(live, k) == Look(b.live, k) || (k in b.contested && k !in live)
  }

  /** Whether a rule of the runtime may be on a key. */
  predicate Free(b: Baseline, k: Key) {
    k in b.live ==> k in b.contested
  }

  /** Nothing is mounted but what the baseline has, and strays. */
  predicate MountsKept(b: Baseline, mounts: set<LiveMount>) {
    b.mounts <= mounts <= b.mounts + b.strays
  }

  /** Nothing of the runtime is left, and of the baseline only contested rules are gone. */
  ghost predicate Home(b: Baseline, s: Snap) {
    (forall k :: Kept(b, s.live, k)) && s.uids == b.uids && MountsKept(b, s.mounts)
  }

  /** Without contested keys, home is the baseline itself. */
  lemma HomeIsBaseline(b: Baseline, s: Snap)
    requires Home(b, s) && b.contested == {}
    ensures s.live == b.live
  {
    forall k ensures Look(s.live, k) == Look(b.live, k) {
      assert Kept(b, s.live, k);
    }
    SameLive(s.live, b.live);
  }

  lemma SameLive(m: Live, n: Live)
    requires forall k :: Look(m, k) == Look(n, k)
    ensures m == n
  {
    forall k ensures k in m <==> k in n { assert Look(m, k) == Look(n, k); }
    forall k | k in m && k in n ensures m[k] == n[k] { assert Look(m, k) == Look(n, k); }
    assert m.Keys == n.Keys;
  }

  /** Recorded rules have one key each, and none that is the baseline's alone. */
  ghost predicate OwnKeys(b: Baseline, rules: seq<Rule>) {
    && UniqueKeys(rules) && Solid(rules)
    && forall r :: r in rules ==> Free(b, KeyOf(r))
  }

  ghost predicate Elsewhere(b: Baseline, rules: seq<Rule>, live: Live) {
    forall k :: k !in KeysOf(rules) ==> Kept(b, live, k)
  }

  ghost predicate UidsOwned(b: Baseline, d: Record, s: Snap) {
    && b.uids <= s.uids
    && (forall u :: u in s.uids ==> u in b.uids || u in d.isolatedUids)
    && (forall u :: u in d.isolatedUids ==> u !in b.uids)
  }

  ghost predicate MountsOwned(b: Baseline, d: Record, s: Snap) {
    && b.mounts <= s.mounts <= b.mounts + b.strays + MountsOf(d.mounts)
    && b.mounts !! MountsOf(d.mounts)
  }

  /** `ready` and `syncing`: the ledger is the exact difference to the baseline. */
  ghost predicate Exact(b: Baseline, d: Record, s: Snap) {
    && d.pendingRules == [] && OwnKeys(b, d.rules)
    && HotTransaction.AllLive(d.rules, s.live) && Elsewhere(b, d.rules, s.live)
    && UidsOwned(b, d, s) && MountsOwned(b, d, s)
  }

  /** `cleaning`: the same, except that recorded resources may already be gone. */
  ghost predicate Partial(b: Baseline, d: Record, s: Snap) {
    && OwnKeys(b, d.rules)
    && (forall r :: r in d.rules && KeyOf(r) in s.live ==> s.live[KeyOf(r)] == PayloadOf(r))
    && Elsewhere(b, d.rules, s.live)
    && UidsOwned(b, d, s) && MountsOwned(b, d, s)
  }

  /** `applying` and `error`: the baseline is intact, and every further rule and
      UID is named by the ledger. Mounts may not have been recorded yet. */
  ghost predicate Interrupted(b: Baseline, d: Record, s: Snap) {
    && (forall k :: Kept(b, s.live, k) || (Free(b, k) && k in s.live && HotTransaction.NamedBy(d, s.live, k)))
    && b.uids <= s.uids && (forall u :: u in s.uids ==> u in b.uids || u in d.isolatedUids)
    && b.mounts <= s.mounts
  }

  predicate OfThisBoot(disk: Option<Record>, bootId: string) {
    disk.Some? && disk.value.bootId == bootId
  }

  ghost predicate Inv(b: Baseline, bootId: string, s: Snap) {
    if !OfThisBoot(s.disk, bootId) then Home(b, s)
    else match s.disk.value.phase
      case Clean => RequireClean(s.disk.value) && Home(b, s)
      case Ready => Exact(b, s.disk.value, s)
      case Syncing => Exact(b, s.disk.value, s)
      case Cleaning => Partial(b, s.disk.value, s)
      case Applying => Interrupted(b, s.disk.value, s)
      case Errored => Interrupted(b, s.disk.value, s)
      case Unrecognised => false
  }

  /** The state every entry point refuses until the next boot. */
  predicate Stuck(disk: Option<Record>, bootId: string) {
    OfThisBoot(disk, bootId) && (disk.value.phase.Applying? || disk.value.phase.Errored?)
  }

  // --- Boot ---------------------------------------------------------------

  /** The first planned rule for a target. */
  predicate FirstFor(planned: seq<Rule>, target: string, i: int)
    requires 0 <= i < |planned|
  {
    planned[i].virtualPath == target && forall j :: 0 <= j < i ==> planned[j].virtualPath != target
  }

  predicate ConfirmBootRules(planned: seq<Rule>, activeTargets: seq<string>, observed: seq<Rule>) {
    forall t :: t in activeTargets ==>
      exists i :: 0 <= i < |planned| && FirstFor(planned, t, i) && Shown(observed, planned[i])
  }

  function Confirmed(planned: seq<Rule>, observed: seq<Rule>): (out: seq<Rule>)
    ensures forall r :: r in out <==> r in planned && Shown(observed, r)
    ensures UniqueKeys(planned) ==> UniqueKeys(out)
  {
    if planned == [] then [] else
      var rest := Confirmed(planned[1..], observed);
      assert planned == [planned[0]] + planned[1..];
      assert UniqueKeys(planned) ==> UniqueKeys(planned[1..]);
      if !Shown(observed, planned[0]) then rest
      else
        assert UniqueKeys(planned) ==> forall r :: r in rest ==> KeyOf(r) != KeyOf(planned[0]);
        [planned[0]] + rest
  }

  function OwnedUids(requested: seq<Uid>, original: seq<Uid>, observed: seq<Uid>): (out: seq<Uid>)
    ensures forall u :: u in out <==> u in observed && u in requested && u !in original
  {
    if observed == [] then [] else
      var rest := OwnedUids(requested, original, observed[1..]);
      assert observed == [observed[0]] + observed[1..];
      if observed[0] in requested && observed[0] !in original then [observed[0]] + rest else rest
  }

  /** A boot may start from a clean ledger of this boot, or from none. */
  predicate MayStart(disk: Option<Record>, bootId: string, namespace: string) {
    LedgerForBoot(disk, bootId, namespace).Ok? && RequireClean(LedgerForBoot(disk, bootId, namespace).value)
  }

  /** Claim the boot: `applying` is stored before anything is mutated. */
  method Start(dev: Device, ghost b: Baseline) returns (ok: bool, baseMounts: set<LiveMount>, originalUids: seq<Uid>)
    requires dev.Valid() && Inv(b, dev.bootId, dev.Now())
    modifies dev`disk, dev`history, dev`refusals
    ensures dev.Valid() && old(dev.history) <= dev.history
    ensures forall i :: old(|dev.history|) <= i < |dev.history| ==> Inv(b, dev.bootId, dev.history[i])
    ensures Inv(b, dev.bootId, dev.Now())
    ensures ok ==> OfThisBoot(dev.disk, dev.bootId) && dev.disk.value.phase.Applying? && Home(b, dev.Now())
    ensures ok ==> dev.disk.value.rules == [] && dev.disk.value.pendingRules == []
    ensures ok ==> baseMounts == dev.mounts && MountsKept(b, baseMounts)
    ensures ok ==> forall u :: u in originalUids <==> u in b.uids
    ensures !MayStart(old(dev.disk), dev.bootId, dev.namespace) ==>
              !ok && dev.Now() == old(dev.Now()) && dev.history == old(dev.history)
    ensures dev.disk == old(dev.disk) || (dev.disk.Some? && dev.disk.value.phase.Applying?)
    ensures Stuck(old(dev.disk), dev.bootId) ==> !MayStart(old(dev.disk), dev.bootId, dev.namespace)
    ensures ok ==> LedgerForBoot(dev.disk, dev.bootId, dev.namespace).Ok? && dev.uids == old(dev.uids)
    ensures ok ==> var d := LedgerForBoot(old(dev.disk), dev.bootId, dev.namespace);
                   && d.Ok? && var r := d.value;
                   dev.disk == Some(r.(generation := r.generation + 1, phase := Applying, error := false))
    ensures ok ==> dev.refusals == old(dev.refusals)
    ensures dev.forwardWorks && MayStart(old(dev.disk), dev.bootId, dev.namespace) ==> ok
  {
    baseMounts, originalUids := {}, [];
    var loaded := LedgerForBoot(dev.disk, dev.bootId, dev.namespace);
    if loaded.Err? || !RequireClean(loaded.value) { return false, baseMounts, originalUids; }
    var uids := dev.ReadUids(Forward);
    if uids.Err? { return false, baseMounts, originalUids; }
    var d := loaded.value;
    ok := dev.Persist(d.(generation := d.generation + 1, phase := Applying, error := false));
    baseMounts, originalUids := dev.mounts, uids.value;
  }

  /** Store what the plan is about to publish. */
  method StagePlan(dev: Device, plan: seq<Rule>, requested: seq<Uid>, nonVfs: set<string>, ghost b: Baseline)
    returns (ok: bool)
    requires dev.Valid() && Home(b, dev.Now())
    requires OfThisBoot(dev.disk, dev.bootId) && dev.disk.value.phase.Applying? && dev.disk.value.rules == []
    modifies dev`disk, dev`history, dev`refusals
    ensures dev.Valid() && old(dev.history) <= dev.history
    ensures forall i :: old(|dev.history|) <= i < |dev.history| ==> Inv(b, dev.bootId, dev.history[i])
    ensures OfThisBoot(dev.disk, dev.bootId) && dev.disk.value.phase.Applying? && dev.disk.value.rules == []
    ensures ok ==> dev.disk.value.pendingRules == plan && dev.disk.value.isolatedUids == requested
    ensures dev.disk.value.pendingRules == plan || dev.disk.value.pendingRules == old(dev.disk.value.pendingRules)
    ensures Home(b, dev.Now())
    ensures LedgerForBoot(old(dev.disk), dev.bootId, dev.namespace).Ok? ==>
              LedgerForBoot(dev.disk, dev.bootId, dev.namespace).Ok?
    ensures ok ==> dev.disk.value.nonVfsModules == nonVfs
    ensures ok ==> dev.refusals == old(dev.refusals)
    ensures dev.forwardWorks && LedgerForBoot(old(dev.disk), dev.bootId, dev.namespace).Ok? ==> ok
  {
    var loaded := LedgerForBoot(dev.disk, dev.bootId, dev.namespace);
    if loaded.Err? { return false; }
    ok := dev.Persist(loaded.value.(pendingRules := plan, isolatedUids := requested, nonVfsModules := nonVfs));
  }

  /** Key by key: unchanged, or a planned rule put or withdrawn. */
  ghost predicate WithinPlan(plan: seq<Rule>, was: Live, now: Live) {
    forall k :: Look(now, k) == Look(was, k) || (k in KeysOf(plan) && k !in now)
                || exists r :: r in plan && KeyOf(r) == k && Look(now, k) == Some(PayloadOf(r))
  }

  /** A call of the mount pipeline between staging and commit. */
  datatype Call = PutRule(index: nat) | DeleteRule(index: nat) | Isolate(index: nat) | MountOne(mount: LiveMount)

  /** What a call makes of a state, if it takes effect. */
  function Performed(plan: seq<Rule>, requested: seq<Uid>, s: Snap, call: Call): Snap {
    match call
    case PutRule(i) => if i < |plan| then s.(live := s.live[KeyOf(plan[i]) := PayloadOf(plan[i])]) else s
    case DeleteRule(i) => if i < |plan| then s.(live := s.live - {KeyOf(plan[i])}) else s
    case Isolate(i) => if i < |requested| then s.(uids := s.uids + {requested[i]}) else s
    case MountOne(m) => if forall x :: x in s.mounts ==> x.id != m.id then s.(mounts := s.mounts + {m}) else s
  }

  function AllPerformed(plan: seq<Rule>, requested: seq<Uid>, s: Snap, calls: seq<Call>): Snap {
    if calls == [] then s
    else Performed(plan, requested, AllPerformed(plan, requested, s, calls[..|calls|-1]), calls[|calls|-1])
  }

  lemma {:induction false} WhateverIsStored(plan: seq<Rule>, requested: seq<Uid>, s: Snap, calls: seq<Call>,
                                            disk: Option<Record>)
    ensures AllPerformed(plan, requested, s.(disk := disk), calls) ==
            AllPerformed(plan, requested, s, calls).(disk := disk)
  {
    if calls == [] {
      assert AllPerformed(plan, requested, s, calls) == s;
    } else {
      WhateverIsStored(plan, requested, s, calls[..|calls|-1], disk);
    }
  }

  /** Nothing is unmounted, every new mount is one of the calls', and IDs stay apart. */
  ghost predicate MountedBy(calls: seq<Call>, was: set<LiveMount>, now: set<LiveMount>) {
    && was <= now && (DistinctIds(was) ==> DistinctIds(now))
    && forall m :: m in now ==> m in was || MountOne(m) in calls
  }

  /** Whatever the mount pipeline does between staging and commit: publish and
      withdraw planned rules, isolate requested UIDs, mount things, in any order. */
  method Pipeline(dev: Device, plan: seq<Rule>, requested: seq<Uid>, calls: seq<Call>, ghost b: Baseline)
    requires dev.Valid() && Home(b, dev.Now())
    requires OfThisBoot(dev.disk, dev.bootId) && dev.disk.value.phase.Applying?
    requires dev.disk.value.pendingRules == plan && dev.disk.value.isolatedUids == requested
    requires OwnKeys(b, plan)
    modifies dev`live, dev`uids, dev`mounts, dev`history, dev`refusals
    ensures dev.Valid() && old(dev.history) <= dev.history
    ensures forall i :: old(|dev.history|) <= i < |dev.history| ==> Inv(b, dev.bootId, dev.history[i])
    ensures PlanInFlight(b, plan, requested, dev.Now())
    ensures WithinPlan(plan, old(dev.live), dev.live)
    ensures calls == [] ==> dev.live == old(dev.live)
    ensures MountedBy(calls, old(dev.mounts), dev.mounts)
    ensures dev.forwardWorks ==> dev.Now() == AllPerformed(plan, requested, old(dev.Now()), calls)
  {
    assert calls[..0] == [];
    for n := 0 to |calls|
      invariant dev.Valid() && old(dev.history) <= dev.history
      invariant forall i :: old(|dev.history|) <= i < |dev.history| ==> Inv(b, dev.bootId, dev.history[i])
      invariant PlanInFlight(b, plan, requested, dev.Now())
      invariant WithinPlan(plan, old(dev.live), dev.live)
      invariant n == 0 ==> dev.live == old(dev.live)
      invariant MountedBy(calls, old(dev.mounts), dev.mounts)
      invariant dev.forwardWorks ==> dev.Now() == AllPerformed(plan, requested, old(dev.Now()), calls[..n])
    {
      assert calls[..n+1][..n] == calls[..n];
      ghost var mid := dev.live;
      PipelineStep(dev, plan, requested, calls[n], b);
      WithinPlanComposes(plan, old(dev.live), mid, dev.live);
    }
    assert calls[..|calls|] == calls;
  }

  /** One call of the pipeline. */
  method PipelineStep(dev: Device, plan: seq<Rule>, requested: seq<Uid>, call: Call, ghost b: Baseline)
    requires dev.Valid() && PlanInFlight(b, plan, requested, dev.Now())
    requires OfThisBoot(dev.disk, dev.bootId) && dev.disk.value.phase.Applying?
    requires dev.disk.value.pendingRules == plan && dev.disk.value.isolatedUids == requested
    requires OwnKeys(b, plan)
    modifies dev`live, dev`uids, dev`mounts, dev`history, dev`refusals
    ensures dev.Valid() && old(dev.history) <= dev.history
    ensures forall i :: old(|dev.history|) <= i < |dev.history| ==> Inv(b, dev.bootId, dev.history[i])
    ensures PlanInFlight(b, plan, requested, dev.Now())
    ensures WithinPlan(plan, old(dev.live), dev.live)
    ensures MountedBy([call], old(dev.mounts), dev.mounts)
    ensures dev.forwardWorks ==> dev.Now() == Performed(plan, requested, old(dev.Now()), call)
  {
    ghost var g, m := dev.Now(), |dev.history|;
    hide Inv, PlanInFlight, WithinPlan, OwnKeys, Touches;
    Perform(dev, plan, requested, call);
    forall j | m <= j < |dev.history| ensures Inv(b, dev.bootId, dev.history[j]) {
      StaysInFlight(b, plan, requested, g, dev.history[j]);
      InFlightInv(b, dev.bootId, plan, requested, dev.history[j]);
    }
    StaysInFlight(b, plan, requested, g, dev.Now());
  }

  /** Issue one call. */
  method Perform(dev: Device, plan: seq<Rule>, requested: seq<Uid>, call: Call)
    requires dev.Valid()
    modifies dev`live, dev`uids, dev`mounts, dev`history, dev`refusals
    ensures dev.Valid() && old(dev.history) <= dev.history
    ensures Touches(plan, requested, old(dev.Now()), dev.Now())
    ensures forall i :: old(|dev.history|) <= i < |dev.history| ==>
              Touches(plan, requested, old(dev.Now()), dev.history[i])
    ensures MountedBy([call], old(dev.mounts), dev.mounts)
    ensures dev.forwardWorks ==> dev.Now() == Performed(plan, requested, old(dev.Now()), call)
  {
    match call {
      case PutRule(i) =>
        if i < |plan| {
          PutOnePlanned(dev.live, plan, i);
          var _, _ := dev.Put([plan[i]], Forward);
        }
      case DeleteRule(i) =>
        if i < |plan| {
          DeleteOnePlanned(dev.live, plan, i);
          var _, _ := dev.Delete([plan[i]], Forward);
        }
      case Isolate(i) =>
        if i < |requested| {
          var _ := dev.AddUids([requested[i]], Forward);
        }
      case MountOne(mount) =>
        // The kernel gives every mount an ID of its own.
        if forall m :: m in dev.mounts ==> m.id != mount.id { dev.Attach(mount); }
    }
  }

  /** A call changes planned rules, adds requested UIDs or mounts something. */
  ghost predicate Touches(plan: seq<Rule>, requested: seq<Uid>, g: Snap, s: Snap) {
    && WithinPlan(plan, g.live, s.live) && g.mounts <= s.mounts && s.disk == g.disk
    && g.uids <= s.uids && forall u :: u in s.uids ==> u in g.uids || u in requested
  }

  lemma PutOnePlanned(live: Live, plan: seq<Rule>, i: nat)
    requires i < |plan|
    ensures [plan[i]][..0] == [] && [plan[i]][..1] == [plan[i]]
    ensures PutAll(live, []) == live && PutAll(live, [plan[i]]) == live[KeyOf(plan[i]) := PayloadOf(plan[i])]
    ensures WithinPlan(plan, live, PutAll(live, [plan[i]]))
  {
    assert plan[i] in plan;
  }

  lemma DeleteOnePlanned(live: Live, plan: seq<Rule>, i: nat)
    requires i < |plan|
    ensures [plan[i]][..0] == [] && [plan[i]][..1] == [plan[i]]
    ensures live - KeysOf([]) == live && WithinPlan(plan, live, live - KeysOf([plan[i]]))
  {
    assert KeysOf([plan[i]]) == {KeyOf(plan[i])} && KeyOf(plan[i]) in KeysOf(plan);
  }

  lemma WithinPlanComposes(plan: seq<Rule>, was: Live, mid: Live, now: Live)
    requires WithinPlan(plan, was, mid) && WithinPlan(plan, mid, now)
    ensures WithinPlan(plan, was, now)
  {
  }

  /** A call on planned rules, requested UIDs and new mounts keeps the boot in flight. */
  lemma StaysInFlight(b: Baseline, plan: seq<Rule>, requested: seq<Uid>, g: Snap, s: Snap)
    requires OwnKeys(b, plan) && PlanInFlight(b, plan, requested, g) && Touches(plan, requested, g, s)
    ensures PlanInFlight(b, plan, requested, s) && WithinPlan(plan, g.live, s.live) && s.disk == g.disk
  {
  }

  lemma InFlightInv(b: Baseline, bootId: string, plan: seq<Rule>, requested: seq<Uid>, s: Snap)
    requires OwnKeys(b, plan) && PlanInFlight(b, plan, requested, s)
    requires OfThisBoot(s.disk, bootId) && s.disk.value.phase.Applying?
    requires s.disk.value.pendingRules == plan && s.disk.value.isolatedUids == requested
    ensures Inv(b, bootId, s)
  {
    PlanInFlightIsInterrupted(b, plan, requested, s.disk.value, s);
  }

  ghost predicate PlanInFlight(b: Baseline, plan: seq<Rule>, requested: seq<Uid>, s: Snap) {
    && (forall k :: Kept(b, s.live, k)
                    || exists r :: r in plan && KeyOf(r) == k && Look(s.live, k) == Some(PayloadOf(r)))
    && b.uids <= s.uids && (forall u :: u in s.uids ==> u in b.uids || u in requested)
    && b.mounts <= s.mounts
  }

  lemma PlanInFlightIsInterrupted(b: Baseline, plan: seq<Rule>, requested: seq<Uid>, d: Record, s: Snap)
    requires OwnKeys(b, plan) && d.pendingRules == plan && d.isolatedUids == requested
    requires PlanInFlight(b, plan, requested, s)
    ensures Interrupted(b, d, s)
  {
    forall k | !Kept(b, s.live, k) ensures Free(b, k) && k in s.live && HotTransaction.NamedBy(d, s.live, k) {
      var r :| r in plan && KeyOf(r) == k && Look(s.live, k) == Some(PayloadOf(r));
      assert r in d.rules + d.pendingRules;
    }
  }

  /** Every target the pipeline reports as served has its planned rule live. */
  ghost predicate Served(plan: seq<Rule>, activeTargets: seq<string>, live: Live) {
    forall t :: t in activeTargets ==> exists i :: 0 <= i < |plan| && ServedBy(plan, t, i, live)
  }

  /** The first planned rule for a target, and it is live. */
  predicate ServedBy(plan: seq<Rule>, t: string, i: nat, live: Live)
    requires i < |plan|
  {
    plan[i].virtualPath == t && (forall j :: 0 <= j < i ==> plan[j].virtualPath != t)
    && Look(live, KeyOf(plan[i])) == Some(PayloadOf(plan[i]))
  }

  /** For rules that no derived parent can stand in for, the readback confirms
      exactly the targets that are served. */
  lemma ConfirmedMeansServed(plan: seq<Rule>, activeTargets: seq<string>, live: Live, rows: seq<Rule>)
    requires Listing(rows, live) && Solid(plan)
    ensures ConfirmBootRules(plan, activeTargets, rows) <==> Served(plan, activeTargets, live)
  {
    forall r | r in plan ensures Shown(rows, r) <==> Look(live, KeyOf(r)) == Some(PayloadOf(r)) {
      ShownMeansLive(rows, live, r);
    }
    if Served(plan, activeTargets, live) {
      forall t | t in activeTargets
        ensures exists i :: 0 <= i < |plan| && FirstFor(plan, t, i) && Shown(rows, plan[i])
      {
        var i :| 0 <= i < |plan| && ServedBy(plan, t, i, live);
        assert FirstFor(plan, t, i) && plan[i] in plan;
      }
    }
    if ConfirmBootRules(plan, activeTargets, rows) {
      forall t | t in activeTargets
        ensures exists i :: 0 <= i < |plan| && ServedBy(plan, t, i, live)
      {
        var i :| 0 <= i < |plan| && FirstFor(plan, t, i) && Shown(rows, plan[i]);
        assert plan[i] in plan && ServedBy(plan, t, i, live);
      }
    }
  }

  /** The planned rules that are live. */
  ghost predicate Claims(rules: seq<Rule>, plan: seq<Rule>, live: Live) {
    forall r :: r in rules <==> r in plan && Look(live, KeyOf(r)) == Some(PayloadOf(r))
  }

  predicate RecordedReady(disk: Option<Record>, bootId: string) {
    OfThisBoot(disk, bootId) && disk.value.phase.Ready?
  }

  /** How a commit ends a boot: ready if all went well, and otherwise an error record,
      which keeps what was pending if some advertised target is not served. */
  predicate Concluded(disk: Option<Record>, pending: seq<Rule>, successful: bool, served: bool) {
    && disk.Some?
    && disk.value.phase == (if successful && served then Ready else Errored)
    && disk.value.error == !(successful && served)
    && disk.value.pendingRules == (if served then [] else pending)
  }

  /** Every mount made since is at a target the boot reports, or known as a stray. */
  ghost predicate NewMountsKnown(b: Baseline, was: set<LiveMount>, targets: seq<string>, now: set<LiveMount>) {
    was <= now && forall m :: m in now ==> m in was || m.target in targets || m in b.strays
  }

  /** Commit what the boot left behind: every planned rule that is live is claimed,
      and every new mount at a reported target. `targets` are those. What is stored is
      ready exactly if the boot succeeded and every target it advertises is served. */
  method Finish(dev: Device, baseMounts: set<LiveMount>, originalUids: seq<Uid>, successful: bool,
                activeTargets: seq<string>, targets: seq<string>, unmounts: seq<string>, ghost b: Baseline)
    returns (ok: bool)
    requires dev.Valid() && OfThisBoot(dev.disk, dev.bootId) && dev.disk.value.phase.Applying?
    requires OwnKeys(b, dev.disk.value.pendingRules) && dev.disk.value.rules == []
    requires PlanInFlight(b, dev.disk.value.pendingRules, dev.disk.value.isolatedUids, dev.Now())
    requires MountsKept(b, baseMounts) && NewMountsKnown(b, baseMounts, targets, dev.mounts)
    requires forall u :: u in originalUids <==> u in b.uids
    modifies dev`disk, dev`history, dev`refusals
    ensures dev.Valid() && old(dev.history) <= dev.history
    ensures forall i :: old(|dev.history|) <= i < |dev.history| ==> Inv(b, dev.bootId, dev.history[i])
    ensures Inv(b, dev.bootId, dev.Now())
    ensures ok ==> OfThisBoot(dev.disk, dev.bootId)
    ensures ok ==> Claims(dev.disk.value.rules, old(dev.disk.value.pendingRules), dev.live)
    ensures ok ==> MountsOf(dev.disk.value.mounts) == NewAt(dev.mounts, baseMounts, targets)
    ensures ok ==> IdentitiesKept(baseMounts, dev.mounts, targets)
    ensures ok ==> Served(old(dev.disk.value.pendingRules), activeTargets, dev.live)
    ensures dev.disk != old(dev.disk) ==>
              Concluded(dev.disk, old(dev.disk.value.pendingRules),
                        successful, Served(old(dev.disk.value.pendingRules), activeTargets, dev.live))
    ensures ok && successful ==> dev.disk.value.phase.Ready? && dev.disk.value.ksuUnmounts.Some?
                                 && LedgerForBoot(dev.disk, dev.bootId, dev.namespace).Ok?
    ensures ok ==> dev.disk.value.nonVfsModules == old(dev.disk.value.nonVfsModules)
                   && dev.disk.value.ksuUnmounts == Some(unmounts)
    ensures ok ==> forall u :: u in dev.disk.value.isolatedUids <==>
                                   u in dev.uids && u in old(dev.disk.value.isolatedUids) && u !in b.uids
    ensures ok ==> dev.refusals == old(dev.refusals)
    ensures dev.forwardWorks && LedgerForBoot(old(dev.disk), dev.bootId, dev.namespace).Ok? ==>
              IdentitiesKept(baseMounts, dev.mounts, targets) ==>
              && dev.disk != old(dev.disk)
              && (ok <==> Served(old(dev.disk.value.pendingRules), activeTargets, dev.live))
  {
    ghost var d0 := dev.disk.value;
    PlanInFlightIsInterrupted(b, d0.pendingRules, d0.isolatedUids, d0, dev.Now());
    assert Inv(b, dev.bootId, dev.Now());
    ghost var g, n := dev.Now(), |dev.history|;
    hide Inv, OwnKeys, PlanInFlight, Claims, Served, IdentitiesKept, NewAt, LedgerForBoot, MountsKept, NewMountsKnown;
    var record, verified := Conclude(dev, baseMounts, originalUids, successful, activeTargets, targets, unmounts, b);
    if record.None? { return false; }
    var stored := dev.Persist(record.value);
    ok := stored && verified;
    assert dev.Now() == g || dev.Now() == g.(disk := record);
    forall i | n <= i < |dev.history| ensures Inv(b, dev.bootId, dev.history[i]) {
      assert dev.history[i] == dev.Now();
    }
  }

  /** What there is to commit, if everything can be read back. */
  method Conclude(dev: Device, baseMounts: set<LiveMount>, originalUids: seq<Uid>, successful: bool,
                  activeTargets: seq<string>, targets: seq<string>, unmounts: seq<string>, ghost b: Baseline)
    returns (record: Option<Record>, verified: bool)
    requires dev.Valid() && OfThisBoot(dev.disk, dev.bootId) && dev.disk.value.phase.Applying?
    requires OwnKeys(b, dev.disk.value.pendingRules)
    requires PlanInFlight(b, dev.disk.value.pendingRules, dev.disk.value.isolatedUids, dev.Now())
    requires MountsKept(b, baseMounts) && NewMountsKnown(b, baseMounts, targets, dev.mounts)
    requires forall u :: u in originalUids <==> u in b.uids
    ensures record.Some? ==>
              var d := record.value;
              && Inv(b, dev.bootId, dev.Now().(disk := record)) && d.bootId == dev.bootId
              && Claims(d.rules, dev.disk.value.pendingRules, dev.live)
              && MountsOf(d.mounts) == NewAt(dev.mounts, baseMounts, targets)
              && IdentitiesKept(baseMounts, dev.mounts, targets)
              && (verified <==> Served(dev.disk.value.pendingRules, activeTargets, dev.live))
              && Concluded(record, dev.disk.value.pendingRules, successful, verified)
              && (forall u :: u in d.isolatedUids <==>
                    u in dev.uids && u in dev.disk.value.isolatedUids && u !in b.uids)
              && d.nonVfsModules == dev.disk.value.nonVfsModules && d.ksuUnmounts == Some(unmounts)
              && LedgerForBoot(record, dev.bootId, dev.namespace).Ok?
    ensures dev.forwardWorks && LedgerForBoot(dev.disk, dev.bootId, dev.namespace).Ok? ==>
              IdentitiesKept(baseMounts, dev.mounts, targets) ==> record.Some?
  {
    record, verified := None, false;
    var loaded := LedgerForBoot(dev.disk, dev.bootId, dev.namespace);
    if loaded.Err? { return; }
    var d := loaded.value;
    hide IdentitiesKept, NewAt;
    var captured := dev.CaptureMounts(baseMounts, targets);
    if captured.Err? { return; }
    var current := dev.List(Forward);
    if current.Err? { return; }
    var uids := dev.ReadUids(Forward);
    if uids.Err? { return; }
    assert Listing(current.value, dev.live);
    verified := ConfirmBootRules(d.pendingRules, activeTargets, current.value);
    ConfirmedMeansServed(d.pendingRules, activeTargets, dev.live, current.value);
    record := Some(BootRecord(d, captured.value, unmounts, current.value, originalUids, uids.value, successful,
                              verified));
    CommitClaimsWhatIsLive(dev.live, d, record.value, current.value);
    CommittedBootInv(b, dev.bootId, baseMounts, targets, d, record.value, dev.Now(), current.value);
  }

  function BootRecord(d: Record, captured: seq<OwnedMount>, unmounts: seq<string>, current: seq<Rule>,
                      originalUids: seq<Uid>, observed: seq<Uid>, successful: bool, verified: bool): Record
  {
    d.(mounts := captured,
       ksuUnmounts := Some(unmounts),
       rules := Confirmed(d.pendingRules, current),
       isolatedUids := OwnedUids(d.isolatedUids, originalUids, observed),
       pendingRules := if verified then [] else d.pendingRules,
       phase := if successful && verified then Ready else Errored,
       error := !(successful && verified))
  }

  /** The commit claims exactly the planned rules that are live, whoever put them
      there: nothing, exactly if no planned rule has a live twin. */
  lemma CommitClaimsWhatIsLive(live: Live, d: Record, record: Record, rows: seq<Rule>)
    requires Listing(rows, live) && Solid(d.pendingRules) && record.rules == Confirmed(d.pendingRules, rows)
    ensures Claims(record.rules, d.pendingRules, live)
    ensures record.rules == [] <==> forall r :: r in d.pendingRules ==> Look(live, KeyOf(r)) != Some(PayloadOf(r))
  {
    forall r | r in d.pendingRules ensures Shown(rows, r) <==> Look(live, KeyOf(r)) == Some(PayloadOf(r)) {
      ShownMeansLive(rows, live, r);
    }
    if record.rules != [] {
      assert record.rules[0] in record.rules;
    } else {
      forall r | r in d.pendingRules ensures Look(live, KeyOf(r)) != Some(PayloadOf(r)) {
        assert r !in record.rules;
      }
    }
  }

  lemma CommittedBootInv(b: Baseline, bootId: string, baseMounts: set<LiveMount>, targets: seq<string>,
                         d: Record, record: Record, s: Snap, rows: seq<Rule>)
    requires OwnKeys(b, d.pendingRules) && PlanInFlight(b, d.pendingRules, d.isolatedUids, s)
    requires Listing(rows, s.live) && record.rules == Confirmed(d.pendingRules, rows)
    requires record.bootId == bootId
    requires if record.phase.Ready? then record.pendingRules == []
             else record.phase.Errored? && (record.pendingRules == [] || record.pendingRules == d.pendingRules)
    requires forall u :: u in record.isolatedUids <==> u in s.uids && u in d.isolatedUids && u !in b.uids
    requires MountsKept(b, baseMounts) && NewMountsKnown(b, baseMounts, targets, s.mounts)
    requires MountsOf(record.mounts) == NewAt(s.mounts, baseMounts, targets)
    ensures Inv(b, bootId, s.(disk := Some(record)))
  {
    CommittedBoot(b, baseMounts, targets, d, record, s.(disk := Some(record)), rows);
  }

  lemma CommittedBoot(b: Baseline, baseMounts: set<LiveMount>, targets: seq<string>, d: Record, record: Record,
                      s: Snap, rows: seq<Rule>)
    requires OwnKeys(b, d.pendingRules) && PlanInFlight(b, d.pendingRules, d.isolatedUids, s)
    requires Listing(rows, s.live) && record.rules == Confirmed(d.pendingRules, rows)
    requires record.pendingRules == [] || record.pendingRules == d.pendingRules
    requires forall u :: u in record.isolatedUids <==> u in s.uids && u in d.isolatedUids && u !in b.uids
    requires MountsKept(b, baseMounts) && NewMountsKnown(b, baseMounts, targets, s.mounts)
    requires MountsOf(record.mounts) == NewAt(s.mounts, baseMounts, targets)
    ensures Interrupted(b, record, s)
    ensures record.pendingRules == [] ==> Exact(b, record, s)
  {
    forall r | r in record.rules ensures Look(s.live, KeyOf(r)) == Some(PayloadOf(r)) {
      ShownMeansLive(rows, s.live, r);
    }
    forall k | !Kept(b, s.live, k)
      ensures k in KeysOf(record.rules) && Free(b, k) && k in s.live && HotTransaction.NamedBy(record, s.live, k)
    {
      var r :| r in d.pendingRules && KeyOf(r) == k && Look(s.live, k) == Some(PayloadOf(r));
      ShownMeansLive(rows, s.live, r);
      assert r in record.rules && r in record.rules + record.pendingRules;
    }
  }

  ghost predicate StraysAreKnown(b: Baseline, calls: seq<Call>, targets: seq<string>) {
    forall m :: MountOne(m) in calls ==> m.target in targets || m in b.strays
  }

  lemma HomeIsInFlight(b: Baseline, plan: seq<Rule>, requested: seq<Uid>, s: Snap)
    requires Home(b, s)
    ensures PlanInFlight(b, plan, requested, s)
  {
  }

  lemma NothingMounted(calls: seq<Call>, mounts: set<LiveMount>)
    ensures MountedBy(calls, mounts, mounts)
  {
  }

  lemma MountedIsKnown(b: Baseline, calls: seq<Call>, targets: seq<string>, was: set<LiveMount>, now: set<LiveMount>)
    requires MountedBy(calls, was, now) && StraysAreKnown(b, calls, targets)
    ensures NewMountsKnown(b, was, targets, now)
    ensures DistinctIds(was) ==> IdentitiesKept(was, now, targets)
  {
  }

  /** All calls have taken effect. */
  ghost predicate Did(plan: seq<Rule>, requested: seq<Uid>, calls: seq<Call>, was: Snap, now: Snap) {
    var s := AllPerformed(plan, requested, was, calls);
    now.live == s.live && now.uids == s.uids && now.mounts == s.mounts
  }

  lemma DidSince(plan: seq<Rule>, requested: seq<Uid>, calls: seq<Call>, was: Snap, start: Snap, now: Snap)
    requires start == was.(disk := start.disk) && Did(plan, requested, calls, start, now)
    ensures Did(plan, requested, calls, was, now)
  {
    WhateverIsStored(plan, requested, was, calls, start.disk);
  }

  /** Store the plan, and only then run the mount pipeline. */
  method StageAndMount(dev: Device, plan: seq<Rule>, requested: seq<Uid>, nonVfs: set<string>, calls: seq<Call>,
                       ghost b: Baseline) returns (staged: bool)
    requires dev.Valid() && Home(b, dev.Now()) && OwnKeys(b, plan)
    requires OfThisBoot(dev.disk, dev.bootId) && dev.disk.value.phase.Applying? && dev.disk.value.rules == []
    requires OwnKeys(b, dev.disk.value.pendingRules)
    modifies dev`live, dev`uids, dev`mounts, dev`disk, dev`history, dev`refusals
    ensures dev.Valid() && old(dev.history) <= dev.history
    ensures forall i :: old(|dev.history|) <= i < |dev.history| ==> Inv(b, dev.bootId, dev.history[i])
    ensures OfThisBoot(dev.disk, dev.bootId) && dev.disk.value.phase.Applying? && dev.disk.value.rules == []
    ensures OwnKeys(b, dev.disk.value.pendingRules)
    ensures PlanInFlight(b, dev.disk.value.pendingRules, dev.disk.value.isolatedUids, dev.Now())
    ensures staged ==> dev.disk.value.pendingRules == plan && dev.disk.value.isolatedUids == requested
    ensures staged ==> dev.disk.value.nonVfsModules == nonVfs
    ensures WithinPlan(plan, old(dev.live), dev.live)
    ensures !staged || calls == [] ==> dev.live == old(dev.live)
    ensures MountedBy(calls, old(dev.mounts), dev.mounts)
    ensures dev.forwardWorks && staged ==> Did(plan, requested, calls, old(dev.Now()), dev.Now())
    ensures LedgerForBoot(old(dev.disk), dev.bootId, dev.namespace).Ok? ==>
              LedgerForBoot(dev.disk, dev.bootId, dev.namespace).Ok?
    ensures dev.forwardWorks && LedgerForBoot(old(dev.disk), dev.bootId, dev.namespace).Ok? ==> staged
  {
    NothingMounted(calls, dev.mounts);
    assert WithinPlan(plan, dev.live, dev.live);
    hide OwnKeys, MountedBy, Inv, WithinPlan;
    staged := StagePlan(dev, plan, requested, nonVfs, b);
    HomeIsInFlight(b, dev.disk.value.pendingRules, dev.disk.value.isolatedUids, dev.Now());
    hide Home, PlanInFlight;
    if staged {
      WhateverIsStored(plan, requested, old(dev.Now()), calls, dev.disk);
      Pipeline(dev, plan, requested, calls, b);
    }
  }

  /** One boot, from the claim to the commit. Any step may be the last. */
  method Boot(dev: Device, plan: seq<Rule>, requested: seq<Uid>, nonVfs: set<string>, calls: seq<Call>,
              successful: bool,
              activeTargets: seq<string>, targets: seq<string>, unmounts: seq<string>, ghost b: Baseline)
    returns (ok: bool)
    requires dev.Valid() && Inv(b, dev.bootId, dev.Now()) && OwnKeys(b, plan)
    requires StraysAreKnown(b, calls, targets)
    modifies dev`live, dev`uids, dev`mounts, dev`disk, dev`history, dev`refusals
    ensures dev.Valid() && old(dev.history) <= dev.history
    ensures forall i :: old(|dev.history|) <= i < |dev.history| ==> Inv(b, dev.bootId, dev.history[i])
    ensures Inv(b, dev.bootId, dev.Now())
    ensures !MayStart(old(dev.disk), dev.bootId, dev.namespace) || Stuck(old(dev.disk), dev.bootId) ==>
              !ok && dev.Now() == old(dev.Now()) && dev.history == old(dev.history)
    ensures ok ==> OfThisBoot(dev.disk, dev.bootId) && dev.disk.value.phase.Ready? && dev.disk.value.ksuUnmounts.Some?
    ensures ok ==>
              LedgerForBoot(dev.disk, dev.bootId, dev.namespace).Ok? && Claims(dev.disk.value.rules, plan, dev.live)
    ensures WithinPlan(plan, old(dev.live), dev.live)
    ensures calls == [] ==> dev.live == old(dev.live)
    ensures MountedBy(calls, old(dev.mounts), dev.mounts)
    ensures dev.forwardWorks && MayStart(old(dev.disk), dev.bootId, dev.namespace) ==>
              Did(plan, requested, calls, old(dev.Now()), dev.Now())
    ensures ok ==> MountsOf(dev.disk.value.mounts) == NewAt(dev.mounts, old(dev.mounts), targets)
    ensures ok ==> successful && Served(plan, activeTargets, dev.live)
    ensures ok ==> dev.disk.value.nonVfsModules == nonVfs && dev.disk.value.ksuUnmounts == Some(unmounts)
    ensures MayStart(old(dev.disk), dev.bootId, dev.namespace) && RecordedReady(dev.disk, dev.bootId) ==>
              successful && Served(plan, activeTargets, dev.live)
    ensures dev.forwardWorks && MayStart(old(dev.disk), dev.bootId, dev.namespace) && DistinctIds(old(dev.mounts)) ==>
              && (ok <==> successful && Served(plan, activeTargets, dev.live))
              && Concluded(dev.disk, plan, successful, Served(plan, activeTargets, dev.live))
  {
    assert OwnKeys(b, []);
    hide OwnKeys, Claims, Served, IdentitiesKept, NewAt, StraysAreKnown, NewMountsKnown, MountedBy, DistinctIds;
    NothingMounted(calls, dev.mounts);
    assert WithinPlan(plan, dev.live, dev.live);
    hide Inv, Home, PlanInFlight, WithinPlan, MountsKept, RequireClean;
    var baseMounts, originalUids;
    ok, baseMounts, originalUids := Start(dev, b);
    if !ok { return; }
    hide Did, AllPerformed, LedgerForBoot, MayStart;
    ghost var start := dev.Now();
    var staged := StageAndMount(dev, plan, requested, nonVfs, calls, b);
    if dev.forwardWorks && staged { DidSince(plan, requested, calls, old(dev.Now()), start, dev.Now()); }
    MountedIsKnown(b, calls, targets, baseMounts, dev.mounts);
    var recorded := Finish(dev, baseMounts, originalUids, successful && staged, activeTargets, targets, unmounts, b);
    ok := staged && successful && recorded;
  }

  // --- Hot operations -----------------------------------------------------

  datatype Action = Load | Reload | Unload

  function OfModule(rules: seq<Rule>, id: string): (out: seq<Rule>)
    ensures forall r :: r in out <==> r in rules && r.moduleId == id
    ensures HotTransaction.ModuleSlice(rules, out)
  {
    if rules == [] then [] else
      var rest := OfModule(rules[1..], id);
      assert rules == [rules[0]] + rules[1..];
      if rules[0].moduleId == id then [rules[0]] + rest else rest
  }

  lemma AtEntryExactly(e: Snap, before: seq<Rule>, after: seq<Rule>, s: Snap)
    requires Solid(before) && Solid(after) && RuleTransaction.Startable(e.live, Table(before), Table(after))
    requires forall k :: KeyWithin(e.live, Table(before), Table(after), s.live, k)
    requires SolidEqual(s.live, e.live)
    ensures s.live == e.live
  {
    forall k ensures Look(s.live, k) == Look(e.live, k) {
      assert KeyWithin(e.live, Table(before), Table(after), s.live, k);
      assert SolidAt(s.live, k) == SolidAt(e.live, k);
      PutAllAt(map[], before, k);
      PutAllAt(map[], after, k);
    }
    forall k | k in s.live ensures k in e.live && s.live[k] == e.live[k] {
      assert Look(s.live, k) == Look(e.live, k);
    }
    forall k | k in e.live ensures k in s.live {
      assert Look(s.live, k) == Look(e.live, k);
    }
  }

  /** What a transaction may touch is the module's own, never the baseline's. */
  lemma TouchedKeysAreFree(b: Baseline, d: Record, e: Snap, before: seq<Rule>, after: seq<Rule>, k: Key)
    requires Exact(b, d, e) && (forall r :: r in before ==> r in d.rules)
    requires RuleTransaction.Startable(e.live, Table(before), Table(after))
    requires k in Table(before) || k in Table(after)
    ensures Free(b, k)
  {
    PutAllAt(map[], before, k);
    if k !in Table(before) {
      assert Look(e.live, k) == None;
      assert k !in KeysOf(d.rules);
      assert Kept(b, e.live, k);
    }
  }

  /** Every state of a transaction that starts from a ready ledger keeps the
      global invariant. */
  lemma TransactionKeepsInv(b: Baseline, bootId: string, d: Record, e: Snap, before: seq<Rule>, after: seq<Rule>,
                            requested: seq<Uid>, s: Snap)
    requires e.disk == Some(d) && d.bootId == bootId && d.phase.Ready? && Exact(b, d, e)
    requires HotTransaction.ModuleSlice(d.rules, before) && Solid(after)
    requires RuleTransaction.Startable(e.live, Table(before), Table(after))
    requires HotTransaction.TxSafe(e, d, Table(before), Table(after), requested, s)
    ensures Inv(b, bootId, s)
  {
    if HotTransaction.AtEntry(e, s) {
      AtEntryExactly(e, before, after, s);
      if s.disk != e.disk && !s.disk.value.phase.Ready? {
        ExactIsInterrupted(b, d, s.disk.value, s);
      }
    } else {
      var d' := s.disk.value;
      forall k ensures Kept(b, s.live, k) || (Free(b, k) && k in s.live && HotTransaction.NamedBy(d', s.live, k)) {
        assert KeyWithin(e.live, Table(before), Table(after), s.live, k);
        if k in Table(before) || k in Table(after) {
          TouchedKeysAreFree(b, d, e, before, after, k);
        }
        if Look(s.live, k) == Look(e.live, k) && !Kept(b, e.live, k) {
          var r :| r in d.rules && KeyOf(r) == k;
          assert r in d'.rules + d'.pendingRules;
        }
      }
    }
  }

  lemma ExactIsInterrupted(b: Baseline, d: Record, d': Record, s: Snap)
    requires Exact(b, d, s) && d'.rules == d.rules
    requires forall u :: u in d.isolatedUids ==> u in d'.isolatedUids
    ensures Interrupted(b, d', s)
  {
    forall k | !Kept(b, s.live, k) ensures Free(b, k) && k in s.live && HotTransaction.NamedBy(d', s.live, k) {
      var r :| r in d.rules && KeyOf(r) == k;
      assert r in d'.rules + d'.pendingRules;
    }
  }

  /** A committed transaction leaves an exact ledger again. */
  lemma CommitIsExact(b: Baseline, d: Record, e: Snap, before: seq<Rule>, after: seq<Rule>, requested: seq<Uid>,
                      s: Snap, saved: Record)
    requires Exact(b, d, e) && HotTransaction.ModuleSlice(d.rules, before) && Solid(after)
    requires HotTransaction.CommittedState(e, d, before, after, requested, s, saved)
    ensures Exact(b, saved, s) && saved.bootId == d.bootId
            && saved.rules == HotTransaction.OtherModules(d.rules, before) + after
  {
    HotTransaction.CommitKeepsOwnership(d.rules, before, after, e.live, s.live);
    var others := HotTransaction.OtherModules(d.rules, before);
    forall r | r in saved.rules ensures Free(b, KeyOf(r)) {
      if r in after {
        TableOfMember(after, r);
        TouchedKeysAreFree(b, d, e, before, after, KeyOf(r));
      }
    }
    forall k | k !in KeysOf(saved.rules) ensures Kept(b, s.live, k) {
      assert KeyWithin(e.live, Table(before), Table(after), s.live, k);
      PutAllAt(map[], after, k);
      PutAllAt(map[], before, k);
      forall r | r in after ensures KeyOf(r) != k {
        assert r in saved.rules;
      }
      if k in Table(before) {
        var r :| r in before && KeyOf(r) == k && PayloadOf(r) == Table(before)[k];
        assert SolidAt(s.live, k) == None && r in d.rules && !Derivable(PayloadOf(r));
        assert k !in s.live;
        TouchedKeysAreFree(b, d, e, before, after, k);
      } else {
        forall r | r in d.rules ensures KeyOf(r) != k {
          if r !in others { assert r in before; }
        }
        assert Kept(b, e.live, k);
      }
    }
  }

  /** What the ledger records once a hot operation has succeeded: the rules of the
      other modules, and the planned ones unless the module was unloaded. */
  function RulesAfter(action: Action, id: string, planned: seq<Rule>, rules: seq<Rule>): seq<Rule> {
    HotTransaction.OtherModules(rules, OfModule(rules, id)) + (if action.Unload? then [] else planned)
  }

  /** What an action expects: a ready ledger, a module that is active, or not for a
      load, and only served by rules, and every recorded UID still isolated. */
  predicate HotExpected(s: Snap, bootId: string, namespace: string, action: Action, id: string) {
    && OfThisBoot(s.disk, bootId) && LedgerForBoot(s.disk, bootId, namespace).Ok?
    && RequireReady(s.disk.value) && id !in s.disk.value.nonVfsModules
    && (action.Load? <==> OfModule(s.disk.value.rules, id) == [])
    && forall u :: u in s.disk.value.isolatedUids ==> u in s.uids
  }

  /** Whether a hot operation has nothing to refuse: all is as expected and no live
      rule is in the way. */
  ghost predicate HotMayRun(s: Snap, bootId: string, namespace: string, plain: bool,
                            action: Action, id: string, planned: seq<Rule>)
  {
    && HotExpected(s, bootId, namespace, action, id)
    && Admissible(s.live, plain, OfModule(s.disk.value.rules, id), if action.Unload? then [] else planned)
  }

  lemma OwnedArePresent(b: Baseline, d: Record, s: Snap, rows: seq<Rule>, plain: bool)
    requires Exact(b, d, s) && Readback(rows, s.live, plain)
    ensures VerifyPresent(rows, d.rules).Pass?
  {
    forall r | r in d.rules ensures Shown(rows, r) {
      ShownMeansLive(rows, s.live, r);
    }
  }

  /** Where a transaction starts: an exact, ready ledger, and what it records for a module. */
  ghost predicate HotStart(b: Baseline, bootId: string, d: Record, e: Snap, before: seq<Rule>, after: seq<Rule>) {
    && e.disk == Some(d) && d.bootId == bootId && d.phase.Ready? && Exact(b, d, e)
    && HotTransaction.ModuleSlice(d.rules, before) && Solid(after)
  }

  /** All the states that a transaction leaves behind keep the invariant, and a
      committed one is exact. */
  lemma TransactedInv(b: Baseline, bootId: string, d: Record, e: Snap, before: seq<Rule>, after: seq<Rule>,
                      requested: seq<Uid>, n: nat, history: seq<Snap>, s: Snap,
                      r: HotTransaction.TxResult, saved: Record)
    requires HotStart(b, bootId, d, e, before, after)
    requires 0 < n <= |history| && history[n - 1] == e && history[|history| - 1] == s
    requires n < |history| ==> RuleTransaction.Startable(e.live, Table(before), Table(after))
    requires forall i :: n <= i < |history| ==>
               HotTransaction.TxSafe(e, d, Table(before), Table(after), requested, history[i])
    requires HotTransaction.Concluded(r, e, d, before, after, requested, s, saved)
    ensures forall i :: n <= i < |history| ==> Inv(b, bootId, history[i])
    ensures Inv(b, bootId, s)
    ensures r.Committed? ==> Exact(b, saved, s) && saved.bootId == bootId
    ensures r.Committed? ==> saved.rules == HotTransaction.OtherModules(d.rules, before) + after
  {
    assert Inv(b, bootId, e);
    hide Inv, Exact, HotTransaction.TxSafe, HotTransaction.CommittedState, RuleTransaction.Startable;
    forall i | n <= i < |history| ensures Inv(b, bootId, history[i]) {
      TransactionKeepsInv(b, bootId, d, e, before, after, requested, history[i]);
    }
    if r.Committed? { CommitIsExact(b, d, e, before, after, requested, s, saved); }
  }

  /** The transaction of a hot operation, seen from the ledger. */
  method Transact(dev: Device, saved: Ledger, before: seq<Rule>, after: seq<Rule>, requested: seq<Uid>,
                  ghost d: Record, ghost b: Baseline) returns (ok: bool)
    requires dev.Valid() && saved.View() == d && HotStart(b, dev.bootId, d, dev.Now(), before, after)
    modifies dev`live, dev`uids, dev`disk, dev`history, dev`refusals, saved
    ensures dev.Valid() && old(dev.history) <= dev.history
    ensures forall i :: old(|dev.history|) <= i < |dev.history| ==> Inv(b, dev.bootId, dev.history[i])
    ensures Inv(b, dev.bootId, dev.Now())
    ensures ok ==> Exact(b, saved.View(), dev.Now()) && saved.bootId == dev.bootId
    ensures ok ==> IsolatesRequested(d, requested, old(dev.uids), saved.View(), dev.uids)
    ensures ok ==> dev.refusals == old(dev.refusals)
    ensures ok ==> saved.rules == HotTransaction.OtherModules(d.rules, before) + after
    ensures dev.forwardWorks && Admissible(old(dev.live), dev.plainListings, before, after) ==>
              (forall u :: u in d.isolatedUids ==> u in old(dev.uids)) ==> ok
    ensures !(forall u :: u in d.isolatedUids ==> u in old(dev.uids)) ==>
              !ok && dev.Now() == old(dev.Now()) && dev.history == old(dev.history)
  {
    assert forall x :: x in before ==> x in saved.rules;
    hide HotStart, Inv, Exact, RuleTransaction.Startable, Admissible, SolidEqual, Table, PutAll;
    hide HotTransaction.TxSafe, HotTransaction.AtEntry, HotTransaction.Restorable;
    hide HotTransaction.Undoable, HotTransaction.UidsAround, HotTransaction.Concluded, HotTransaction.OtherModules;
    var r, peak := HotTransaction.Reconcile(dev, saved, before, after, requested);
    ok := r.Committed?;
    TransactedInv(b, dev.bootId, d, old(dev.Now()), before, after, requested, old(|dev.history|), dev.history,
                  dev.Now(), r, saved.View());
    ConcludedMeans(r, old(dev.Now()), d, before, after, requested, dev.Now(), saved.View());
  }

  /** The requested UIDs are isolated besides those that were, and recorded as far as
      they are new. */
  ghost predicate IsolatesRequested(d: Record, requested: seq<Uid>, was: set<Uid>, record: Record, uids: set<Uid>) {
    && uids == was + (set u | u in requested)
    && forall u :: u in record.isolatedUids <==> u in d.isolatedUids || (u in requested && u !in was)
  }

  lemma CommittedIsolates(e: Snap, d: Record, before: seq<Rule>, after: seq<Rule>, requested: seq<Uid>, s: Snap,
                          saved: Record)
    requires HotTransaction.CommittedState(e, d, before, after, requested, s, saved)
    ensures IsolatesRequested(d, requested, e.uids, saved, s.uids)
  {
  }

  lemma ConcludedMeans(r: HotTransaction.TxResult, e: Snap, d: Record, before: seq<Rule>, after: seq<Rule>,
                              requested: seq<Uid>, s: Snap, saved: Record)
    requires HotTransaction.Concluded(r, e, d, before, after, requested, s, saved)
    ensures r.Refused? ==> s == e
    ensures r.Committed? ==> IsolatesRequested(d, requested, e.uids, saved, s.uids)
  {
    if r.Committed? { CommittedIsolates(e, d, before, after, requested, s, saved); }
  }

  /** The first thing stored since is the complete record, as one still to be synced. */
  ghost predicate Synced(d: Record, history: seq<Snap>, n: nat) {
    n < |history| && history[n].disk == Some(d.(generation := d.generation + 1, phase := Syncing))
  }

  /** The two commits that follow a transaction. Ownership is complete before the
      snapshots are refreshed. */
  method SyncAndReady(dev: Device, saved: Ledger, refreshed: bool, ghost b: Baseline) returns (ok: bool)
    requires dev.Valid() && Inv(b, dev.bootId, dev.Now())
    requires Exact(b, saved.View(), dev.Now()) && saved.bootId == dev.bootId
    modifies dev`disk, dev`history, dev`refusals, saved
    ensures dev.Valid() && old(dev.history) <= dev.history
    ensures forall i :: old(|dev.history|) <= i < |dev.history| ==> Inv(b, dev.bootId, dev.history[i])
    ensures Inv(b, dev.bootId, dev.Now())
    ensures ok ==> OfThisBoot(dev.disk, dev.bootId) && dev.disk.value.phase.Ready?
    ensures ok ==> dev.disk.value == old(saved.View()).(generation := old(saved.generation) + 1, phase := Ready)
    ensures ok ==> dev.refusals == old(dev.refusals)
    ensures dev.forwardWorks && refreshed ==> ok
    ensures dev.disk == old(dev.disk) || Synced(old(saved.View()), dev.history, old(|dev.history|))
    ensures !refreshed ==> !ok && (dev.disk == old(dev.disk) || (dev.disk.Some? && dev.disk.value.phase.Syncing?))
  {
    saved.generation := saved.generation + 1;
    saved.phase := Syncing;
    ghost var n := |dev.history|;
    ok := dev.Persist(saved.View());
    assert dev.disk == old(dev.disk) || Synced(old(saved.View()), dev.history, n);
    if !ok { return; }
    if !refreshed { return false; }
    saved.phase := Ready;
    ok := dev.Persist(saved.View());
  }

  /** Everything a hot operation checks before it starts. */
  method Admit(dev: Device, action: Action, id: string, planned: seq<Rule>, guarded: bool, prepared: bool,
               ghost b: Baseline)
    returns (ok: bool, d: Record, before: seq<Rule>, after: seq<Rule>)
    requires dev.Valid() && Inv(b, dev.bootId, dev.Now()) && Solid(planned)
    ensures ok ==> HotStart(b, dev.bootId, d, dev.Now(), before, after)
    ensures ok ==> before == OfModule(d.rules, id) && after == (if action.Unload? then [] else planned)
    ensures ok ==> !guarded && prepared
    ensures ok ==> (forall u :: u in d.isolatedUids ==> u in dev.uids) ==>
              HotExpected(dev.Now(), dev.bootId, dev.namespace, action, id)
    ensures !guarded && prepared && dev.forwardWorks ==>
              HotMayRun(dev.Now(), dev.bootId, dev.namespace, dev.plainListings, action, id, planned) ==> ok
  {
    ok, before, after := false, [], [];
    var loaded := LedgerForBoot(dev.disk, dev.bootId, dev.namespace);
    d := if loaded.Ok? then loaded.value else FreshRecord(dev.bootId, dev.namespace);
    if loaded.Err? || !RequireReady(d) || guarded { return; }
    assert Exact(b, d, dev.Now());
    hide Inv, Exact, VerifyPresent, Admissible, RuleTransaction.Startable, Listing, Readback, ValidSnapshot;
    var current := dev.List(Forward);
    if current.Ok? { OwnedArePresent(b, d, dev.Now(), current.value, dev.plainListings); }
    if current.Err? || VerifyPresent(current.value, d.rules).Fail? || !prepared { return; }
    if id in d.nonVfsModules { return; }
    before := OfModule(d.rules, id);
    if (action.Load? && before != []) || (!action.Load? && before == []) { return; }
    after := if action.Unload? then [] else planned;
    ok := HotTransaction.Preflight(dev, before, after);
  }

  /** Load, reload or unload one module. `planned` is what the planner made of it,
      `guarded` says whether a crash guard refuses the operation, and `prepared`
      whether configuration, planning and mount validation succeeded, `refreshed`
      whether the snapshots could be written. */
  method HotApply(dev: Device, action: Action, id: string, planned: seq<Rule>, requested: seq<Uid>,
                  guarded: bool, prepared: bool, refreshed: bool, ghost b: Baseline)
    returns (ok: bool)
    requires dev.Valid() && Inv(b, dev.bootId, dev.Now()) && Solid(planned)
    modifies dev`live, dev`uids, dev`disk, dev`history, dev`refusals
    ensures dev.Valid() && old(dev.history) <= dev.history
    ensures forall i :: old(|dev.history|) <= i < |dev.history| ==> Inv(b, dev.bootId, dev.history[i])
    ensures Inv(b, dev.bootId, dev.Now())
    ensures Stuck(old(dev.disk), dev.bootId) ==> !ok && dev.Now() == old(dev.Now()) && dev.history == old(dev.history)
    ensures ok ==> OfThisBoot(dev.disk, dev.bootId) && dev.disk.value.phase.Ready?
    ensures ok ==> OfThisBoot(old(dev.disk), dev.bootId)
                   && dev.disk.value.rules == RulesAfter(action, id, planned, old(dev.disk.value.rules))
    ensures guarded || !prepared || !HotExpected(old(dev.Now()), dev.bootId, dev.namespace, action, id) ==>
              !ok && dev.Now() == old(dev.Now()) && dev.history == old(dev.history)
    ensures ok ==> IsolatesRequested(old(dev.disk.value), requested, old(dev.uids), dev.disk.value, dev.uids)
    ensures ok ==> dev.refusals == old(dev.refusals)
    ensures dev.forwardWorks && !guarded && prepared && refreshed ==>
              HotMayRun(old(dev.Now()), dev.bootId, dev.namespace, dev.plainListings, action, id, planned) ==> ok
  {
    var d, before, after;
    ok, d, before, after := Admit(dev, action, id, planned, guarded, prepared, b);
    if !ok { return; }
    assert dev.disk == Some(d) && d.bootId == dev.bootId;
    assert HotMayRun(dev.Now(), dev.bootId, dev.namespace, dev.plainListings, action, id, planned) ==>
             && Admissible(dev.live, dev.plainListings, before, after)
             && forall u :: u in d.isolatedUids ==> u in dev.uids;
    hide Inv, HotStart, HotMayRun, Admissible, HotExpected, OfModule, HotTransaction.OtherModules;
    ok := RunHot(dev, d, before, after, requested, refreshed, b);
  }

  /** The transaction and the two commits that follow it. */
  method RunHot(dev: Device, d: Record, before: seq<Rule>, after: seq<Rule>, requested: seq<Uid>, refreshed: bool,
                ghost b: Baseline) returns (ok: bool)
    requires dev.Valid() && HotStart(b, dev.bootId, d, dev.Now(), before, after)
    modifies dev`live, dev`uids, dev`disk, dev`history, dev`refusals
    ensures dev.Valid() && old(dev.history) <= dev.history
    ensures forall i :: old(|dev.history|) <= i < |dev.history| ==> Inv(b, dev.bootId, dev.history[i])
    ensures Inv(b, dev.bootId, dev.Now())
    ensures ok ==> RecordedReady(dev.disk, dev.bootId)
                   && dev.disk.value.rules == HotTransaction.OtherModules(d.rules, before) + after
    ensures ok ==> IsolatesRequested(d, requested, old(dev.uids), dev.disk.value, dev.uids)
    ensures ok ==> dev.refusals == old(dev.refusals)
    ensures dev.forwardWorks && refreshed && Admissible(old(dev.live), dev.plainListings, before, after) ==>
              (forall u :: u in d.isolatedUids ==> u in old(dev.uids)) ==> ok
    ensures !(forall u :: u in d.isolatedUids ==> u in old(dev.uids)) ==>
              !ok && dev.Now() == old(dev.Now()) && dev.history == old(dev.history)
  {
    hide Inv, HotStart, Admissible, Exact, HotTransaction.OtherModules;
    var saved := new Ledger(d);
    ok := Transact(dev, saved, before, after, requested, d, b);
    if ok { ok := SyncAndReady(dev, saved, refreshed, b); }
  }
}
