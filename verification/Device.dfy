/// The persisted ownership record (src/runtime/ledger.rs).
module Ledgers {
  import opened Rules
  import opened Wrappers

  datatype Phase = Clean | Applying | Ready | Syncing | Cleaning | Errored | Unrecognised

  datatype OwnedMount = OwnedMount(
    target: string, id: int, baselineIds: seq<int>, device: string, fsType: string, source: Option<string>)

  /** One serialised ledger. `error` says whether an error text is stored. */
  datatype Record = Record(
    version: nat, bootId: string, namespace: string, generation: nat, phase: Phase,
    rules: seq<Rule>, pendingRules: seq<Rule>, mounts: seq<OwnedMount>,
    ksuUnmounts: Option<seq<string>>, nonVfsModules: set<string>,
    isolatedUids: seq<Uid>, error: bool)

  /** The ledger an operation holds in memory and updates field by field. */
  class Ledger {
    var version: nat
    var bootId: string
    var namespace: string
    var generation: nat
    var phase: Phase
    var rules: seq<Rule>
    var pendingRules: seq<Rule>
    var mounts: seq<OwnedMount>
    var ksuUnmounts: Option<seq<string>>
    var nonVfsModules: set<string>
    var isolatedUids: seq<Uid>
    var error: bool

    constructor (r: Record)
      ensures View() == r
    {
      version := r.version;
      bootId := r.bootId;
      namespace := r.namespace;
      generation := r.generation;
      phase := r.phase;
      rules := r.rules;
      pendingRules := r.pendingRules;
      mounts := r.mounts;
      ksuUnmounts := r.ksuUnmounts;
      nonVfsModules := r.nonVfsModules;
      isolatedUids := r.isolatedUids;
      error := r.error;
    }

    function View(): Record
      reads this
    {
      Record(version, bootId, namespace, generation, phase, rules, pendingRules, mounts,
             ksuUnmounts, nonVfsModules, isolatedUids, error)
    }
  }
}

/// The kernel and the ledger file as the runtime sees them: a table of live
/// rules, a set of isolated UIDs and one stored record, behind calls that may
/// stop after any prefix and report anything.
module Devices {
  import opened Ledgers
  import opened Rules
  import opened Wrappers

  /** Which part of the protocol issues a call. Only the fault model reads it. */
  datatype Stage = Forward | Recovery

  /** A mount as the kernel lists it. */
  datatype LiveMount = LiveMount(id: int, target: string, device: string, fsType: string, source: Option<string>)

  function IdentityOf(m: OwnedMount): LiveMount {
    LiveMount(m.id, m.target, m.device, m.fsType, m.source)
  }

  function MountsOf(owned: seq<OwnedMount>): set<LiveMount> {
    set m | m in owned :: IdentityOf(m)
  }

  predicate DistinctIds(mounts: set<LiveMount>) {
    forall a, b :: a in mounts && b in mounts && a.id == b.id ==> a == b
  }

  /** No mount of the baseline has become another one at a recorded target. */
  predicate IdentitiesKept(baseline: set<LiveMount>, current: set<LiveMount>, targets: seq<string>) {
    forall o, m :: o in baseline && m in current && m.target in targets && o.id == m.id ==> o == m
  }

  /** The mounts that are newer than a baseline, at some targets. */
  function NewAt(mounts: set<LiveMount>, baseline: set<LiveMount>, targets: seq<string>): set<LiveMount> {
    set m | m in mounts - baseline && m.target in targets
  }

  /** Everything that survives a crash of the runtime. */
  datatype Snap = Snap(live: Live, uids: set<Uid>, mounts: set<LiveMount>, disk: Option<Record>)

  class Device {
    var live: Live
    var uids: set<Uid>
    var mounts: set<LiveMount>
    var disk: Option<Record>
    /** The identity of the running kernel boot and of its mount namespace. */
    var bootId: string
    var namespace: string
    /** Every state since the device was first seen, oldest first. */
    var history: seq<Snap>
    /** How many calls that change something have reported a failure. */
    ghost var refusals: nat
    /** Whether the calls of the recovery stage take full effect and can be read
        back, and whether they say so. Where they do not, their reports are arbitrary. */
    var recoveryWorks: bool
    var recoveryReports: bool
    /** Whether the calls of the forward stage take full effect and say so, the
        stored ledger and the mounts included. */
    var forwardWorks: bool
    /** Whether a listing shows live rules only, and no parents derived from them. */
    var plainListings: bool

    predicate Works(stage: Stage)
      reads this`forwardWorks, this`recoveryWorks
    {
      if stage.Forward? then forwardWorks else recoveryWorks
    }

    /** Whether a call of a stage takes full effect and says so. */
    predicate Reliable(stage: Stage)
      reads this`forwardWorks, this`recoveryWorks, this`recoveryReports
    {
      Works(stage) && (stage.Recovery? ==> recoveryReports)
    }

    ghost predicate Valid()
      reads this
    {
      history != [] && history[|history|-1] == Now()
    }

    function Now(): Snap
      reads this
    {
      Snap(live, uids, mounts, disk)
    }

    constructor (now: Snap, bootId: string, namespace: string)
      ensures Valid() && Now() == now && history == [now]
      ensures this.bootId == bootId && this.namespace == namespace
      ensures !forwardWorks && !recoveryWorks && !recoveryReports && !plainListings
    {
      live := now.live;
      uids := now.uids;
      mounts := now.mounts;
      disk := now.disk;
      this.bootId := bootId;
      this.namespace := namespace;
      forwardWorks, recoveryWorks, recoveryReports, plainListings := false, false, false, false;
      history := [now];
      refusals := 0;
    }

    /** Read the table back. */
    method List(stage: Stage) returns (r: Result<seq<Rule>>)
      ensures r.Ok? ==> Readback(r.value, live, plainListings)
      ensures Works(stage) ==> r.Ok?
    {
      var works: bool := *;
      if !works && !Works(stage) {
        return Err;
      }
      var rows: seq<Rule> := [];
      var todo := live.Keys;
      while todo != {}
        invariant todo <= live.Keys
        invariant forall x :: x in rows ==> KeyOf(x) in live && PayloadOf(x) == live[KeyOf(x)]
        invariant forall k :: k in live && k !in todo ==> k in KeysOf(rows)
        decreases todo
      {
        var k :| k in todo;
        var bits: bv32 := *;
        var row := Dress(k, live[k], bits);
        assert forall x :: x in rows + [row] <==> x in rows || x == row;
        rows := rows + [row];
        todo := todo - {k};
      }
      var parents: set<Key> := *;
      todo := if plainListings then {} else parents - live.Keys;
      while todo != {}
        invariant todo !! live.Keys && (plainListings ==> todo == {})
        invariant Readback(rows, live, plainListings)
        decreases todo
      {
        var k :| k in todo;
        var bits: bv32 := *;
        var row := Rule("", k.path, "", FLAG_VIRTUAL_DIR | (bits & DERIVED_FLAGS), k.uid);
        DerivedRow(row, bits);
        assert forall x :: x in rows + [row] <==> x in rows || x == row;
        rows := rows + [row];
        todo := todo - {k};
      }
      r := Ok(rows);
    }

    /** Put the records of a batch one by one, stopping wherever the kernel does. */
    method Put(batch: seq<Rule>, stage: Stage) returns (ok: bool, ghost applied: nat)
      requires Valid()
      modifies this`live, this`history, this`refusals
      ensures refusals == old(refusals) + (if ok then 0 else 1)
      ensures Valid()
      ensures applied <= |batch|
      ensures Reliable(stage) ==> ok
      ensures Works(stage) ==> applied == |batch|
      ensures live == PutAll(old(live), batch[..applied])
      ensures |history| == old(|history|) + applied && old(history) <= history
      ensures forall i :: old(|history|) <= i < |history| ==>
                history[i] == Snap(PutAll(old(live), batch[..i - old(|history|) + 1]), uids, mounts, disk)
    {
      var limit: int := *;
      if limit < 0 || |batch| < limit || Works(stage) {
        limit := |batch|;
      }
      applied := 0;
      for i := 0 to limit
        invariant applied == i && refusals == old(refusals)
        invariant Valid()
        invariant live == PutAll(old(live), batch[..i])
        invariant |history| == old(|history|) + i && old(history) <= history
        invariant forall j :: old(|history|) <= j < |history| ==>
                    history[j] == Snap(PutAll(old(live), batch[..j - old(|history|) + 1]), uids, mounts, disk)
      {
        assert batch[..i+1][..i] == batch[..i];
        live := live[KeyOf(batch[i]) := PayloadOf(batch[i])];
        history := history + [Now()];
        applied := applied + 1;
      }
      ok := *;
      if Reliable(stage) { ok := true; }
      refusals := refusals + (if ok then 0 else 1);
    }

    /** Delete the records of a batch one by one, stopping wherever the kernel does. */
    method Delete(batch: seq<Rule>, stage: Stage) returns (ok: bool, ghost applied: nat)
      requires Valid()
      modifies this`live, this`history, this`refusals
      ensures refusals == old(refusals) + (if ok then 0 else 1)
      ensures Valid()
      ensures applied <= |batch|
      ensures Reliable(stage) ==> ok
      ensures Works(stage) ==> applied == |batch|
      ensures live == old(live) - KeysOf(batch[..applied])
      ensures |history| == old(|history|) + applied && old(history) <= history
      ensures forall i :: old(|history|) <= i < |history| ==>
                history[i] == Snap(old(live) - KeysOf(batch[..i - old(|history|) + 1]), uids, mounts, disk)
    {
      var limit: int := *;
      if limit < 0 || |batch| < limit || Works(stage) {
        limit := |batch|;
      }
      applied := 0;
      assert live == old(live) - KeysOf(batch[..0]);
      for i := 0 to limit
        invariant applied == i && refusals == old(refusals)
        invariant Valid()
        invariant live == old(live) - KeysOf(batch[..i])
        invariant |history| == old(|history|) + i && old(history) <= history
        invariant forall j :: old(|history|) <= j < |history| ==>
                    history[j] == Snap(old(live) - KeysOf(batch[..j - old(|history|) + 1]), uids, mounts, disk)
      {
        assert batch[..i+1] == batch[..i] + [batch[i]];
        assert KeysOf(batch[..i+1]) == KeysOf(batch[..i]) + {KeyOf(batch[i])};
        live := live - {KeyOf(batch[i])};
        history := history + [Now()];
        applied := applied + 1;
      }
      ok := *;
      if Reliable(stage) { ok := true; }
      refusals := refusals + (if ok then 0 else 1);
    }

    /** Read the isolated UIDs back, in any order. */
    method ReadUids(stage: Stage) returns (r: Result<seq<Uid>>)
      ensures r.Ok? ==> forall u :: u in r.value <==> u in uids
      ensures Works(stage) ==> r.Ok?
    {
      var works: bool := *;
      if !works && !Works(stage) {
        return Err;
      }
      var rows: seq<Uid> := [];
      var todo := uids;
      while todo != {}
        invariant todo <= uids
        invariant forall u :: u in rows <==> u in uids && u !in todo
        decreases todo
      {
        var u :| u in todo;
        rows := rows + [u];
        todo := todo - {u};
      }
      r := Ok(rows);
    }

    method AddUids(batch: seq<Uid>, stage: Stage) returns (ok: bool)
      requires Valid()
      modifies this`uids, this`history, this`refusals
      ensures refusals == old(refusals) + (if ok then 0 else 1)
      ensures Valid()
      ensures old(uids) <= uids <= old(uids) + set u | u in batch
      ensures Works(stage) ==> uids == old(uids) + set u | u in batch
      ensures Reliable(stage) ==> ok
      ensures old(history) <= history
      ensures forall i :: old(|history|) <= i < |history| ==>
                && history[i].live == live && history[i].mounts == mounts && history[i].disk == disk
                && old(uids) <= history[i].uids <= uids
    {
      var limit: int := *;
      if limit < 0 || |batch| < limit || Works(stage) {
        limit := |batch|;
      }
      for i := 0 to limit
        invariant Valid() && refusals == old(refusals)
        invariant uids == old(uids) + set u | u in batch[..i]
        invariant old(uids) <= uids <= old(uids) + set u | u in batch
        invariant old(history) <= history
        invariant forall j :: old(|history|) <= j < |history| ==>
                    && history[j].live == live && history[j].mounts == mounts && history[j].disk == disk
                    && old(uids) <= history[j].uids <= uids
      {
        uids := uids + {batch[i]};
        assert batch[..i+1] == batch[..i] + [batch[i]];
        history := history + [Now()];
      }
      assert limit == |batch| ==> batch[..limit] == batch;
      ok := *;
      if Reliable(stage) { ok := true; }
      refusals := refusals + (if ok then 0 else 1);
    }

    method RemoveUids(batch: seq<Uid>, stage: Stage) returns (ok: bool)
      requires Valid()
      modifies this`uids, this`history, this`refusals
      ensures refusals == old(refusals) + (if ok then 0 else 1)
      ensures Valid()
      ensures old(uids) - (set u | u in batch) <= uids <= old(uids)
      ensures Works(stage) ==> uids == old(uids) - set u | u in batch
      ensures Reliable(stage) ==> ok
      ensures old(history) <= history
      ensures forall i :: old(|history|) <= i < |history| ==>
                && history[i].live == live && history[i].mounts == mounts && history[i].disk == disk
                && old(uids) - (set u | u in batch) <= history[i].uids <= old(uids)
    {
      var limit: int := *;
      if limit < 0 || |batch| < limit || Works(stage) {
        limit := |batch|;
      }
      for i := 0 to limit
        invariant Valid() && refusals == old(refusals)
        invariant uids == old(uids) - set u | u in batch[..i]
        invariant old(history) <= history
        invariant forall j :: old(|history|) <= j < |history| ==>
                    && history[j].live == live && history[j].mounts == mounts && history[j].disk == disk
                    && old(uids) - (set u | u in batch) <= history[j].uids <= old(uids)
      {
        uids := uids - {batch[i]};
        assert batch[..i+1] == batch[..i] + [batch[i]];
        history := history + [Now()];
      }
      assert limit == |batch| ==> batch[..limit] == batch;
      ok := *;
      if Reliable(stage) { ok := true; }
      refusals := refusals + (if ok then 0 else 1);
    }

    /** Store a record atomically. A failed store may or may not have replaced
        the old record. */
    method Persist(record: Record) returns (ok: bool)
      requires Valid()
      modifies this`disk, this`history, this`refusals
      ensures refusals == old(refusals) + (if ok then 0 else 1)
      ensures Valid()
      ensures disk == old(disk) || disk == Some(record)
      ensures ok ==> disk == Some(record)
      ensures forwardWorks ==> ok
      ensures old(history) <= history
      ensures forall i :: old(|history|) <= i < |history| ==> history[i] == Now()
      ensures ok || disk != old(disk) ==> |history| > old(|history|)
    {
      var stored: bool := *;
      if stored || forwardWorks {
        disk := Some(record);
        history := history + [Now()];
        ok := *;
        if forwardWorks { ok := true; }
      } else {
        ok := false;
      }
      refusals := refusals + (if ok then 0 else 1);
    }

    /** Mount something new. */
    method Attach(m: LiveMount)
      requires Valid()
      modifies this`mounts, this`history
      ensures Valid() && mounts == old(mounts) + {m} && history == old(history) + [Now()]
    {
      mounts := mounts + {m};
      history := history + [Now()];
    }

    /** Detach recorded mounts, deepest first. Success is reported only when none
        of the recorded IDs is left. */
    method DetachOwned(owned: seq<OwnedMount>) returns (ok: bool)
      requires Valid()
      modifies this`mounts, this`history, this`refusals
      ensures refusals == old(refusals) + (if ok then 0 else 1)
      ensures Valid() && old(mounts) - MountsOf(owned) <= mounts <= old(mounts)
      ensures ok ==> mounts == old(mounts) - MountsOf(owned)
      ensures forwardWorks ==> ok
      ensures old(history) <= history
      ensures forall i :: old(|history|) <= i < |history| ==>
                && history[i] == Now().(mounts := history[i].mounts)
                && old(mounts) - MountsOf(owned) <= history[i].mounts <= old(mounts)
    {
      for i := 0 to |owned|
        invariant Valid() && mounts == old(mounts) - MountsOf(owned[..i])
        invariant old(history) <= history
        invariant forall j :: old(|history|) <= j < |history| ==>
                    && history[j] == Now().(mounts := history[j].mounts)
                    && old(mounts) - MountsOf(owned) <= history[j].mounts <= old(mounts)
        invariant refusals == old(refusals)
      {
        assert owned[..i+1] == owned[..i] + [owned[i]];
        var stop: bool := *;
        if stop && !forwardWorks {
          refusals := refusals + 1;
          return false;
        }
        mounts := mounts - {IdentityOf(owned[i])};
        history := history + [Now()];
      }
      assert owned[..|owned|] == owned;
      ok := true;
    }

    /** Record the mounts that appeared at reported targets since the baseline. */
    method CaptureMounts(baseline: set<LiveMount>, targets: seq<string>) returns (r: Result<seq<OwnedMount>>)
      ensures r.Ok? ==> IdentitiesKept(baseline, mounts, targets)
      ensures r.Ok? ==> MountsOf(r.value) == NewAt(mounts, baseline, targets)
      ensures forwardWorks && IdentitiesKept(baseline, mounts, targets) ==> r.Ok?
    {
      var works: bool := *;
      if (!works && !forwardWorks) || !IdentitiesKept(baseline, mounts, targets) { return Err; }
      var rows: seq<OwnedMount> := [];
      var todo := NewAt(mounts, baseline, targets);
      while todo != {}
        invariant todo <= NewAt(mounts, baseline, targets)
        invariant MountsOf(rows) == NewAt(mounts, baseline, targets) - todo
        decreases todo
      {
        assert (forall x: LiveMount :: x !in todo) ==> todo == {};
        var m :| m in todo;
        var baselineIds: seq<int> := *;
        var row := OwnedMount(m.target, m.id, baselineIds, m.device, m.fsType, m.source);
        AddedMount(rows, row);
        rows := rows + [row];
        todo := todo - {m};
      }
      r := Ok(rows);
    }

    /** The runtime dies at some state between `since` and now. What follows that
        state never happened. */
    method Crash(since: nat)
      requires Valid() && since < |history|
      modifies this`live, this`uids, this`mounts, this`disk, this`history
      ensures Valid() && since < |history| <= old(|history|)
      ensures history == old(history)[..|history|]
    {
      var last: int := *;
      if last < since || |history| <= last { last := |history| - 1; }
      live := history[last].live;
      uids := history[last].uids;
      mounts := history[last].mounts;
      disk := history[last].disk;
      history := history[..last + 1];
    }
  }

  lemma AddedMount(rows: seq<OwnedMount>, row: OwnedMount)
    ensures MountsOf(rows + [row]) == MountsOf(rows) + {IdentityOf(row)}
  {
    forall x ensures x in MountsOf(rows + [row]) <==> x in MountsOf(rows) || x == IdentityOf(row) {
      assert row in rows + [row];
      if m :| m in rows && IdentityOf(m) == x {
        assert m in rows + [row];
      }
    }
  }

  /** The row that shows a live rule, with whatever derived bits it has now. */
  function Dress(k: Key, p: Payload, bits: bv32): (row: Rule)
    ensures KeyOf(row) == k && PayloadOf(row) == p
  {
    Rule("", k.path, p.realPath, p.core | (bits & DERIVED_FLAGS), k.uid)
  }

  lemma DerivedRow(row: Rule, bits: bv32)
    requires row.flags == FLAG_VIRTUAL_DIR | (bits & DERIVED_FLAGS) && row.realPath == ""
    ensures DerivedParent(row)
  {
  }
}
