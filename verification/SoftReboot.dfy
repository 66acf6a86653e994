/// Soft-reboot cleanup: what the ledger records is given back, in steps that may
/// fail and be tried again (src/runtime/boot.rs, src/runtime/ledger.rs).
module SoftReboot {
  import HotTransaction
  import opened Devices
  import opened Ledgers
  import opened Lifecycle
  import opened Rules
  import opened RuleTransaction
  import opened Wrappers

  // --- What a cleanup may do, and when it can -----------------------------

  /** What cleanup makes of a record: rules are forgotten as a whole, and mounts
      together with their registrations. */
  predicate Forgets(d0: Record, d: Record) {
    && d.version == d0.version && d.bootId == d0.bootId && d.namespace == d0.namespace
    && (d.rules == d0.rules || d.rules == [])
    && ((d.mounts == d0.mounts && d.ksuUnmounts == d0.ksuUnmounts) || (d.mounts == [] && d.ksuUnmounts == Some([])))
    && (d.phase == d0.phase || d.phase.Cleaning? || d.phase.Clean?)
  }

  /** What cleanup makes of a state: of what is live only recorded rules go, and before
      they are gone no UID, no mount and no record of them does. */
  ghost predicate Shrinks(g: Snap, s: Snap) {
    && g.disk.Some? && s.disk.Some? && Forgets(g.disk.value, s.disk.value)
    && (forall k :: Look(s.live, k) == Look(g.live, k) || (k in KeysOf(g.disk.value.rules) && k !in s.live))
    && (s.uids != g.uids || s.mounts != g.mounts || s.disk.value.rules != g.disk.value.rules ==>
          NoneLive(g.disk.value.rules, s.live))
  }

  predicate NoneLive(rules: seq<Rule>, live: Live) {
    forall k :: k in KeysOf(rules) ==> k !in live
  }

  predicate PathsMeet(p: string, q: string) {
    p == q || Ancestor(p, q) || Ancestor(q, p)
  }

  /** Nothing live but the recorded rules is on, above or below a recorded path. */
  predicate Unrelated(live: Live, rules: seq<Rule>) {
    forall k, r :: k in live && k !in KeysOf(rules) && r in rules ==> !PathsMeet(k.path, r.virtualPath)
  }

  /** A ledger of this boot that cleanup does not refuse, and no live rule in its way. */
  predicate Cleanable(bootId: string, namespace: string, s: Snap) {
    && OfThisBoot(s.disk, bootId) && LedgerForBoot(s.disk, bootId, namespace).Ok?
    && !Stuck(s.disk, bootId) && OwnedUnmounts(s.disk.value).Ok?
    && Unrelated(s.live, s.disk.value.rules)
  }

  /** Whatever part of a cleanup was done, the rest can still be. */
  lemma CleanableStays(bootId: string, namespace: string, g: Snap, s: Snap)
    requires Cleanable(bootId, namespace, g) && Shrinks(g, s)
    ensures Cleanable(bootId, namespace, s)
  {
    forall k, r | k in s.live && k !in KeysOf(s.disk.value.rules) && r in s.disk.value.rules
      ensures !PathsMeet(k.path, r.virtualPath)
    {
      assert Look(s.live, k) == Look(g.live, k);
      assert k in g.live;
    }
  }

  lemma ShrinksComposes(g: Snap, m: Snap, s: Snap)
    requires Shrinks(g, m) && Shrinks(m, s)
    ensures Shrinks(g, s)
  {
    forall k ensures Look(s.live, k) == Look(g.live, k) || (k in KeysOf(g.disk.value.rules) && k !in s.live) {
      assert Look(s.live, k) == Look(m.live, k) || (k in KeysOf(m.disk.value.rules) && k !in s.live);
    }
  }

  // --- Rules --------------------------------------------------------------

  datatype Remaining = Live(rules: seq<Rule>) | Drifted

  predicate HasRow(rows: seq<Rule>, r: Rule) {
    exists row :: row in rows && SameKey(row, r)
  }

  /** The recorded rules that are still there; a changed one is refused. */
  function StillRecorded(rules: seq<Rule>, current: seq<Rule>): (out: Remaining)
    ensures out.Live? <==> forall r :: r in rules && HasRow(current, r) ==> Shown(current, r)
    ensures out.Live? ==> forall r :: r in out.rules <==> r in rules && HasRow(current, r)
    ensures out.Live? && UniqueKeys(rules) ==> UniqueKeys(out.rules)
  {
    if rules == [] then Live([])
    else
      var rest := StillRecorded(rules[1..], current);
      assert rules == [rules[0]] + rules[1..];
      assert UniqueKeys(rules) ==> UniqueKeys(rules[1..]);
      if !HasRow(current, rules[0]) then rest
      else if rest.Drifted? || !Shown(current, rules[0]) then Drifted
      else
        assert UniqueKeys(rules) ==> forall r :: r in rest.rules ==> KeyOf(r) != KeyOf(rules[0]);
        Live([rules[0]] + rest.rules)
  }

  /** With only live rules listed and none of them in the way, no recorded rule has
      drifted, and no listing speaks against deleting them. */
  lemma CleanupIsAdmissible(b: Baseline, d: Record, e: Snap, rows: seq<Rule>)
    requires Partial(b, d, e) && Readback(rows, e.live, true) && Unrelated(e.live, d.rules)
    ensures StillRecorded(d.rules, rows).Live?
    ensures Admissible(e.live, true, StillRecorded(d.rules, rows).rules, [])
  {
    forall r | r in d.rules && HasRow(rows, r) ensures Shown(rows, r) {
      ShownMeansLive(rows, e.live, r);
    }
    var remaining := StillRecorded(d.rules, rows).rules;
    forall again | Readback(again, e.live, true) ensures ValidSnapshot(again, remaining, []) {
      forall r | r in remaining ensures Shown(again, r) {
        assert KeyOf(r) in e.live;
        ShownMeansLive(again, e.live, r);
      }
      forall actual, owned | actual in again && owned in remaining + [] && !Owned(remaining, actual)
        ensures !Conflict(actual, owned)
      {
        NotOwnedIsNotRecorded(d, e, rows, remaining, actual);
        assert owned in d.rules;
        assert !PathsMeet(KeyOf(actual).path, owned.virtualPath);
      }
    }
  }

  lemma NotOwnedIsNotRecorded(d: Record, e: Snap, rows: seq<Rule>, remaining: seq<Rule>, actual: Rule)
    requires Readback(rows, e.live, true) && KeyOf(actual) in e.live && !Owned(remaining, actual)
    requires forall r :: r in remaining <==> r in d.rules && HasRow(rows, r)
    ensures KeyOf(actual) !in KeysOf(d.rules)
  {
    if KeyOf(actual) in KeysOf(d.rules) {
      var r :| r in d.rules && KeyOf(r) == KeyOf(actual);
      var row := RowOf(rows, e.live, KeyOf(actual));
      assert SameKey(row, r) && SameKey(r, actual);
    }
  }

  /** Delete what is left of the recorded rules. */
  method DeleteRecorded(dev: Device, rules: seq<Rule>, ghost d: Record, ghost b: Baseline) returns (ok: bool)
    requires dev.Valid() && d.phase.Cleaning? && d.bootId == dev.bootId && rules == d.rules
    requires dev.disk == Some(d) && Partial(b, d, dev.Now())
    modifies dev`live, dev`history, dev`refusals
    ensures dev.Valid() && old(dev.history) <= dev.history
    ensures forall i :: old(|dev.history|) <= i < |dev.history| ==>
              Inv(b, dev.bootId, dev.history[i]) && Shrinks(old(dev.Now()), dev.history[i])
    ensures Partial(b, d, dev.Now()) && Shrinks(old(dev.Now()), dev.Now())
    ensures ok ==> forall k :: k in KeysOf(rules) ==> k !in dev.live
    ensures ok ==> dev.refusals == old(dev.refusals)
    ensures dev.forwardWorks && dev.plainListings && Unrelated(old(dev.live), rules) ==> ok
  {
    ghost var e, n0 := dev.Now(), |dev.history|;
    hide Inv, Partial, Shrinks, Listing, ValidSnapshot, RuleTransaction.Startable, Unrelated;
    var current := dev.List(Forward);
    if current.Err? {
      ShrinksNot(b, d, e);
      return false;
    }
    if dev.plainListings && Unrelated(dev.live, rules) { CleanupIsAdmissible(b, d, e, current.value); }
    var remaining := StillRecorded(rules, current.value);
    if remaining.Live? { RemainingAreLive(b, d, e, current.value); }
    if remaining.Drifted? {
      ShrinksNot(b, d, e);
      return false;
    }
    var r, _ := RuleTransaction.Reconcile(dev, Forward, remaining.rules, []);
    forall i | n0 <= i < |dev.history| ensures Inv(b, dev.bootId, dev.history[i]) && Shrinks(e, dev.history[i]) {
      PartialAfterDelete(b, dev.bootId, d, e, remaining.rules, dev.history[i]);
    }
    PartialAfterDelete(b, dev.bootId, d, e, remaining.rules, dev.Now());
    ok := r.Done?;
    if ok { AllRulesGone(b, d, e, remaining.rules, dev.Now()); }
  }

  lemma ShrinksNot(b: Baseline, d: Record, e: Snap)
    requires e.disk == Some(d)
    ensures Shrinks(e, e)
  {
  }

  /** What is still recorded is live, since no owned rule can be mistaken for a derived parent. */
  lemma RemainingAreLive(b: Baseline, d: Record, e: Snap, rows: seq<Rule>)
    requires Partial(b, d, e) && Listing(rows, e.live) && StillRecorded(d.rules, rows).Live?
    ensures HotTransaction.AllLive(StillRecorded(d.rules, rows).rules, e.live)
    ensures forall k :: k in KeysOf(d.rules) && k in e.live ==> k in KeysOf(StillRecorded(d.rules, rows).rules)
  {
    var remaining := StillRecorded(d.rules, rows).rules;
    forall r | r in remaining ensures Look(e.live, KeyOf(r)) == Some(PayloadOf(r)) {
      ShownMeansLive(rows, e.live, r);
    }
    forall k | k in KeysOf(d.rules) && k in e.live ensures k in KeysOf(remaining) {
      var r :| r in d.rules && KeyOf(r) == k;
      var row := RowOf(rows, e.live, k);
      assert SameKey(row, r);
      assert r in remaining;
    }
  }

  lemma PartialAfterDelete(b: Baseline, bootId: string, d: Record, e: Snap, remaining: seq<Rule>, s: Snap)
    requires Partial(b, d, e) && forall r :: r in remaining ==> r in d.rules
    requires HotTransaction.AllLive(remaining, e.live)
    requires e.disk == Some(d) && d.bootId == bootId && d.phase.Cleaning?
    requires Within(e, Table(remaining), Table([]), s)
    ensures Partial(b, d, s) && Inv(b, bootId, s) && Shrinks(e, s)
  {
    forall k ensures Look(s.live, k) == Look(e.live, k) || (k in KeysOf(d.rules) && k !in s.live) {
      assert KeyWithin(e.live, Table(remaining), Table([]), s.live, k);
      PutAllAt(map[], remaining, k);
      if k in Table(remaining) {
        var r :| r in remaining && KeyOf(r) == k && PayloadOf(r) == Table(remaining)[k];
        assert r in d.rules;
      }
    }
    forall k | k !in KeysOf(d.rules) ensures Kept(b, s.live, k) {
      assert Kept(b, e.live, k);
    }
    forall r | r in d.rules && KeyOf(r) in s.live ensures s.live[KeyOf(r)] == PayloadOf(r) {
      assert Look(s.live, KeyOf(r)) == Look(e.live, KeyOf(r));
    }
  }

  lemma AllRulesGone(b: Baseline, d: Record, e: Snap, remaining: seq<Rule>, s: Snap)
    requires Partial(b, d, e) && (forall r :: r in remaining ==> r in d.rules)
    requires forall k :: k in KeysOf(d.rules) && k in e.live ==> k in KeysOf(remaining)
    requires Partial(b, d, s) && Shrinks(e, s) && e.disk == Some(d)
    requires Reached(s.live, Table(remaining), Table([]))
    ensures forall k :: k in KeysOf(d.rules) ==> k !in s.live
  {
    forall k | k in KeysOf(d.rules) ensures k !in s.live {
      assert Look(s.live, k) == Look(e.live, k) || k !in s.live;
      var r :| r in d.rules && KeyOf(r) == k;
      PutAllAt(map[], remaining, k);
      assert k in Table(remaining) ==> SolidAt(s.live, k) == None;
      assert Look(s.live, k) == None || Look(s.live, k) == Some(PayloadOf(r));
    }
  }

  // --- UIDs ---------------------------------------------------------------

  /** Remove UIDs and confirm by readback. */
  method RemoveUidsVerified(dev: Device, uids: seq<Uid>) returns (ok: bool)
    requires dev.Valid()
    modifies dev`uids, dev`history, dev`refusals
    ensures dev.Valid() && old(dev.history) <= dev.history
    ensures old(dev.uids) - (set u | u in uids) <= dev.uids <= old(dev.uids)
    ensures ok ==> dev.uids == old(dev.uids) - set u | u in uids
    ensures ok ==> dev.refusals == old(dev.refusals)
    ensures dev.forwardWorks ==> ok
    ensures forall i :: old(|dev.history|) <= i < |dev.history| ==>
              && dev.history[i] == dev.Now().(uids := dev.history[i].uids)
              && old(dev.uids) - (set u | u in uids) <= dev.history[i].uids <= old(dev.uids)
  {
    ok := dev.RemoveUids(uids, Forward);
    if !ok { return; }
    var left := dev.ReadUids(Forward);
    ok := left.Ok? && forall u :: u in left.value ==> u !in uids;
  }

  /** Take the recorded UIDs back. */
  method DropUids(dev: Device, ghost d: Record, uids: seq<Uid>, ghost b: Baseline) returns (ok: bool)
    requires dev.Valid() && d.phase.Cleaning? && d.bootId == dev.bootId && uids == d.isolatedUids
    requires dev.disk == Some(d) && Partial(b, d, dev.Now()) && NoneLive(d.rules, dev.live)
    modifies dev`uids, dev`history, dev`refusals
    ensures dev.Valid() && old(dev.history) <= dev.history
    ensures forall i :: old(|dev.history|) <= i < |dev.history| ==>
              Inv(b, dev.bootId, dev.history[i]) && Shrinks(old(dev.Now()), dev.history[i])
    ensures Partial(b, d, dev.Now()) && Shrinks(old(dev.Now()), dev.Now())
    ensures ok ==> dev.uids == b.uids
    ensures ok ==> dev.refusals == old(dev.refusals)
    ensures dev.forwardWorks ==> ok
  {
    ok := RemoveUidsVerified(dev, uids);
  }

  /** With the recorded rules and UIDs gone, a record that names none is right. */
  lemma NothingRecorded(b: Baseline, d: Record, d': Record, s: Snap)
    requires Partial(b, d, s) && s.uids == b.uids
    requires forall k :: k in KeysOf(d.rules) ==> k !in s.live
    requires d' == d.(rules := [], isolatedUids := [])
    ensures Partial(b, d', s)
  {
    assert KeysOf([]) == {};
    forall k ensures Kept(b, s.live, k) {
      if k in KeysOf(d.rules) {
        var r :| r in d.rules && KeyOf(r) == k;
        assert Free(b, k) && Look(s.live, k) == None;
      }
    }
  }

  /** Remove the recorded rules and UIDs. The record still names them. */
  method RemoveOwned(dev: Device, rules: seq<Rule>, uids: seq<Uid>, ghost d: Record, ghost b: Baseline)
    returns (ok: bool)
    requires dev.Valid() && d.phase.Cleaning? && d.bootId == dev.bootId && rules == d.rules && uids == d.isolatedUids
    requires dev.disk == Some(d) && Partial(b, d, dev.Now())
    modifies dev`live, dev`uids, dev`history, dev`refusals
    ensures dev.Valid() && old(dev.history) <= dev.history
    ensures forall i :: old(|dev.history|) <= i < |dev.history| ==>
              Inv(b, dev.bootId, dev.history[i]) && Shrinks(old(dev.Now()), dev.history[i])
    ensures Partial(b, d, dev.Now()) && Shrinks(old(dev.Now()), dev.Now())
    ensures ok ==> dev.uids == b.uids && forall k :: k in KeysOf(rules) ==> k !in dev.live
    ensures ok ==> dev.refusals == old(dev.refusals)
    ensures dev.forwardWorks && dev.plainListings && Unrelated(old(dev.live), rules) ==> ok
  {
    ghost var e := dev.Now();
    hide Inv, Shrinks, Partial, Unrelated;
    ok := DeleteRecorded(dev, rules, d, b);
    if !ok { return; }
    ghost var m, n := dev.Now(), |dev.history|;
    ok := DropUids(dev, d, uids, b);
    forall i | n <= i < |dev.history| ensures Shrinks(e, dev.history[i]) {
      ShrinksComposes(e, m, dev.history[i]);
    }
    ShrinksComposes(e, m, dev.Now());
  }

  /** Remove the recorded rules and UIDs, and only then forget them. */
  method CleanupVfs(dev: Device, saved: Ledger, ghost b: Baseline) returns (ok: bool)
    requires dev.Valid() && saved.phase.Cleaning? && saved.bootId == dev.bootId
    requires dev.disk == Some(saved.View()) && Partial(b, saved.View(), dev.Now())
    modifies dev`live, dev`uids, dev`disk, dev`history, dev`refusals, saved`rules, saved`isolatedUids
    ensures dev.Valid() && old(dev.history) <= dev.history
    ensures forall i :: old(|dev.history|) <= i < |dev.history| ==>
              Inv(b, dev.bootId, dev.history[i]) && Shrinks(old(dev.Now()), dev.history[i])
    ensures Inv(b, dev.bootId, dev.Now()) && Partial(b, saved.View(), dev.Now())
    ensures Shrinks(old(dev.Now()), dev.Now()) && Forgets(old(saved.View()), saved.View())
    ensures ok ==> saved.rules == [] && saved.isolatedUids == [] && dev.disk == Some(saved.View())
    ensures ok ==> forall k :: k in KeysOf(old(saved.rules)) ==> k !in dev.live
    ensures saved.rules != old(saved.rules) ==> NoneLive(old(saved.rules), dev.live)
    ensures ok ==> dev.refusals == old(dev.refusals)
    ensures dev.forwardWorks && dev.plainListings && Unrelated(old(dev.live), old(saved.rules)) ==> ok
  {
    ghost var d, e := saved.View(), dev.Now();
    ShrinksNot(b, d, e);
    PartialInv(b, dev.bootId, d, e);
    if saved.rules == [] && saved.isolatedUids == [] { return true; }
    hide Inv, Shrinks, Partial, Unrelated;
    ok := RemoveOwned(dev, saved.rules, saved.isolatedUids, d, b);
    ghost var m := dev.Now();
    PartialInv(b, dev.bootId, d, m);
    if !ok { return; }
    saved.rules := [];
    saved.isolatedUids := [];
    ghost var d' := saved.View();
    NothingRecorded(b, d, d', m);
    StoredForgotten(b, dev.bootId, d, d', e, m);
    ok := dev.Persist(saved.View());
    assert dev.Now() == m || dev.Now() == m.(disk := Some(d'));
  }

  lemma PartialInv(b: Baseline, bootId: string, d: Record, s: Snap)
    requires Partial(b, d, s) && s.disk == Some(d) && d.bootId == bootId && d.phase.Cleaning?
    ensures Inv(b, bootId, s)
  {
  }

  /** Storing a record that forgets what is gone keeps everything. */
  lemma StoredForgotten(b: Baseline, bootId: string, d: Record, d': Record, e: Snap, m: Snap)
    requires Partial(b, d', m) && Shrinks(e, m) && m.disk == Some(d) && e.disk == Some(d) && NoneLive(d.rules, m.live)
    requires Forgets(d, d') && d'.bootId == bootId && d'.phase.Cleaning?
    ensures Partial(b, d', m.(disk := Some(d'))) && Inv(b, bootId, m.(disk := Some(d')))
    ensures Shrinks(e, m.(disk := Some(d')))
  {
  }

  // --- Mounts -------------------------------------------------------------

  /** Detaching recorded mounts keeps the record right. */
  lemma FewerMounts(b: Baseline, bootId: string, d: Record, e: Snap, s: Snap)
    requires Partial(b, d, e) && e.disk == Some(d) && d.bootId == bootId && d.phase.Cleaning?
    requires d.rules == [] && s == e.(mounts := s.mounts) && e.mounts - MountsOf(d.mounts) <= s.mounts <= e.mounts
    ensures Partial(b, d, s) && Inv(b, bootId, s) && Shrinks(e, s)
    ensures s.mounts == e.mounts - MountsOf(d.mounts) ==> MountsKept(b, s.mounts)
  {
  }

  /** With the recorded mounts gone, a record that names none is right. */
  lemma NoMountRecorded(b: Baseline, bootId: string, d: Record, d': Record, e: Snap, m: Snap)
    requires Partial(b, d, m) && MountsKept(b, m.mounts) && Shrinks(e, m) && e.disk == Some(d) && m.disk == Some(d)
    requires d' == d.(mounts := [], ksuUnmounts := Some([])) && d.bootId == bootId && d.phase.Cleaning?
    ensures Partial(b, d', m) && Partial(b, d', m.(disk := Some(d'))) && Inv(b, bootId, m.(disk := Some(d')))
    ensures Shrinks(e, m.(disk := Some(d'))) && Forgets(d, d')
  {
    assert MountsOf([]) == {};
  }

  /** Detach the recorded mounts. The record still names them. */
  method DetachRecorded(dev: Device, mounts: seq<OwnedMount>, ghost d: Record, ghost b: Baseline) returns (ok: bool)
    requires dev.Valid() && d.phase.Cleaning? && d.bootId == dev.bootId && d.rules == [] && mounts == d.mounts
    requires dev.disk == Some(d) && Partial(b, d, dev.Now())
    modifies dev`mounts, dev`history, dev`refusals
    ensures dev.Valid() && old(dev.history) <= dev.history
    ensures forall i :: old(|dev.history|) <= i < |dev.history| ==>
              Inv(b, dev.bootId, dev.history[i]) && Shrinks(old(dev.Now()), dev.history[i])
    ensures Inv(b, dev.bootId, dev.Now()) && Partial(b, d, dev.Now()) && Shrinks(old(dev.Now()), dev.Now())
    ensures ok ==> MountsKept(b, dev.mounts) && dev.mounts == old(dev.mounts) - MountsOf(mounts)
    ensures ok ==> dev.refusals == old(dev.refusals)
    ensures dev.forwardWorks ==> ok
  {
    ghost var e, n := dev.Now(), |dev.history|;
    hide Partial, Inv, Shrinks, MountsOf, MountsKept;
    ok := dev.DetachOwned(mounts);
    FewerMounts(b, dev.bootId, d, e, dev.Now());
    forall i | n <= i < |dev.history| ensures Inv(b, dev.bootId, dev.history[i]) && Shrinks(e, dev.history[i]) {
      FewerMounts(b, dev.bootId, d, e, dev.history[i]);
    }
  }

  /** Detach recorded mounts, then release their registrations. Both stay recorded
      unless both calls succeeded, and registrations are not released before every
      recorded mount is gone. */
  method ReleaseMounts(dev: Device, saved: Ledger, ghost b: Baseline) returns (ok: bool, detached: bool, released: bool)
    requires dev.Valid() && saved.phase.Cleaning? && saved.bootId == dev.bootId
    requires saved.rules == [] && saved.isolatedUids == []
    requires dev.disk == Some(saved.View()) && Partial(b, saved.View(), dev.Now())
    modifies dev`mounts, dev`disk, dev`history, dev`refusals, saved`mounts, saved`ksuUnmounts
    ensures dev.Valid() && old(dev.history) <= dev.history
    ensures forall i :: old(|dev.history|) <= i < |dev.history| ==>
              Inv(b, dev.bootId, dev.history[i]) && Shrinks(old(dev.Now()), dev.history[i])
    ensures Inv(b, dev.bootId, dev.Now()) && Partial(b, saved.View(), dev.Now())
    ensures Shrinks(old(dev.Now()), dev.Now()) && Forgets(old(saved.View()), saved.View())
    ensures detached ==> OwnedUnmounts(old(saved.View())).Ok? && MountsKept(b, dev.mounts)
    ensures detached ==> dev.mounts == old(dev.mounts) - MountsOf(old(saved.mounts))
    ensures released ==> detached
    ensures !released ==> !ok && saved.View() == old(saved.View()) && dev.disk == old(dev.disk)
    ensures released ==> saved.View() == old(saved.View()).(mounts := [], ksuUnmounts := Some([]))
    ensures ok ==> released && dev.disk == Some(saved.View())
    ensures ok ==> dev.refusals == old(dev.refusals)
    ensures dev.forwardWorks && OwnedUnmounts(old(saved.View())).Ok? ==> ok
  {
    ok, detached, released := false, false, false;
    ghost var e, d := dev.Now(), saved.View();
    FewerMounts(b, dev.bootId, d, e, e);
    hide MountsOf, MountsKept, Forgets, OwnedUnmounts;
    hide Partial, Inv, Shrinks;
    if OwnedUnmounts(saved.View()).Err? { return; }
    ok := DetachRecorded(dev, saved.mounts, d, b);
    if !ok { return; }
    detached := true;
    released := *;
    if dev.forwardWorks { released := true; }
    if !released { return false, detached, released; }
    ok := ForgetMounts(dev, saved, e, b);
  }

  /** Record that the mounts and their registrations are gone. */
  method ForgetMounts(dev: Device, saved: Ledger, ghost e: Snap, ghost b: Baseline) returns (ok: bool)
    requires dev.Valid() && saved.phase.Cleaning? && saved.bootId == dev.bootId
    requires dev.disk == Some(saved.View()) && e.disk == Some(saved.View()) && Partial(b, saved.View(), dev.Now())
    requires MountsKept(b, dev.mounts) && Shrinks(e, dev.Now())
    modifies dev`disk, dev`history, dev`refusals, saved`mounts, saved`ksuUnmounts
    ensures dev.Valid() && old(dev.history) <= dev.history
    ensures forall i :: old(|dev.history|) <= i < |dev.history| ==>
              Inv(b, dev.bootId, dev.history[i]) && Shrinks(e, dev.history[i])
    ensures Inv(b, dev.bootId, dev.Now()) && Partial(b, saved.View(), dev.Now()) && Shrinks(e, dev.Now())
    ensures saved.View() == old(saved.View()).(mounts := [], ksuUnmounts := Some([]))
    ensures Forgets(old(saved.View()), saved.View())
    ensures ok ==> dev.disk == Some(saved.View()) && dev.refusals == old(dev.refusals)
    ensures dev.forwardWorks ==> ok
  {
    ghost var d, m := saved.View(), dev.Now();
    PartialInv(b, dev.bootId, d, m);
    hide MountsKept, Forgets, Partial, Inv, Shrinks;
    saved.mounts := [];
    saved.ksuUnmounts := Some([]);
    ghost var d' := saved.View();
    NoMountRecorded(b, dev.bootId, d, d', e, m);
    ok := dev.Persist(saved.View());
    assert dev.Now() == m || dev.Now() == m.(disk := Some(d'));
  }

  // --- Cleanup ------------------------------------------------------------

  /** Give the recorded resources back: rules and UIDs first, then mounts. */
  method CleanupOwned(dev: Device, saved: Ledger, ghost b: Baseline) returns (ok: bool)
    requires dev.Valid() && saved.phase.Cleaning? && saved.bootId == dev.bootId
    requires dev.disk == Some(saved.View()) && Partial(b, saved.View(), dev.Now())
    modifies dev`live, dev`uids, dev`mounts, dev`disk, dev`history, dev`refusals
    modifies saved`rules, saved`isolatedUids, saved`mounts, saved`ksuUnmounts
    ensures dev.Valid() && old(dev.history) <= dev.history
    ensures forall i :: old(|dev.history|) <= i < |dev.history| ==>
              Inv(b, dev.bootId, dev.history[i]) && Shrinks(old(dev.Now()), dev.history[i])
    ensures Inv(b, dev.bootId, dev.Now()) && Partial(b, saved.View(), dev.Now())
    ensures Shrinks(old(dev.Now()), dev.Now()) && Forgets(old(saved.View()), saved.View())
    ensures ok ==> saved.rules == [] && saved.isolatedUids == [] && saved.mounts == [] && saved.ksuUnmounts == Some([])
    ensures ok ==> forall k :: k in KeysOf(old(saved.rules)) ==> k !in dev.live
    ensures ok ==> dev.mounts == old(dev.mounts) - MountsOf(old(saved.mounts))
    ensures saved.rules != old(saved.rules) ==> NoneLive(old(saved.rules), dev.live)
    ensures ok ==> dev.refusals == old(dev.refusals)
    ensures dev.forwardWorks && dev.plainListings && OwnedUnmounts(old(saved.View())).Ok? ==>
              Unrelated(old(dev.live), old(saved.rules)) ==> ok
  {
    ghost var e := dev.Now();
    hide Inv, Partial, Shrinks, Unrelated;
    ok := CleanupVfs(dev, saved, b);
    if !ok { return; }
    ghost var m, n := dev.Now(), |dev.history|;
    var detached, released;
    ok, detached, released := ReleaseMounts(dev, saved, b);
    forall i | n <= i < |dev.history| ensures Shrinks(e, dev.history[i]) {
      ShrinksComposes(e, m, dev.history[i]);
    }
    ShrinksComposes(e, m, dev.Now());
  }

  /** Store how a cleanup ended. */
  method StoreCleanup(dev: Device, saved: Ledger, done: bool, ghost g: Snap, ghost b: Baseline) returns (ok: bool)
    requires dev.Valid() && saved.phase.Cleaning? && saved.bootId == dev.bootId
    requires Inv(b, dev.bootId, dev.Now()) && Partial(b, saved.View(), dev.Now())
    requires Shrinks(g, dev.Now()) && Forgets(g.disk.value, saved.View())
    requires done ==>
              saved.rules == [] && saved.isolatedUids == [] && saved.mounts == [] && saved.ksuUnmounts == Some([])
    requires saved.rules != g.disk.value.rules ==> NoneLive(g.disk.value.rules, dev.live)
    modifies dev`disk, dev`history, dev`refusals, saved
    ensures dev.Valid() && old(dev.history) <= dev.history
    ensures forall i :: old(|dev.history|) <= i < |dev.history| ==>
              Inv(b, dev.bootId, dev.history[i]) && Shrinks(g, dev.history[i])
    ensures Inv(b, dev.bootId, dev.Now()) && Shrinks(g, dev.Now())
    ensures ok ==> done && Home(b, dev.Now()) && dev.disk.value.phase.Clean?
    ensures ok ==> dev.refusals == old(dev.refusals)
    ensures dev.forwardWorks && done ==> ok
  {
    ghost var d, m := saved.View(), dev.Now();
    saved.error := true;
    if done {
      saved.phase := Clean;
      saved.error := false;
      saved.nonVfsModules := {};
      saved.pendingRules := [];
    }
    ghost var d' := saved.View();
    StoredOutcome(b, dev.bootId, d, d', done, g, m);
    hide Partial, Inv, Shrinks, Home;
    var stored := dev.Persist(saved.View());
    assert dev.Now() == m || dev.Now() == m.(disk := Some(d'));
    ok := done && stored;
  }

  lemma StoredOutcome(b: Baseline, bootId: string, d: Record, d': Record, done: bool, g: Snap, m: Snap)
    requires Partial(b, d, m) && Shrinks(g, m) && Forgets(g.disk.value, d)
    requires d.phase.Cleaning? && d.bootId == bootId
    requires d' == if done then d.(phase := Clean, error := false, nonVfsModules := {}, pendingRules := [])
                   else d.(error := true)
    requires done ==> d.rules == [] && d.isolatedUids == [] && d.mounts == [] && d.ksuUnmounts == Some([])
    requires d.rules != g.disk.value.rules ==> NoneLive(g.disk.value.rules, m.live)
    ensures Inv(b, bootId, m.(disk := Some(d'))) && Shrinks(g, m.(disk := Some(d')))
    ensures done ==> Home(b, m.(disk := Some(d')))
  {
    if done { NothingLeft(b, d, m); }
  }

  lemma NothingLeft(b: Baseline, d: Record, s: Snap)
    requires Partial(b, d, s) && d.rules == [] && d.isolatedUids == [] && d.mounts == []
    ensures forall disk :: Home(b, s.(disk := disk))
  {
    assert KeysOf(d.rules) == {} && MountsOf(d.mounts) == {};
  }

  /** A ready, syncing or half-cleaned ledger can be stored as `cleaning`. */
  lemma StoredCleaning(b: Baseline, bootId: string, d: Record, d': Record, g: Snap)
    requires Inv(b, bootId, g) && g.disk == Some(d) && d.bootId == bootId
    requires d.phase.Ready? || d.phase.Syncing? || d.phase.Cleaning?
    requires d' == d.(phase := Cleaning)
    ensures Partial(b, d', g) && Partial(b, d', g.(disk := Some(d'))) && Inv(b, bootId, g.(disk := Some(d')))
    ensures Shrinks(g, g) && Shrinks(g, g.(disk := Some(d')))
  {
  }

  /** With the recorded keys gone and nothing else, the rest is as before. */
  lemma RestIsKept(g: Snap, s: Snap)
    requires Shrinks(g, s) && forall k :: k in KeysOf(g.disk.value.rules) ==> k !in s.live
    ensures s.live == g.live - KeysOf(g.disk.value.rules)
  {
    forall k ensures Look(s.live, k) == Look(g.live - KeysOf(g.disk.value.rules), k) {
      assert Look(s.live, k) == Look(g.live, k) || k in KeysOf(g.disk.value.rules);
    }
    SameLive(s.live, g.live - KeysOf(g.disk.value.rules));
  }

  lemma HistoryIsCleanable(bootId: string, namespace: string, g: Snap, n: nat, history: seq<Snap>)
    requires Cleanable(bootId, namespace, g)
    requires forall i :: n <= i < |history| ==> Shrinks(g, history[i])
    ensures forall i :: n <= i < |history| ==> Cleanable(bootId, namespace, history[i])
  {
    forall i | n <= i < |history| ensures Cleanable(bootId, namespace, history[i]) {
      CleanableStays(bootId, namespace, g, history[i]);
    }
  }

  /** From the stored `cleaning` to the stored `clean`. `g` is what it all started from. */
  method FinishCleanup(dev: Device, saved: Ledger, ghost g: Snap, ghost b: Baseline) returns (ok: bool)
    requires dev.Valid() && saved.phase.Cleaning? && saved.bootId == dev.bootId
    requires dev.disk == Some(saved.View()) && Partial(b, saved.View(), dev.Now()) && Shrinks(g, dev.Now())
    requires saved.View() == g.disk.value.(phase := Cleaning)
    modifies dev`live, dev`uids, dev`mounts, dev`disk, dev`history, dev`refusals, saved
    ensures dev.Valid() && old(dev.history) <= dev.history
    ensures forall i :: old(|dev.history|) <= i < |dev.history| ==>
              Inv(b, dev.bootId, dev.history[i]) && Shrinks(g, dev.history[i])
    ensures Inv(b, dev.bootId, dev.Now()) && Shrinks(g, dev.Now())
    ensures ok ==> Home(b, dev.Now()) && dev.disk.Some? && dev.disk.value.phase.Clean?
    ensures ok ==> forall k :: k in KeysOf(old(saved.rules)) ==> k !in dev.live
    ensures ok ==> dev.mounts == old(dev.mounts) - MountsOf(old(saved.mounts))
    ensures ok ==> dev.refusals == old(dev.refusals)
    ensures dev.forwardWorks && dev.plainListings && OwnedUnmounts(old(saved.View())).Ok? ==>
              Unrelated(old(dev.live), old(saved.rules)) ==> ok
  {
    ghost var m, n := dev.Now(), |dev.history|;
    hide Inv, Partial, Shrinks, Unrelated, Home, MountsOf, OwnedUnmounts;
    ok := CleanupOwned(dev, saved, b);
    forall i | n <= i < |dev.history| ensures Shrinks(g, dev.history[i]) {
      ShrinksComposes(g, m, dev.history[i]);
    }
    ShrinksComposes(g, m, dev.Now());
    ok := StoreCleanup(dev, saved, ok, g, b);
  }

  /** From a ledger that is not clean to the stored `clean`. */
  method GiveBack(dev: Device, d: Record, ghost b: Baseline) returns (ok: bool)
    requires dev.Valid() && Inv(b, dev.bootId, dev.Now()) && dev.disk == Some(d) && d.bootId == dev.bootId
    requires d.phase.Ready? || d.phase.Syncing? || d.phase.Cleaning?
    modifies dev`live, dev`uids, dev`mounts, dev`disk, dev`history, dev`refusals
    ensures dev.Valid() && old(dev.history) <= dev.history
    ensures forall i :: old(|dev.history|) <= i < |dev.history| ==>
              Inv(b, dev.bootId, dev.history[i]) && Shrinks(old(dev.Now()), dev.history[i])
    ensures Inv(b, dev.bootId, dev.Now()) && Shrinks(old(dev.Now()), dev.Now())
    ensures ok ==> Home(b, dev.Now()) && dev.disk.Some? && dev.disk.value.phase.Clean?
    ensures ok ==> dev.live == old(dev.live) - KeysOf(d.rules)
    ensures ok ==> dev.mounts == old(dev.mounts) - MountsOf(d.mounts)
    ensures ok ==> dev.refusals == old(dev.refusals)
    ensures dev.forwardWorks && dev.plainListings && OwnedUnmounts(d).Ok? && Unrelated(old(dev.live), d.rules) ==> ok
  {
    ghost var g := dev.Now();
    var saved := new Ledger(d);
    saved.phase := Cleaning;
    ghost var d' := saved.View();
    StoredCleaning(b, dev.bootId, d, d', g);
    hide Inv, Partial, Shrinks, Unrelated, Home, MountsOf;
    ok := dev.Persist(saved.View());
    assert dev.Now() == g || dev.Now() == g.(disk := Some(d'));
    if !ok { return; }
    ok := FinishCleanup(dev, saved, g, b);
    if ok { RestIsKept(g, dev.Now()); }
  }

  /** Prepare a soft reboot: give everything back and store `clean`. */
  method Cleanup(dev: Device, mountsValid: bool, ghost b: Baseline) returns (ok: bool)
    requires dev.Valid() && Inv(b, dev.bootId, dev.Now())
    modifies dev`live, dev`uids, dev`mounts, dev`disk, dev`history, dev`refusals
    ensures dev.Valid() && old(dev.history) <= dev.history
    ensures forall i :: old(|dev.history|) <= i < |dev.history| ==> Inv(b, dev.bootId, dev.history[i])
    ensures Inv(b, dev.bootId, dev.Now())
    ensures Stuck(old(dev.disk), dev.bootId) ==> !ok && dev.Now() == old(dev.Now()) && dev.history == old(dev.history)
    ensures ok ==> Home(b, dev.Now()) && MayStart(dev.disk, dev.bootId, dev.namespace)
    ensures ok && OfThisBoot(old(dev.disk), dev.bootId) ==>
              && dev.live == old(dev.live) - KeysOf(old(dev.disk.value.rules)) && OfThisBoot(dev.disk, dev.bootId)
              && dev.mounts == old(dev.mounts) - MountsOf(old(dev.disk.value.mounts))
    ensures Cleanable(dev.bootId, dev.namespace, old(dev.Now())) ==>
              Cleanable(dev.bootId, dev.namespace, dev.Now())
              && forall i :: old(|dev.history|) <= i < |dev.history| ==>
                   Cleanable(dev.bootId, dev.namespace, dev.history[i])
    ensures OfThisBoot(old(dev.disk), dev.bootId) && !old(dev.disk.value.phase.Clean?) ==>
              !mountsValid || (old(dev.disk.value.ksuUnmounts) == None && old(dev.disk.value.mounts) != []) ==>
              !ok && dev.Now() == old(dev.Now()) && dev.history == old(dev.history)
    ensures ok ==> dev.refusals == old(dev.refusals)
    ensures dev.forwardWorks && dev.plainListings && mountsValid ==>
              Cleanable(dev.bootId, dev.namespace, old(dev.Now())) ==> ok
  {
    var loaded := LedgerForBoot(dev.disk, dev.bootId, dev.namespace);
    if loaded.Err? { return false; }
    var d := loaded.value;
    if d.phase.Clean? { return RequireClean(d); }
    if d.phase.Applying? || d.phase.Errored? { return false; }
    if OwnedUnmounts(d).Err? || !mountsValid { return false; }
    ghost var g, n := dev.Now(), |dev.history|;
    hide Inv, Home, Shrinks, Unrelated;
    ok := GiveBack(dev, d, b);
    if Cleanable(dev.bootId, dev.namespace, g) {
      HistoryIsCleanable(dev.bootId, dev.namespace, g, n, dev.history);
      CleanableStays(dev.bootId, dev.namespace, g, dev.Now());
    }
  }
}
