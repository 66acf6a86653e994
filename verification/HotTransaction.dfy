/// One journaled module transaction: intent first, isolation before rules, and
/// a ledger phase decided by readback (src/runtime/transaction.rs).
module HotTransaction {
  import opened Devices
  import opened Ledgers
  import opened RuleTransaction
  import opened Rules
  import opened Wrappers

  datatype Cause = IsolationCause | RulesCause | FinalReadbackCause

  datatype TxResult =
    | Committed
    | Refused
    | JournalFailed
    | RolledBack(cause: Cause, clean: bool)
    | RecoveryJournalFailed(cause: Cause, clean: bool)

  predicate VerifyUids(actual: seq<Uid>, expected: seq<Uid>) {
    forall u :: u in expected ==> u in actual
  }

  // --- Sorted UID sets ----------------------------------------------------

  predicate Ascending(uids: seq<Uid>) {
    forall i, j :: 0 <= i < j < |uids| ==> uids[i] < uids[j]
  }

  function InsertUid(u: Uid, uids: seq<Uid>): (out: seq<Uid>)
    requires Ascending(uids)
    ensures Ascending(out) && forall v :: v in out <==> v == u || v in uids
  {
    if uids == [] || u < uids[0] then [u] + uids
    else if u == uids[0] then uids
    else
      var rest := InsertUid(u, uids[1..]);
      assert uids == [uids[0]] + uids[1..];
      assert forall v :: v in uids[1..] ==> uids[0] < v;
      assert forall j :: 0 <= j < |rest| ==> rest[j] in rest;
      [uids[0]] + rest
  }

  /** The sorted, duplicate-free sequence of the given UIDs. */
  function UidSet(uids: seq<Uid>): (out: seq<Uid>)
    ensures Ascending(out) && forall v :: v in out <==> v in uids
  {
    if uids == [] then [] else
      assert uids == [uids[0]] + uids[1..];
      InsertUid(uids[0], UidSet(uids[1..]))
  }

  function NotIn(uids: seq<Uid>, known: seq<Uid>): (out: seq<Uid>)
    ensures forall v :: v in out <==> v in uids && v !in known
  {
    if uids == [] then [] else
      var rest := NotIn(uids[1..], known);
      assert uids == [uids[0]] + uids[1..];
      if uids[0] in known then rest else [uids[0]] + rest
  }

  // --- The ledger's view of a transaction ---------------------------------

  predicate SameModule(rules: seq<Rule>, r: Rule) {
    exists o :: o in rules && o.moduleId == r.moduleId
  }

  function OtherModules(rules: seq<Rule>, before: seq<Rule>): (out: seq<Rule>)
    ensures forall r :: r in out <==> r in rules && !SameModule(before, r)
    ensures UniqueKeys(rules) ==> UniqueKeys(out)
  {
    if rules == [] then [] else
      var rest := OtherModules(rules[1..], before);
      assert rules == [rules[0]] + rules[1..];
      assert UniqueKeys(rules) ==> UniqueKeys(rules[1..]);
      if SameModule(before, rules[0]) then rest
      else
        assert UniqueKeys(rules) ==> forall r :: r in rest ==> KeyOf(r) != KeyOf(rules[0]);
        [rules[0]] + rest
  }

  /** `before` is exactly what the ledger records for the modules it names. */
  ghost predicate ModuleSlice(rules: seq<Rule>, before: seq<Rule>) {
    && (forall r :: r in before ==> r in rules)
    && (forall r :: r in rules && SameModule(before, r) ==> r in before)
  }

  /** Every recorded rule is live. */
  ghost predicate AllLive(rules: seq<Rule>, live: Live) {
    forall r :: r in rules ==> Look(live, KeyOf(r)) == Some(PayloadOf(r))
  }

  // --- Safety of every state ----------------------------------------------

  /** A payload of `after` that was not live at entry is live now, and it is not
      one that a derived parent could show. */
  predicate Published(e: Live, a: Live, m: Live, k: Key) {
    k in a && k in m && m[k] == a[k] && !Derivable(a[k]) && Look(e, k) != Some(a[k])
  }

  /** While anything new is published, every requested UID is isolated. */
  ghost predicate IsolatedWhilePublished(e: Live, a: Live, requested: seq<Uid>, s: Snap) {
    (exists k :: Published(e, a, s.live, k)) ==> forall u :: u in requested ==> u in s.uids
  }

  /** The stored record is an interrupted one and names everything that differs
      from the entry state. */
  ghost predicate Covers(e: Snap, s: Snap) {
    && s.disk.Some? && s.mounts == e.mounts
    && (s.disk.value.phase.Applying? || s.disk.value.phase.Errored?)
    && (forall k :: Look(s.live, k) != Look(e.live, k) ==> NamedBy(s.disk.value, s.live, k))
    && e.uids <= s.uids
    && (forall u :: u in s.uids && u !in e.uids ==> u in s.disk.value.isolatedUids)
  }

  ghost predicate NamedBy(d: Record, live: Live, k: Key) {
    if k in live then exists r :: r in d.rules + d.pendingRules && KeyOf(r) == k && PayloadOf(r) == live[k]
    else k in KeysOf(d.rules)
  }

  ghost predicate AtEntry(e: Snap, s: Snap) {
    SolidEqual(s.live, e.live) && s.uids == e.uids && s.mounts == e.mounts
  }

  /** Write-ahead: a state differs from the entry state only under a stored record
      that covers the difference. */
  ghost predicate WriteAhead(e: Snap, s: Snap) {
    AtEntry(e, s) || Covers(e, s)
  }

  /** A stored record differs from the one the run started with only in its phase,
      error, pending rules and isolation intent; `ready` stores the original. */
  predicate SameOwnership(saved: Record, d: Record) {
    && d == saved.(phase := d.phase, error := d.error, pendingRules := d.pendingRules, isolatedUids := d.isolatedUids)
    && (forall u :: u in saved.isolatedUids ==> u in d.isolatedUids)
    && (d.phase.Applying? || d.phase.Errored? ||
        (d.phase.Ready? && d.pendingRules == [] && d.isolatedUids == saved.isolatedUids))
  }

  /** What holds in every state of a transaction that started in `e`. */
  ghost predicate TxSafe(e: Snap, saved: Record, b: Live, a: Live, requested: seq<Uid>, s: Snap) {
    && (forall k :: KeyWithin(e.live, b, a, s.live, k))
    && WriteAhead(e, s)
    && IsolatedWhilePublished(e.live, a, requested, s)
    && (s.disk == e.disk || (s.disk.Some? && SameOwnership(saved, s.disk.value)))
  }

  /** `peak` is all that is ever isolated on the way, and a UID of it is missing only
      in a state whose rules are those of the entry. */
  ghost predicate UidsAround(e: Snap, peak: set<Uid>, s: Snap) {
    s.uids <= peak && (peak <= s.uids || SolidEqual(s.live, e.live))
  }

  method Preflight(dev: Device, before: seq<Rule>, after: seq<Rule>) returns (ok: bool)
    ensures ok ==> Startable(dev.live, Table(before), Table(after)) && UniqueKeys(before) && UniqueKeys(after)
    ensures ok ==> exists rows :: Listing(rows, dev.live) && ValidSnapshot(rows, before, after)
    ensures dev.forwardWorks && Admissible(dev.live, dev.plainListings, before, after) ==> ok
  {
    var listing := dev.List(Forward);
    if listing.Err? { return false; }
    var v := ValidateSnapshot(listing.value, before, after);
    if v.Valid? {
      ValidatedStart(listing.value, dev.live, before, after);
    }
    ok := v.Valid?;
  }

  /** States between the journal write and the decision. */
  ghost predicate InFlight(e: Snap, b: Live, a: Live, introduced: seq<Uid>, d: Option<Record>, s: Snap) {
    && s.disk == d && s.mounts == e.mounts
    && e.uids <= s.uids && (forall u :: u in s.uids ==> u in e.uids || u in introduced)
    && (forall k :: KeyWithin(e.live, b, a, s.live, k))
  }

  /** What the intent record must name before anything is mutated. */
  ghost predicate Intent(d: Record, before: seq<Rule>, after: seq<Rule>, introduced: seq<Uid>) {
    && (d.phase.Applying? || d.phase.Errored?)
    && (forall r :: r in before ==> r in d.rules)
    && (forall r :: r in after ==> r in d.pendingRules)
    && (forall u :: u in introduced ==> u in d.isolatedUids)
  }

  lemma InFlightIsCovered(e: Snap, before: seq<Rule>, after: seq<Rule>, introduced: seq<Uid>, d: Record, s: Snap)
    requires InFlight(e, Table(before), Table(after), introduced, Some(d), s)
    requires Intent(d, before, after, introduced)
    ensures Covers(e, s)
  {
    forall k | Look(s.live, k) != Look(e.live, k) ensures NamedBy(d, s.live, k) {
      assert KeyWithin(e.live, Table(before), Table(after), s.live, k);
      PutAllAt(map[], before, k);
      PutAllAt(map[], after, k);
      if k in Table(before) && (k !in s.live || s.live[k] == Table(before)[k]) {
        var r :| r in before && KeyOf(r) == k && PayloadOf(r) == Table(before)[k];
        assert r in d.rules + d.pendingRules && r in d.rules;
      } else {
        var r :| r in after && KeyOf(r) == k && PayloadOf(r) == Table(after)[k];
        assert r in d.rules + d.pendingRules;
      }
    }
  }

  /** The rule half of a transaction composes with what was in flight before,
      whichever way it goes. */
  lemma WithinComposes(e: Snap, m: Snap, b: Live, a: Live, introduced: seq<Uid>, d: Option<Record>, s: Snap)
    requires InFlight(e, b, a, introduced, d, m) && Startable(e.live, b, a)
    requires Within(m, b, a, s) || Within(m, a, b, s)
    ensures InFlight(e, b, a, introduced, d, s)
  {
    forall k ensures KeyWithin(e.live, b, a, s.live, k) {
      assert KeyWithin(e.live, b, a, m.live, k);
      assert KeyWithin(m.live, b, a, s.live, k) || KeyWithin(m.live, a, b, s.live, k);
    }
  }

  /** A flight state in which nothing is exposed. */
  ghost predicate Flight(e: Snap, b: Live, a: Live, introduced: seq<Uid>, requested: seq<Uid>, d: Option<Record>,
                         s: Snap)
  {
    InFlight(e, b, a, introduced, d, s) && IsolatedWhilePublished(e.live, a, requested, s)
  }

  lemma FlightIsSafe(e: Snap, saved0: Record, before: seq<Rule>, after: seq<Rule>, introduced: seq<Uid>,
                     requested: seq<Uid>,
                     intent: Record, s: Snap)
    requires Flight(e, Table(before), Table(after), introduced, requested, Some(intent), s)
    requires Intent(intent, before, after, introduced) && SameOwnership(saved0, intent)
    ensures TxSafe(e, saved0, Table(before), Table(after), requested, s)
  {
    InFlightIsCovered(e, before, after, introduced, intent, s);
  }

  /** Isolate what is not isolated yet. */
  method Isolate(dev: Device, introduced: seq<Uid>, ghost before: seq<Rule>, ghost after: seq<Rule>,
                 ghost e: Snap, ghost saved0: Record, ghost requested: seq<Uid>, ghost intent: Record)
    returns (added: bool)
    requires dev.Valid() && dev.Now() == Snap(e.live, e.uids, e.mounts, Some(intent))
    requires Intent(intent, before, after, introduced) && SameOwnership(saved0, intent)
    modifies dev`uids, dev`history, dev`refusals
    ensures dev.Valid() && old(dev.history) <= dev.history
    ensures InFlight(e, Table(before), Table(after), introduced, Some(intent), dev.Now())
    ensures Flight(e, Table(before), Table(after), introduced, requested, Some(intent), dev.Now())
    ensures forall i :: old(|dev.history|) <= i < |dev.history| ==>
              TxSafe(e, saved0, Table(before), Table(after), requested, dev.history[i])
    ensures forall i :: old(|dev.history|) <= i < |dev.history| ==>
              dev.history[i].live == e.live && dev.history[i].uids <= dev.uids
    ensures added ==> dev.refusals == old(dev.refusals)
    ensures dev.forwardWorks ==> added && dev.uids == e.uids + set u | u in introduced
  {
    ghost var n := |dev.history|;
    added := true;
    hide TxSafe, SameOwnership, Intent;
    if introduced != [] {
      added := dev.AddUids(introduced, Forward);
    }
    forall i | n <= i < |dev.history|
      ensures TxSafe(e, saved0, Table(before), Table(after), requested, dev.history[i])
    {
      FlightIsSafe(e, saved0, before, after, introduced, requested, intent, dev.history[i]);
    }
  }

  /** Isolate, confirm, publish, confirm again. */
  method Publish(dev: Device, introduced: seq<Uid>, expected: seq<Uid>, before: seq<Rule>, after: seq<Rule>,
                 ghost e: Snap, ghost saved0: Record, ghost requested: seq<Uid>, ghost intent: Record)
    returns (cause: Option<Cause>, rulesApplied: bool)
    requires dev.Valid() && dev.Now() == Snap(e.live, e.uids, e.mounts, Some(intent))
    requires Intent(intent, before, after, introduced) && SameOwnership(saved0, intent)
    requires Startable(e.live, Table(before), Table(after))
    requires forall u :: u in requested ==> u in expected
    modifies dev`live, dev`uids, dev`history, dev`refusals
    ensures dev.Valid() && old(dev.history) <= dev.history
    ensures Flight(e, Table(before), Table(after), introduced, requested, Some(intent), dev.Now())
    ensures forall i :: old(|dev.history|) <= i < |dev.history| ==>
              TxSafe(e, saved0, Table(before), Table(after), requested, dev.history[i])
    ensures forall i :: old(|dev.history|) <= i < |dev.history| ==> UidsAround(e, dev.uids, dev.history[i])
    ensures UidsAround(e, dev.uids, dev.Now())
    ensures cause == None ==> dev.refusals == old(dev.refusals)
    ensures dev.forwardWorks && Admissible(e.live, dev.plainListings, before, after) ==>
              (forall u :: u in expected ==> u in e.uids || u in introduced) ==> cause == None
    ensures rulesApplied || cause == Some(RulesCause) ==> forall u :: u in requested ==> u in dev.uids
    ensures rulesApplied ==> Reached(dev.live, Table(before), Table(after))
    ensures rulesApplied <==> cause == None || cause == Some(FinalReadbackCause)
    ensures cause == Some(IsolationCause) ==> dev.live == e.live
    ensures !rulesApplied && dev.recoveryWorks && Solid(before) ==> SolidEqual(dev.live, e.live)
  {
    rulesApplied := false;
    assert SolidEqual(e.live, e.live);
    hide TxSafe, Flight, InFlight, SameOwnership, Startable, SolidEqual, Solid, Reached, Intent, Admissible;
    var added := Isolate(dev, introduced, before, after, e, saved0, requested, intent);
    if !added { return Some(IsolationCause), rulesApplied; }
    var uids := dev.ReadUids(Forward);
    if uids.Err? || !VerifyUids(uids.value, expected) { return Some(IsolationCause), rulesApplied; }
    cause, rulesApplied := PublishRules(dev, introduced, expected, before, after, e, saved0, requested, intent);
  }

  /** With the UIDs isolated, reconcile the rules and read the UIDs back once more. */
  method PublishRules(dev: Device, introduced: seq<Uid>, expected: seq<Uid>, before: seq<Rule>, after: seq<Rule>,
                      ghost e: Snap, ghost saved0: Record, ghost requested: seq<Uid>, ghost intent: Record)
    returns (cause: Option<Cause>, rulesApplied: bool)
    requires dev.Valid() && dev.live == e.live
    requires InFlight(e, Table(before), Table(after), introduced, Some(intent), dev.Now())
    requires forall u :: u in requested ==> u in dev.uids
    requires Intent(intent, before, after, introduced) && SameOwnership(saved0, intent)
    requires Startable(e.live, Table(before), Table(after))
    modifies dev`live, dev`history, dev`refusals
    ensures forall i :: old(|dev.history|) <= i < |dev.history| ==> dev.history[i].uids == dev.uids
    ensures cause == None ==> dev.refusals == old(dev.refusals)
    ensures dev.forwardWorks && Admissible(e.live, dev.plainListings, before, after) ==>
              (forall u :: u in expected ==> u in dev.uids) ==> cause == None
    ensures dev.Valid() && old(dev.history) <= dev.history
    ensures Flight(e, Table(before), Table(after), introduced, requested, Some(intent), dev.Now())
    ensures forall i :: old(|dev.history|) <= i < |dev.history| ==>
              TxSafe(e, saved0, Table(before), Table(after), requested, dev.history[i])
    ensures rulesApplied ==> Reached(dev.live, Table(before), Table(after))
    ensures rulesApplied <==> cause == None || cause == Some(FinalReadbackCause)
    ensures cause != Some(IsolationCause)
    ensures !rulesApplied && dev.recoveryWorks && Solid(before) ==> SolidEqual(dev.live, e.live)
  {
    ghost var b, a, d := Table(before), Table(after), Some(intent);
    hide TxSafe, SameOwnership, Startable, Intent;
    rulesApplied := false;
    ghost var m := dev.Now();
    ghost var h := dev.history;
    var r, _ := RuleTransaction.Reconcile(dev, Forward, before, after);
    forall i | |h| <= i < |dev.history| ensures TxSafe(e, saved0, b, a, requested, dev.history[i]) {
      WithinComposes(e, m, b, a, introduced, d, dev.history[i]);
      FlightIsSafe(e, saved0, before, after, introduced, requested, intent, dev.history[i]);
    }
    WithinComposes(e, m, b, a, introduced, d, dev.Now());
    if !r.Done? { return Some(RulesCause), rulesApplied; }
    rulesApplied := true;
    var uids := dev.ReadUids(Forward);
    if uids.Err? || !VerifyUids(uids.value, expected) { return Some(FinalReadbackCause), rulesApplied; }
    cause := None;
  }

  /** No explicit live rule sits on a key that only `after` uses. */
  ghost predicate NoneIntroduced(rows: seq<Rule>, before: seq<Rule>, after: seq<Rule>) {
    forall n :: n in after && !Owned(before, n) ==>
      !(exists row :: row in rows && SameKey(row, n) && !DerivedParent(row))
  }

  /** The live table is as at entry, where every recorded rule was live. */
  ghost predicate Restorable(recorded: seq<Rule>, after: seq<Rule>, e: Live, m: Live) {
    SolidEqual(m, e) && AllLive(recorded, e) && Solid(recorded) && Solid(after)
  }

  /** Whether a committed run can be taken back: reliable calls, nothing that speaks
      against the reverse run, and recorded rules that are all live at entry. */
  ghost predicate Reversible(dev: Device, recorded: seq<Rule>, before: seq<Rule>, after: seq<Rule>, e: Live, m: Live)
    reads dev`forwardWorks, dev`recoveryWorks, dev`recoveryReports, dev`plainListings
  {
    dev.Reliable(Recovery) && Admissible(m, dev.plainListings, after, before) && Restorable(recorded, after, e, e)
  }

  /** Whether nothing speaks against the reverse run, wherever a committed run ends. */
  ghost predicate Undoable(e: Live, plain: bool, before: seq<Rule>, after: seq<Rule>) {
    forall m :: Reached(m, Table(before), Table(after)) && (forall k :: KeyWithin(e, Table(before), Table(after), m, k))
      ==> Admissible(m, plain, after, before)
  }

  /** A committed run that is run backwards ends where it began. */
  lemma UndoneIsEntry(e: Live, b: Live, a: Live, m: Live)
    requires Startable(e, b, a) && Reached(m, a, b)
    requires forall k :: KeyWithin(e, b, a, m, k)
    ensures SolidEqual(m, e)
  {
    forall k ensures SolidAt(m, k) == SolidAt(e, k) {
      assert KeyWithin(e, b, a, m, k);
    }
  }

  method RulesRecovered(dev: Device, recorded: seq<Rule>, before: seq<Rule>, after: seq<Rule>, ghost e: Snap)
    returns (ok: bool)
    requires UniqueKeys(before) && forall r :: r in before ==> r in recorded
    requires Startable(e.live, Table(before), Table(after))
    requires forall k :: KeyWithin(e.live, Table(before), Table(after), dev.live, k)
    ensures ok ==> SolidEqual(dev.live, e.live)
    ensures ok ==> forall k :: !Published(e.live, Table(after), dev.live, k)
    ensures dev.recoveryWorks && Restorable(recorded, after, e.live, dev.live) ==> ok
  {
    var listing := dev.List(Recovery);
    if listing.Err? || VerifyPresent(listing.value, recorded).Fail? {
      if dev.recoveryWorks && Restorable(recorded, after, e.live, dev.live) {
        StillShown(listing.value, dev.live, e.live, recorded);
      }
      return false;
    }
    var again := dev.List(Recovery);
    if again.Err? { return false; }
    ok := forall n :: n in after && !Owned(before, n) ==>
            !(exists row :: row in again.value && SameKey(row, n) && !DerivedParent(row));
    if ok {
      RecoveredByReadback(e, dev.live, listing.value, again.value, before, after);
    }
    if Restorable(recorded, after, e.live, dev.live) {
      NothingIntroduced(e, dev.live, again.value, before, after);
    }
  }

  lemma StillShown(rows: seq<Rule>, live: Live, e: Live, recorded: seq<Rule>)
    requires Listing(rows, live) && SolidEqual(live, e) && AllLive(recorded, e) && Solid(recorded)
    ensures VerifyPresent(rows, recorded).Pass?
  {
    forall r | r in recorded ensures Shown(rows, r) {
      assert SolidAt(live, KeyOf(r)) == SolidAt(e, KeyOf(r));
      ShownMeansLive(rows, live, r);
    }
  }

  lemma NothingIntroduced(e: Snap, live: Live, rows: seq<Rule>, before: seq<Rule>, after: seq<Rule>)
    requires Listing(rows, live) && SolidEqual(live, e.live)
    requires Startable(e.live, Table(before), Table(after))
    requires forall k :: KeyWithin(e.live, Table(before), Table(after), live, k)
    requires Solid(after)
    ensures NoneIntroduced(rows, before, after)
  {
    forall n | n in after && !Owned(before, n)
      ensures !(exists row :: row in rows && SameKey(row, n) && !DerivedParent(row))
    {
      var k := KeyOf(n);
      PutAllAt(map[], after, k);
      PutAllAt(map[], before, k);
      forall o | o in before ensures KeyOf(o) != k {
        assert !SameKey(o, n);
      }
      assert SolidAt(live, k) == SolidAt(e.live, k) == None;
      assert KeyWithin(e.live, Table(before), Table(after), live, k);
      var r :| r in after && KeyOf(r) == k && PayloadOf(r) == Table(after)[k];
      assert k !in live;
    }
  }

  lemma RecoveredByReadback(e: Snap, live: Live, rows: seq<Rule>, again: seq<Rule>, before: seq<Rule>, after: seq<Rule>)
    requires UniqueKeys(before) && Listing(rows, live) && Listing(again, live)
    requires forall r :: r in before ==> Shown(rows, r)
    requires NoneIntroduced(again, before, after)
    requires Startable(e.live, Table(before), Table(after))
    requires forall k :: KeyWithin(e.live, Table(before), Table(after), live, k)
    ensures SolidEqual(live, e.live)
    ensures forall k :: !Published(e.live, Table(after), live, k)
  {
    var b, a := Table(before), Table(after);
    forall k ensures SolidAt(live, k) == SolidAt(e.live, k) && !Published(e.live, a, live, k) {
      assert KeyWithin(e.live, b, a, live, k);
      if k in b {
        SavedKeysAreLive(rows, live, before, k);
      } else if k in a {
        PutAllAt(map[], after, k);
        PutAllAt(map[], before, k);
        var n :| n in after && KeyOf(n) == k;
        assert forall o :: o in before ==> KeyOf(o) != k;
        if k in live {
          var row := RowOf(again, live, k);
          assert SameKey(row, n);
          DerivedIsDerivable(row);
        }
      }
    }
  }

  /** Run a committed reconciliation backwards. */
  method UndoRules(dev: Device, before: seq<Rule>, after: seq<Rule>, introduced: seq<Uid>,
                   ghost e: Snap, ghost saved0: Record, ghost requested: seq<Uid>, ghost intent: Record)
    requires Intent(intent, before, after, introduced) && SameOwnership(saved0, intent)
    requires dev.Valid() && Startable(e.live, Table(before), Table(after))
    requires Flight(e, Table(before), Table(after), introduced, requested, Some(intent), dev.Now())
    requires forall u :: u in requested ==> u in dev.uids
    modifies dev`live, dev`history, dev`refusals
    ensures dev.Valid() && old(dev.history) <= dev.history
    ensures Flight(e, Table(before), Table(after), introduced, requested, Some(intent), dev.Now())
    ensures forall i :: old(|dev.history|) <= i < |dev.history| ==>
              TxSafe(e, saved0, Table(before), Table(after), requested, dev.history[i])
                  && dev.history[i].uids == dev.uids
    ensures dev.Reliable(Recovery) && Admissible(old(dev.live), dev.plainListings, after, before) ==>
              SolidEqual(dev.live, e.live)
  {
    ghost var b, a, d := Table(before), Table(after), Some(intent);
    ghost var m := dev.Now();
    ghost var h := dev.history;
    hide TxSafe, SameOwnership, Intent;
    var undone, _ := RuleTransaction.Reconcile(dev, Recovery, after, before);
    forall i | |h| <= i < |dev.history| ensures TxSafe(e, saved0, b, a, requested, dev.history[i]) {
      WithinComposes(e, m, b, a, introduced, d, dev.history[i]);
      FlightIsSafe(e, saved0, before, after, introduced, requested, intent, dev.history[i]);
    }
    WithinComposes(e, m, b, a, introduced, d, dev.Now());
    if undone.Done? { UndoneIsEntry(e.live, b, a, dev.live); }
  }

  /** Take the new UIDs back, one by one, once the rules are those of the entry. */
  method ReleaseUids(dev: Device, before: seq<Rule>, after: seq<Rule>, introduced: seq<Uid>,
                     ghost e: Snap, ghost saved0: Record, ghost requested: seq<Uid>, ghost intent: Record)
    requires Intent(intent, before, after, introduced) && SameOwnership(saved0, intent)
    requires dev.Valid() && SolidEqual(dev.live, e.live)
    requires forall k :: !Published(e.live, Table(after), dev.live, k)
    requires forall u :: u in introduced ==> u !in e.uids
    requires Flight(e, Table(before), Table(after), introduced, requested, Some(intent), dev.Now())
    modifies dev`uids, dev`history, dev`refusals
    ensures dev.Valid() && old(dev.history) <= dev.history
    ensures Flight(e, Table(before), Table(after), introduced, requested, Some(intent), dev.Now())
    ensures forall i :: old(|dev.history|) <= i < |dev.history| ==>
              TxSafe(e, saved0, Table(before), Table(after), requested, dev.history[i])
    ensures forall i :: old(|dev.history|) <= i < |dev.history| ==>
              dev.history[i].live == dev.live && dev.history[i].uids <= old(dev.uids)
    ensures dev.uids <= old(dev.uids)
    ensures dev.recoveryWorks ==> forall u :: u in introduced ==> u !in dev.uids
  {
    ghost var b, a := Table(before), Table(after);
    hide TxSafe, SameOwnership, Intent;
    for i := 0 to |introduced|
      invariant dev.Valid() && dev.uids <= old(dev.uids)
      invariant Flight(e, b, a, introduced, requested, Some(intent), dev.Now())
      invariant dev.recoveryWorks ==> forall u :: u in introduced[..i] ==> u !in dev.uids
      invariant old(dev.history) <= dev.history
      invariant forall j :: old(|dev.history|) <= j < |dev.history| ==>
                TxSafe(e, saved0, b, a, requested, dev.history[j])
      invariant forall j :: old(|dev.history|) <= j < |dev.history| ==>
                  dev.history[j].live == dev.live && dev.history[j].uids <= old(dev.uids)
    {
      assert introduced[i] in introduced;
      ghost var n := |dev.history|;
      var _ := dev.RemoveUids([introduced[i]], Recovery);
      forall j | n <= j < |dev.history| ensures TxSafe(e, saved0, b, a, requested, dev.history[j]) {
        FlightIsSafe(e, saved0, before, after, introduced, requested, intent, dev.history[j]);
      }
    }
    assert introduced[..|introduced|] == introduced;
  }

  /** Undo what can be undone and decide by readback whether that was everything.
      UIDs are released only once the rules are known to be back. */
  method Recover(dev: Device, recorded: seq<Rule>, before: seq<Rule>, after: seq<Rule>, rulesApplied: bool,
                 originalUids: seq<Uid>, introduced: seq<Uid>,
                 ghost e: Snap, ghost saved0: Record, ghost requested: seq<Uid>, ghost intent: Record)
    returns (recovered: bool)
    requires Intent(intent, before, after, introduced) && SameOwnership(saved0, intent)
    requires dev.Valid() && UniqueKeys(before) && forall r :: r in before ==> r in recorded
    requires Startable(e.live, Table(before), Table(after))
    requires forall u :: u in originalUids <==> u in e.uids
    requires forall u :: u in introduced <==> u in requested && u !in e.uids
    requires Flight(e, Table(before), Table(after), introduced, requested, Some(intent), dev.Now())
    requires rulesApplied ==> forall u :: u in requested ==> u in dev.uids
    modifies dev`live, dev`uids, dev`history, dev`refusals
    ensures dev.Valid() && old(dev.history) <= dev.history
    ensures Flight(e, Table(before), Table(after), introduced, requested, Some(intent), dev.Now())
    ensures forall i :: old(|dev.history|) <= i < |dev.history| ==>
              TxSafe(e, saved0, Table(before), Table(after), requested, dev.history[i])
    ensures forall i :: old(|dev.history|) <= i < |dev.history| ==> UidsAround(e, old(dev.uids), dev.history[i])
    ensures UidsAround(e, old(dev.uids), dev.Now())
    ensures recovered ==> AtEntry(e, dev.Now())
    ensures !rulesApplied && dev.recoveryWorks && Restorable(recorded, after, e.live, old(dev.live)) ==> recovered
    ensures rulesApplied && Reversible(dev, recorded, before, after, e.live, old(dev.live)) ==> recovered
  {
    hide TxSafe, SameOwnership, Intent, Flight, Admissible;
    if rulesApplied {
      UndoRules(dev, before, after, introduced, e, saved0, requested, intent);
    }
    InFlightOf(e, Table(before), Table(after), introduced, requested, Some(intent), dev.Now());
    var rulesRecovered := RulesRecovered(dev, recorded, before, after, e);
    if !rulesRecovered { return false; }
    ReleaseUids(dev, before, after, introduced, e, saved0, requested, intent);
    InFlightOf(e, Table(before), Table(after), introduced, requested, Some(intent), dev.Now());
    var uids := dev.ReadUids(Recovery);
    recovered := uids.Ok?
      && (forall u :: u in originalUids ==> u in uids.value)
      && (forall u :: u in introduced ==> u !in uids.value);
  }

  lemma InFlightOf(e: Snap, b: Live, a: Live, introduced: seq<Uid>, requested: seq<Uid>, d: Option<Record>, s: Snap)
    requires Flight(e, b, a, introduced, requested, d, s)
    ensures InFlight(e, b, a, introduced, d, s)
  {
  }

  /** What a commit leaves: the goal is reached, the requested UIDs are isolated,
      the record in memory is exact and the stored one still covers the change. */
  ghost predicate CommittedState(e: Snap, saved0: Record, before: seq<Rule>, after: seq<Rule>, requested: seq<Uid>,
                                 s: Snap, saved: Record)
  {
    && Startable(e.live, Table(before), Table(after))
    && UniqueKeys(after)
    && Reached(s.live, Table(before), Table(after))
    && (forall k :: KeyWithin(e.live, Table(before), Table(after), s.live, k))
    && s.uids == e.uids + (set u | u in requested)
    && s.mounts == e.mounts
    && saved == saved0.(phase := Applying, error := false, pendingRules := [],
                        rules := OtherModules(saved0.rules, before) + after, isolatedUids := saved.isolatedUids)
    && (forall u :: u in saved.isolatedUids <==> u in saved0.isolatedUids || (u in requested && u !in e.uids))
    && Covers(e, s)
    && SameOwnership(saved0, s.disk.value)
  }

  /** What each result of a run says about the state it leaves and the record in memory. */
  ghost predicate Concluded(r: TxResult, e: Snap, saved0: Record, before: seq<Rule>, after: seq<Rule>,
                            requested: seq<Uid>, s: Snap, saved: Record)
  {
    match r
    case Refused => s == e && saved == saved0
    case JournalFailed => s.live == e.live && s.uids == e.uids
    case Committed => CommittedState(e, saved0, before, after, requested, s, saved)
    case RecoveryJournalFailed(_, clean) => clean ==> AtEntry(e, s)
    case RolledBack(_, clean) =>
      && s.disk == Some(saved)
      && if clean then AtEntry(e, s) && saved == saved0.(phase := Ready, error := true, pendingRules := [])
         else saved.phase.Errored?
  }

  /** One transaction of a module, from the stored intent to the stored outcome.

      In every state of the run, requested UIDs are isolated while anything new is
      published, and a state that differs from the entry state is covered by the
      stored record. A clean rollback restores rules and UIDs. A commit reaches the
      goal and leaves in memory the record of what is live. */
  method Reconcile(dev: Device, saved: Ledger, before: seq<Rule>, after: seq<Rule>, requested: seq<Uid>)
    returns (r: TxResult, ghost peak: set<Uid>)
    requires dev.Valid() && forall x :: x in before ==> x in saved.rules
    modifies dev`live, dev`uids, dev`disk, dev`history, dev`refusals, saved
    ensures dev.Valid() && old(dev.history) <= dev.history
    ensures forall i :: old(|dev.history|) <= i < |dev.history| ==>
              TxSafe(old(dev.Now()), old(saved.View()), Table(before), Table(after), requested, dev.history[i])
    ensures Concluded(r, old(dev.Now()), old(saved.View()), before, after, requested, dev.Now(), saved.View())
    ensures if r.Refused? then dev.history == old(dev.history)
            else Startable(old(dev.live), Table(before), Table(after))
    ensures !r.Refused? ==> forall u :: u in old(saved.isolatedUids) ==> u in old(dev.uids)
    ensures r.Committed? ==> dev.refusals == old(dev.refusals)
    ensures dev.recoveryWorks && Restorable(old(saved.rules), after, old(dev.live), old(dev.live)) ==>
              r.RolledBack? && !r.cause.FinalReadbackCause? ==> r.clean
    ensures dev.Reliable(Recovery) ==> Undoable(old(dev.live), dev.plainListings, before, after) ==>
              Restorable(old(saved.rules), after, old(dev.live), old(dev.live)) ==> r.RolledBack? ==> r.clean
    ensures dev.forwardWorks ==> Admissible(old(dev.live), dev.plainListings, before, after) ==>
              (forall u :: u in old(saved.isolatedUids) ==> u in old(dev.uids)) ==> r.Committed?
    ensures forall i :: old(|dev.history|) <= i < |dev.history| ==> UidsAround(old(dev.Now()), peak, dev.history[i])
  {
    ghost var e, saved0 := dev.Now(), saved.View();
    peak := dev.uids;
    var ok := Preflight(dev, before, after);
    if !ok { return Refused, peak; }
    var originalUids := dev.ReadUids(Forward);
    if originalUids.Err? || !VerifyUids(originalUids.value, saved.isolatedUids) { return Refused, peak; }
    var introduced := UidSet(NotIn(requested, originalUids.value));
    var originalOwned := saved.isolatedUids;
    var recorded := saved.rules;
    var desired := OtherModules(saved.rules, before) + after;
    ok := Journal(dev, saved, desired, introduced, Table(before), Table(after), requested);
    if !ok { return JournalFailed, peak; }
    hide TxSafe, AtEntry, Startable;
    r, peak := PublishOrAbort(dev, saved, desired, recorded, originalOwned, before, after, originalUids.value,
                              introduced,
                        e, saved0, requested);
  }

  /** Publish under the stored intent; take everything back where that fails. */
  method PublishOrAbort(dev: Device, saved: Ledger, desired: seq<Rule>, recorded: seq<Rule>, originalOwned: seq<Uid>,
                        before: seq<Rule>, after: seq<Rule>, originalUids: seq<Uid>, introduced: seq<Uid>,
                        ghost e: Snap, ghost saved0: Record, ghost requested: seq<Uid>)
    returns (r: TxResult, ghost peak: set<Uid>)
    requires dev.Valid() && dev.Now() == Snap(e.live, e.uids, e.mounts, Some(saved.View()))
    requires Intent(saved.View(), before, after, introduced) && SameOwnership(saved0, saved.View())
    requires saved.View() == saved0.(phase := Applying, error := false, pendingRules := desired,
                                     isolatedUids := saved.isolatedUids)
    requires forall u :: u in saved.isolatedUids <==> u in saved0.isolatedUids || u in introduced
    requires desired == OtherModules(saved0.rules, before) + after
    requires recorded == saved0.rules && originalOwned == saved0.isolatedUids
    requires UniqueKeys(before) && UniqueKeys(after) && forall x :: x in before ==> x in recorded
    requires Startable(e.live, Table(before), Table(after))
    requires forall u :: u in originalUids <==> u in e.uids
    requires forall u :: u in introduced <==> u in requested && u !in e.uids
    modifies dev`live, dev`uids, dev`disk, dev`history, dev`refusals, saved
    ensures dev.Valid() && old(dev.history) <= dev.history
    ensures forall i :: old(|dev.history|) <= i < |dev.history| ==>
              TxSafe(e, saved0, Table(before), Table(after), requested, dev.history[i])
    ensures r.Committed? || r.RolledBack? || r.RecoveryJournalFailed?
    ensures Concluded(r, e, saved0, before, after, requested, dev.Now(), saved.View())
    ensures r.Committed? ==> dev.refusals == old(dev.refusals)
    ensures dev.recoveryWorks && Restorable(recorded, after, e.live, e.live) ==>
              r.RolledBack? && !r.cause.FinalReadbackCause? ==> r.clean
    ensures dev.Reliable(Recovery) ==> Undoable(e.live, dev.plainListings, before, after) ==>
              Restorable(recorded, after, e.live, e.live) ==> r.RolledBack? ==> r.clean
    ensures dev.forwardWorks && Admissible(e.live, dev.plainListings, before, after) ==> r.Committed?
    ensures e.uids <= peak
    ensures forall i :: old(|dev.history|) <= i < |dev.history| ==> UidsAround(e, peak, dev.history[i])
  {
    ghost var intent := saved.View();
    hide TxSafe, AtEntry, Flight, Concluded, Startable, Intent, SameOwnership, Admissible, Reached, SolidEqual, Solid;
    hide UidsAround, Restorable, Undoable, Reversible;
    var cause, rulesApplied := Publish(dev, introduced, originalUids + introduced, before, after,
                                       e, saved0, requested, intent);
    peak := dev.uids;
    if cause == None {
      saved.rules := desired;
      saved.pendingRules := [];
      PublishedIsCommitted(e, saved0, before, after, requested, introduced, intent, dev.Now(), saved.View());
      return Committed, peak;
    }
    r := Abort(dev, saved, cause.value, rulesApplied, recorded, originalOwned, before, after, originalUids,
               introduced, e, saved0, requested, intent);
  }

  /** Where a failed publication leaves enough for the recovery to succeed. */
  lemma AbortSucceeds(dev: Device, recorded: seq<Rule>, before: seq<Rule>, after: seq<Rule>, introduced: seq<Uid>,
                      requested: seq<Uid>, e: Snap, intent: Record, rulesApplied: bool)
    requires forall r :: r in before ==> r in recorded
    requires Flight(e, Table(before), Table(after), introduced, requested, Some(intent), dev.Now())
    requires rulesApplied ==> Reached(dev.live, Table(before), Table(after))
    requires !rulesApplied && dev.recoveryWorks && Solid(before) ==> SolidEqual(dev.live, e.live)
    ensures Restorable(recorded, after, e.live, e.live) && !rulesApplied && dev.recoveryWorks ==>
              Restorable(recorded, after, e.live, dev.live)
    ensures Restorable(recorded, after, e.live, e.live) && rulesApplied && dev.Reliable(Recovery) ==>
              Undoable(e.live, dev.plainListings, before, after) ==>
                        Reversible(dev, recorded, before, after, e.live, dev.live)
  {
  }

  lemma PublishedIsCommitted(e: Snap, saved0: Record, before: seq<Rule>, after: seq<Rule>, requested: seq<Uid>,
                             introduced: seq<Uid>, intent: Record, s: Snap, saved: Record)
    requires Intent(intent, before, after, introduced) && SameOwnership(saved0, intent)
    requires intent.phase.Applying? && !intent.error && forall u :: u in intent.isolatedUids <==>
               u in saved0.isolatedUids || u in introduced
    requires saved == intent.(rules := OtherModules(saved0.rules, before) + after, pendingRules := [])
    requires Startable(e.live, Table(before), Table(after)) && UniqueKeys(after)
    requires forall u :: u in introduced <==> u in requested && u !in e.uids
    requires Flight(e, Table(before), Table(after), introduced, requested, Some(intent), s)
    requires Reached(s.live, Table(before), Table(after)) && forall u :: u in requested ==> u in s.uids
    ensures Concluded(Committed, e, saved0, before, after, requested, s, saved)
  {
    InFlightIsCovered(e, before, after, introduced, intent, s);
  }

  lemma AbortedIsConcluded(r: TxResult, e: Snap, saved0: Record, before: seq<Rule>, after: seq<Rule>,
                           requested: seq<Uid>,
                           intent: Record, s: Snap, saved: Record)
    requires SameOwnership(saved0, intent) && (r.RolledBack? || r.RecoveryJournalFailed?)
    requires r.clean ==> AtEntry(e, s)
    requires r.RolledBack? ==> s.disk == Some(saved)
    requires saved == if r.clean
                      then intent.(phase := Ready, error := true, pendingRules := [],
                                   isolatedUids := saved0.isolatedUids)
                      else intent.(phase := Errored, error := true)
    ensures Concluded(r, e, saved0, before, after, requested, s, saved)
  {
  }

  /** Recover from a failed publication and store what came of it. */
  method Abort(dev: Device, saved: Ledger, cause: Cause, rulesApplied: bool,
               recorded: seq<Rule>, originalOwned: seq<Uid>, before: seq<Rule>, after: seq<Rule>,
               originalUids: seq<Uid>, introduced: seq<Uid>,
               ghost e: Snap, ghost saved0: Record, ghost requested: seq<Uid>, ghost intent: Record)
    returns (r: TxResult)
    requires dev.Valid() && saved.View() == intent
    requires Intent(intent, before, after, introduced) && SameOwnership(saved0, intent)
    requires UniqueKeys(before) && forall r :: r in before ==> r in recorded
    requires Startable(e.live, Table(before), Table(after))
    requires forall u :: u in originalUids <==> u in e.uids
    requires forall u :: u in introduced <==> u in requested && u !in e.uids
    requires Flight(e, Table(before), Table(after), introduced, requested, Some(intent), dev.Now())
    requires rulesApplied ==> forall u :: u in requested ==> u in dev.uids
    requires originalOwned == saved0.isolatedUids
    requires rulesApplied ==> Reached(dev.live, Table(before), Table(after))
    requires !rulesApplied && dev.recoveryWorks && Solid(before) ==> SolidEqual(dev.live, e.live)
    modifies dev`live, dev`uids, dev`disk, dev`history, dev`refusals, saved
    ensures dev.Valid() && old(dev.history) <= dev.history
    ensures forall i :: old(|dev.history|) <= i < |dev.history| ==>
              TxSafe(e, saved0, Table(before), Table(after), requested, dev.history[i])
    ensures (r.RolledBack? || r.RecoveryJournalFailed?) && r.cause == cause
    ensures Concluded(r, e, saved0, before, after, requested, dev.Now(), saved.View())
    ensures !rulesApplied && dev.recoveryWorks && Restorable(recorded, after, e.live, e.live) ==> r.clean
    ensures dev.Reliable(Recovery) ==> Undoable(e.live, dev.plainListings, before, after) ==>
              Restorable(recorded, after, e.live, e.live) ==> r.clean
    ensures forall i :: old(|dev.history|) <= i < |dev.history| ==> UidsAround(e, old(dev.uids), dev.history[i])
  {
    AbortSucceeds(dev, recorded, before, after, introduced, requested, e, intent, rulesApplied);
    hide TxSafe, AtEntry, Flight, Concluded, Startable, Intent, SameOwnership, SolidEqual, Solid, Reached;
    hide UidsAround, Restorable, Undoable, Reversible;
    var recovered := Recover(dev, recorded, before, after, rulesApplied, originalUids, introduced,
                             e, saved0, requested, intent);
    var ok := Conclude(dev, saved, recovered, originalOwned, before, after, introduced, e, saved0, requested, intent);
    r := if ok then RolledBack(cause, recovered) else RecoveryJournalFailed(cause, recovered);
    AbortedIsConcluded(r, e, saved0, before, after, requested, intent, dev.Now(), saved.View());
  }

  /** Store the intent. Nothing else changes. */
  method Journal(dev: Device, saved: Ledger, desired: seq<Rule>, introduced: seq<Uid>,
                 ghost b: Live, ghost a: Live, ghost requested: seq<Uid>)
    returns (ok: bool)
    requires dev.Valid()
    modifies dev`live, dev`uids, dev`disk, dev`history, dev`refusals, saved
    ensures dev.Valid() && old(dev.history) <= dev.history
    ensures dev.live == old(dev.live) && dev.uids == old(dev.uids)
    ensures saved.View() == old(saved.View()).(
              phase := Applying, error := false, pendingRules := desired,
              isolatedUids := UidSet(old(saved.isolatedUids) + introduced))
    ensures ok ==> dev.disk == Some(saved.View())
    ensures ok ==> dev.refusals == old(dev.refusals)
    ensures dev.forwardWorks ==> ok
    ensures forall i :: old(|dev.history|) <= i < |dev.history| ==>
              dev.history[i].live == dev.live && dev.history[i].uids == dev.uids
    ensures forall i :: old(|dev.history|) <= i < |dev.history| ==>
              TxSafe(old(dev.Now()), old(saved.View()), b, a, requested, dev.history[i])
  {
    saved.phase := Applying;
    saved.pendingRules := desired;
    saved.isolatedUids := UidSet(saved.isolatedUids + introduced);
    saved.error := false;
    ok := dev.Persist(saved.View());
  }

  /** Store the outcome of a failed run. */
  method Conclude(dev: Device, saved: Ledger, recovered: bool, originalOwned: seq<Uid>,
                  ghost before: seq<Rule>, ghost after: seq<Rule>, ghost introduced: seq<Uid>,
                  ghost e: Snap, ghost saved0: Record, ghost requested: seq<Uid>, ghost intent: Record)
    returns (ok: bool)
    requires dev.Valid() && saved.View() == intent && Intent(intent, before, after, introduced)
    requires Flight(e, Table(before), Table(after), introduced, requested, Some(intent), dev.Now())
    requires recovered ==> AtEntry(e, dev.Now())
    requires SameOwnership(saved0, intent) && originalOwned == saved0.isolatedUids
    modifies dev`live, dev`uids, dev`disk, dev`history, dev`refusals, saved
    ensures dev.Valid() && old(dev.history) <= dev.history
    ensures dev.live == old(dev.live) && dev.uids == old(dev.uids)
    ensures ok ==> dev.disk == Some(saved.View())
    ensures saved.View() ==
              if recovered then intent.(phase := Ready, error := true, pendingRules := [],
                                        isolatedUids := originalOwned)
              else intent.(phase := Errored, error := true)
    ensures forall i :: old(|dev.history|) <= i < |dev.history| ==>
              TxSafe(e, saved0, Table(before), Table(after), requested, dev.history[i])
    ensures forall i :: old(|dev.history|) <= i < |dev.history| ==>
              dev.history[i].live == dev.live && dev.history[i].uids == dev.uids
  {
    ghost var g := dev.Now();
    ghost var n := |dev.history|;
    FlightIsSafe(e, saved0, before, after, introduced, requested, intent, g);
    saved.phase := if recovered then Ready else Errored;
    saved.error := true;
    if recovered {
      saved.pendingRules := [];
      saved.isolatedUids := originalOwned;
    }
    ghost var final := saved.View();
    ok := dev.Persist(saved.View());
    forall i | n <= i < |dev.history|
      ensures TxSafe(e, saved0, Table(before), Table(after), requested, dev.history[i])
    {
      if !recovered && dev.disk == Some(final) {
        FlightIsSafe(e, saved0, before, after, introduced, requested, final, g.(disk := Some(final)));
      }
    }
  }

  /** Committing a module keeps the ledger exact: if every recorded rule was live
      under its own key before, the same holds of the new record. */
  lemma CommitKeepsOwnership(rules: seq<Rule>, before: seq<Rule>, after: seq<Rule>, e: Live, m: Live)
    requires UniqueKeys(rules) && ModuleSlice(rules, before) && AllLive(rules, e)
    requires UniqueKeys(after) && Solid(after)
    requires Startable(e, Table(before), Table(after)) && Reached(m, Table(before), Table(after))
    requires forall k :: KeyWithin(e, Table(before), Table(after), m, k)
    ensures UniqueKeys(OtherModules(rules, before) + after)
    ensures AllLive(OtherModules(rules, before) + after, m)
  {
    var others := OtherModules(rules, before);
    forall o | o in others ensures KeyOf(o) !in Table(before) && KeyOf(o) !in Table(after) {
      PutAllAt(map[], before, KeyOf(o));
      forall x | x in before ensures KeyOf(x) != KeyOf(o) {
        assert SameModule(before, x);
        var i :| 0 <= i < |rules| && rules[i] == x;
        var j :| 0 <= j < |rules| && rules[j] == o;
        assert i < j || j < i;
      }
    }
    forall r | r in others + after ensures Look(m, KeyOf(r)) == Some(PayloadOf(r)) {
      if r in after {
        TableOfMember(after, r);
        assert SolidAt(m, KeyOf(r)) == SolidAt(Table(after), KeyOf(r));
      } else {
        assert KeyWithin(e, Table(before), Table(after), m, KeyOf(r));
      }
    }
    var all := others + after;
    forall i, j | 0 <= i < j < |all| ensures KeyOf(all[i]) != KeyOf(all[j]) {
      if i < |others| <= j {
        assert all[i] in others && all[j] in after;
        TableOfMember(after, all[j]);
      }
    }
  }
}
