/// The rule reconciler: validation, the fallible batches and the rollback
/// (src/runtime/rules.rs, the part that drives the kernel).
module RuleTransaction {
  import opened Devices
  import opened Ledgers
  import opened Rules
  import opened Wrappers

  // --- Validation ---------------------------------------------------------

  /** A live row that an owned rule may not coexist with. Parents that the kernel
      generated above the owned path, globally or for its UID, are tolerated. */
  predicate Conflict(actual: Rule, owned: Rule) {
    && !((actual.uid == 0 || actual.uid == owned.uid)
         && DerivedParent(actual) && Ancestor(actual.virtualPath, owned.virtualPath))
    && (actual.virtualPath == owned.virtualPath
        || Ancestor(actual.virtualPath, owned.virtualPath)
        || Ancestor(owned.virtualPath, actual.virtualPath))
  }

  /** Related paths conflict, but for a bare directory above an owned path, known by its
      flags and its missing source, for every UID or for the same one. */
  lemma ConflictMeans(actual: Rule, owned: Rule)
    ensures Conflict(actual, owned) <==>
            || actual.virtualPath == owned.virtualPath || Ancestor(owned.virtualPath, actual.virtualPath)
            || (Ancestor(actual.virtualPath, owned.virtualPath)
                && !((actual.flags == 2 || actual.flags == 3) && actual.realPath == ""
                     && (actual.uid == 0 || actual.uid == owned.uid)))
  {
    DerivedBits(actual);
    hide DerivedParent;
  }

  predicate Owned(rules: seq<Rule>, actual: Rule) {
    exists owned :: owned in rules && SameKey(owned, actual)
  }

  ghost predicate ValidSnapshot(initial: seq<Rule>, before: seq<Rule>, after: seq<Rule>) {
    && UniqueKeys(before)
    && UniqueKeys(after)
    && (forall r :: r in before ==> Shown(initial, r))
    && (forall actual, owned :: actual in initial && owned in before + after && !Owned(before, actual)
          ==> !Conflict(actual, owned))
  }

  function Foreign(initial: seq<Rule>, before: seq<Rule>): (foreign: seq<Rule>)
    ensures forall r :: r in foreign <==> r in initial && !Owned(before, r)
  {
    if initial == [] then []
    else
      var rest := Foreign(initial[1..], before);
      assert forall r :: r in initial <==> r == initial[0] || r in initial[1..];
      if Owned(before, initial[0]) then rest else [initial[0]] + rest
  }

  datatype Validation = Valid(foreign: seq<Rule>) | Invalid(error: RuleError)

  method ValidateUnique(rules: seq<Rule>) returns (o: Outcome)
    ensures o.Pass? <==> UniqueKeys(rules)
  {
    var keys: set<Key> := {};
    for i := 0 to |rules|
      invariant keys == KeysOf(rules[..i])
      invariant UniqueKeys(rules[..i])
    {
      assert rules[..i+1] == rules[..i] + [rules[i]];
      if KeyOf(rules[i]) in keys {
        var r :| r in rules[..i] && KeyOf(r) == KeyOf(rules[i]);
        assert exists j :: 0 <= j < i && rules[j] == r;
        return Fail(DuplicateOwnedRule(KeyOf(rules[i])));
      }
      forall j | 0 <= j < i ensures KeyOf(rules[j]) != KeyOf(rules[i]) {
        assert rules[j] in rules[..i];
      }
      keys := keys + {KeyOf(rules[i])};
    }
    assert rules[..|rules|] == rules;
    o := Pass;
  }

  method CheckConflicts(foreign: seq<Rule>, owned: seq<Rule>) returns (o: Outcome)
    ensures o.Pass? <==> forall a, b :: a in foreign && b in owned ==> !Conflict(a, b)
  {
    for i := 0 to |foreign|
      invariant forall a, b :: a in foreign[..i] && b in owned ==> !Conflict(a, b)
    {
      for j := 0 to |owned|
        invariant forall b :: b in owned[..j] ==> !Conflict(foreign[i], b)
      {
        if Conflict(foreign[i], owned[j]) {
          return Fail(ForeignConflict(KeyOf(owned[j]), KeyOf(foreign[i])));
        }
      }
    }
    assert foreign[..|foreign|] == foreign;
    o := Pass;
  }

  method ValidateSnapshot(initial: seq<Rule>, before: seq<Rule>, after: seq<Rule>) returns (v: Validation)
    ensures v.Valid? <==> ValidSnapshot(initial, before, after)
    ensures v.Valid? ==> v.foreign == Foreign(initial, before)
  {
    var unique := ValidateUnique(before);
    if unique.Fail? { return Invalid(unique.error); }
    unique := ValidateUnique(after);
    if unique.Fail? { return Invalid(unique.error); }
    var present := VerifyPresent(initial, before);
    if present.Fail? { return Invalid(present.error); }
    var foreign := Foreign(initial, before);
    var conflict := CheckConflicts(foreign, before + after);
    if conflict.Fail? { return Invalid(conflict.error); }
    v := Valid(foreign);
  }

  /** No key that `after` adds is live when the validation passes. */
  lemma AddedKeysAreFree(initial: seq<Rule>, live: Live, before: seq<Rule>, after: seq<Rule>, k: Key)
    requires Listing(initial, live) && ValidSnapshot(initial, before, after)
    requires k in Table(after) && k !in Table(before)
    ensures k !in live && k !in KeysOf(initial)
  {
    PutAllAt(map[], after, k);
    PutAllAt(map[], before, k);
    var owned :| owned in after && KeyOf(owned) == k;
    assert owned in before + after;
    if k in KeysOf(initial) {
      var row :| row in initial && KeyOf(row) == k;
      assert !Owned(before, row);
      assert Conflict(row, owned);
    }
  }

  /** Every key of `before` carries its saved payload when the validation passes,
      unless only a derived parent shows it. */
  lemma SavedKeysAreLive(rows: seq<Rule>, live: Live, before: seq<Rule>, k: Key)
    requires Listing(rows, live) && UniqueKeys(before) && (forall r :: r in before ==> Shown(rows, r))
    requires k in Table(before)
    ensures Look(live, k) == Some(Table(before)[k]) || (k !in live && Derivable(Table(before)[k]))
  {
    PutAllAt(map[], before, k);
    var r :| r in before && KeyOf(r) == k && PayloadOf(r) == Table(before)[k];
    ShownMeansLive(rows, live, r);
  }

  // --- What a run may change ----------------------------------------------

  /** Key by key: unchanged, an owned rule gone, or an owned payload in place.
      `e` is the entry state; `b` and `a` are the tables before and after. */
  predicate KeyWithin(e: Live, b: Live, a: Live, m: Live, k: Key) {
    || Look(m, k) == Look(e, k)
    || (k in b && (k !in m || m[k] == b[k]))
    || (k in a && k in m && m[k] == a[k])
  }

  ghost predicate Within(e: Snap, b: Live, a: Live, s: Snap) {
    && s.uids == e.uids && s.mounts == e.mounts && s.disk == e.disk
    && forall k :: KeyWithin(e.live, b, a, s.live, k)
  }

  /** What a rollback may do to one key of the state `m1` it starts from. */
  predicate RollbackKey(m1: Live, b: Live, t: Live, m2: Live, k: Key) {
    || Look(m2, k) == Look(m1, k)
    || (k in t && k !in b && k !in m2 && k in m1 && m1[k] == t[k])
    || (k in b && k in m2 && m2[k] == b[k]
        && (k !in m1 || Derivable(m1[k]) || (k in t && m1[k] == t[k])))
  }

  ghost predicate RolledBack(e: Snap, b: Live, t: Live, s: Snap) {
    && s.uids == e.uids && s.mounts == e.mounts && s.disk == e.disk
    && forall k :: RollbackKey(e.live, b, t, s.live, k)
  }

  /** Nothing but this run has touched the keys it owns, and the foreign rows it
      saw at entry are still there. */
  ghost predicate Recoverable(m: Live, b: Live, t: Live, foreign: seq<Rule>) {
    && (forall k :: k in b && k in m ==> m[k] == b[k] || (k in t && m[k] == t[k]))
    && (forall k :: k in t && k !in b && k in m ==> m[k] == t[k])
    && ForeignLive(m, b, t, foreign)
  }

  ghost predicate ForeignLive(m: Live, b: Live, t: Live, foreign: seq<Rule>) {
    forall r :: r in foreign && !DerivedParent(r) ==>
      KeyOf(r) !in b && KeyOf(r) !in t && Look(m, KeyOf(r)) == Some(PayloadOf(r))
  }

  /** No rule could be mistaken for a derived parent. Every rule the planner
      encodes has a source or a whiteout or opaque flag. */
  ghost predicate Solid(rules: seq<Rule>) {
    forall r :: r in rules ==> !Derivable(PayloadOf(r))
  }

  /** The state a rollback reports as clean: the saved rules are back and no key
      that only the attempt used is live. */
  ghost predicate Restored(m: Live, b: Live, t: Live) {
    && (forall k :: k in b ==> SolidAt(m, k) == SolidAt(b, k))
    && (forall k :: k in t && k !in b ==> SolidAt(m, k) == None)
  }

  // --- Rollback -----------------------------------------------------------

  function Introduced(before: seq<Rule>, attempted: seq<Rule>, current: seq<Rule>): (out: seq<Rule>)
    ensures forall r :: r in out <==> r in attempted && !Owned(before, r) && Shown(current, r)
    ensures UniqueKeys(attempted) ==> UniqueKeys(out)
  {
    if attempted == [] then []
    else
      var rest := Introduced(before, attempted[1..], current);
      assert forall r :: r in attempted <==> r == attempted[0] || r in attempted[1..];
      assert UniqueKeys(attempted) ==>
               UniqueKeys(attempted[1..]) && forall r :: r in rest ==> KeyOf(r) != KeyOf(attempted[0]);
      if !Owned(before, attempted[0]) && Shown(current, attempted[0]) then [attempted[0]] + rest else rest
  }

  predicate Replaceable(attempted: seq<Rule>, current: seq<Rule>, saved: Rule) {
    && !Shown(current, saved)
    && forall actual :: actual in current && SameKey(saved, actual) ==>
         DerivedParent(actual) || exists put :: put in attempted && SemanticEqual(put, actual)
  }

  function ToRestore(before: seq<Rule>, attempted: seq<Rule>, current: seq<Rule>): (out: seq<Rule>)
    ensures forall r :: r in out <==> r in before && Replaceable(attempted, current, r)
    ensures UniqueKeys(before) ==> UniqueKeys(out)
  {
    if before == [] then []
    else
      var rest := ToRestore(before[1..], attempted, current);
      assert forall r :: r in before <==> r == before[0] || r in before[1..];
      assert UniqueKeys(before) ==> UniqueKeys(before[1..]) && forall r :: r in rest ==> KeyOf(r) != KeyOf(before[0]);
      if Replaceable(attempted, current, before[0]) then [before[0]] + rest else rest
  }

  function Explicit(rows: seq<Rule>): (out: seq<Rule>)
    ensures forall r :: r in out <==> r in rows && !DerivedParent(r)
  {
    if rows == [] then []
    else
      var rest := Explicit(rows[1..]);
      assert forall r :: r in rows <==> r == rows[0] || r in rows[1..];
      if DerivedParent(rows[0]) then rest else [rows[0]] + rest
  }

  /** The states of the first calls of a batch, all of which took effect. */
  ghost predicate DeletedOneByOne(was: Live, rules: seq<Rule>, count: nat, n: nat, history: seq<Snap>)
    requires count <= |rules|
  {
    |history| == n + count
    && forall i :: n <= i < |history| ==> history[i].live == was - KeysOf(rules[..i - n + 1])
  }

  ghost predicate PutOneByOne(was: Live, rules: seq<Rule>, count: nat, n: nat, history: seq<Snap>)
    requires count <= |rules|
  {
    |history| == n + count
    && forall i :: n <= i < |history| ==> history[i].live == PutAll(was, rules[..i - n + 1])
  }

  lemma OneMoreDeleted(was: Live, rules: seq<Rule>, i: nat, n: nat, history: seq<Snap>, s: Snap)
    requires i < |rules| && DeletedOneByOne(was, rules, i, n, history)
    requires s.live == was - KeysOf(rules[..i]) - {KeyOf(rules[i])}
    ensures DeletedOneByOne(was, rules, i + 1, n, history + [s]) && s.live == was - KeysOf(rules[..i+1])
  {
    assert rules[..i+1] == rules[..i] + [rules[i]];
    assert KeysOf(rules[..i+1]) == KeysOf(rules[..i]) + {KeyOf(rules[i])};
    hide KeysOf;
  }

  lemma OneMorePut(was: Live, rules: seq<Rule>, i: nat, n: nat, history: seq<Snap>, s: Snap)
    requires i < |rules| && PutOneByOne(was, rules, i, n, history)
    requires s.live == PutAll(was, rules[..i])[KeyOf(rules[i]) := PayloadOf(rules[i])]
    ensures PutOneByOne(was, rules, i + 1, n, history + [s]) && s.live == PutAll(was, rules[..i+1])
  {
    assert rules[..i+1][..i] == rules[..i];
    assert PutAll(was, rules[..i+1]) == s.live;
    hide PutAll;
  }

  /** Key by key: as before, or a rule of the batch gone. */
  ghost predicate Thinned(e: Snap, rules: seq<Rule>, s: Snap) {
    && s == e.(live := s.live)
    && forall k :: Look(s.live, k) == Look(e.live, k) || (k in KeysOf(rules) && k !in s.live)
  }

  lemma ThinnedMore(e: Snap, rules: seq<Rule>, r: Rule, m: Snap, s: Snap)
    requires Thinned(e, rules, m) && r in rules
    requires s == m.(live := s.live) && (s.live == m.live || s.live == m.live - {KeyOf(r)})
    ensures Thinned(e, rules, s)
  {
    assert KeyOf(r) in KeysOf(rules);
  }

  /** Delete one record on its own. */
  method DeleteOne(dev: Device, r: Rule)
    requires dev.Valid()
    modifies dev`live, dev`history, dev`refusals
    ensures dev.Valid() && old(dev.history) <= dev.history
    ensures dev.live == old(dev.live) || dev.live == old(dev.live) - {KeyOf(r)}
    ensures dev.recoveryWorks ==>
              dev.live == old(dev.live) - {KeyOf(r)} && dev.history == old(dev.history) + [dev.Now()]
    ensures forall i :: old(|dev.history|) <= i < |dev.history| ==>
              && dev.history[i] == dev.Now().(live := dev.history[i].live)
              && (dev.history[i].live == old(dev.live) || dev.history[i].live == old(dev.live) - {KeyOf(r)})
  {
    var batch := [r];
    assert batch[..1] == batch && KeysOf(batch) == {KeyOf(r)};
    assert batch[..0] == [] && KeysOf(batch[..0]) == {};
    var _, _ := dev.Delete(batch, Recovery);
  }

  /** Put one record on its own. */
  method PutOne(dev: Device, r: Rule)
    requires dev.Valid()
    modifies dev`live, dev`history, dev`refusals
    ensures dev.Valid() && old(dev.history) <= dev.history
    ensures dev.live == old(dev.live) || dev.live == old(dev.live)[KeyOf(r) := PayloadOf(r)]
    ensures dev.recoveryWorks ==>
              && dev.live == old(dev.live)[KeyOf(r) := PayloadOf(r)] && dev.history == old(dev.history) + [dev.Now()]
    ensures forall i :: old(|dev.history|) <= i < |dev.history| ==>
              && dev.history[i] == dev.Now().(live := dev.history[i].live)
              && (dev.history[i].live == old(dev.live)
                  || dev.history[i].live == old(dev.live)[KeyOf(r) := PayloadOf(r)])
  {
    var batch := [r];
    assert batch[..1] == batch && batch[..0] == [];
    assert PutAll(dev.live, batch) == dev.live[KeyOf(r) := PayloadOf(r)];
    var _, _ := dev.Put(batch, Recovery);
  }

  /** Deleting the introduced rules one at a time. */
  method DeleteEach(dev: Device, rules: seq<Rule>)
    requires dev.Valid()
    modifies dev`live, dev`history, dev`refusals
    ensures dev.Valid() && old(dev.history) <= dev.history
    ensures Thinned(old(dev.Now()), rules, dev.Now())
    ensures forall i :: old(|dev.history|) <= i < |dev.history| ==> Thinned(old(dev.Now()), rules, dev.history[i])
    ensures dev.recoveryWorks ==> dev.live == old(dev.live) - KeysOf(rules)
    ensures dev.recoveryWorks ==> DeletedOneByOne(old(dev.live), rules, |rules|, old(|dev.history|), dev.history)
  {
    ghost var e, h0 := dev.Now(), |dev.history|;
    assert Thinned(e, rules, e);
    assert rules[..0] == [] && KeysOf([]) == {} && e.live - {} == e.live;
    assert DeletedOneByOne(e.live, rules, 0, h0, dev.history);
    hide Thinned, DeletedOneByOne, KeysOf;
    for i := 0 to |rules|
      invariant dev.Valid() && old(dev.history) <= dev.history && Thinned(e, rules, dev.Now())
      invariant forall j :: h0 <= j < |dev.history| ==> Thinned(e, rules, dev.history[j])
      invariant dev.recoveryWorks ==>
                  && dev.live == e.live - KeysOf(rules[..i])
                  && DeletedOneByOne(e.live, rules, i, h0, dev.history)
    {
      ghost var m, h := dev.Now(), dev.history;
      DeleteOne(dev, rules[i]);
      ThinnedMore(e, rules, rules[i], m, dev.Now());
      forall j | |h| <= j < |dev.history| ensures Thinned(e, rules, dev.history[j]) {
        ThinnedMore(e, rules, rules[i], m, dev.history[j]);
      }
      if dev.recoveryWorks { OneMoreDeleted(e.live, rules, i, h0, h, dev.Now()); }
    }
    assert rules[..|rules|] == rules;
  }

  /** Key by key: as before, or a saved rule of the batch put back. */
  ghost predicate PutBack(e: Snap, rules: seq<Rule>, b: Live, s: Snap) {
    && s == e.(live := s.live)
    && forall k :: Look(s.live, k) == Look(e.live, k) || (k in KeysOf(rules) && Look(s.live, k) == Look(b, k))
  }

  lemma PutBackMore(e: Snap, rules: seq<Rule>, b: Live, r: Rule, m: Snap, s: Snap)
    requires PutBack(e, rules, b, m) && r in rules && Look(b, KeyOf(r)) == Some(PayloadOf(r))
    requires s == m.(live := s.live) && (s.live == m.live || s.live == m.live[KeyOf(r) := PayloadOf(r)])
    ensures PutBack(e, rules, b, s)
  {
    assert KeyOf(r) in KeysOf(rules);
  }

  lemma PutBackNone(e: Snap, rules: seq<Rule>, b: Live)
    ensures PutBack(e, rules, b, e)
  {
  }

  /** Putting the saved rules back one at a time. */
  method PutEach(dev: Device, rules: seq<Rule>, ghost b: Live)
    requires dev.Valid()
    requires forall r :: r in rules ==> Look(b, KeyOf(r)) == Some(PayloadOf(r))
    modifies dev`live, dev`history, dev`refusals
    ensures dev.Valid() && old(dev.history) <= dev.history
    ensures PutBack(old(dev.Now()), rules, b, dev.Now())
    ensures forall i :: old(|dev.history|) <= i < |dev.history| ==> PutBack(old(dev.Now()), rules, b, dev.history[i])
    ensures dev.recoveryWorks ==> dev.live == PutAll(old(dev.live), rules)
    ensures dev.recoveryWorks ==> PutOneByOne(old(dev.live), rules, |rules|, old(|dev.history|), dev.history)
  {
    ghost var e, h0 := dev.Now(), |dev.history|;
    PutBackNone(e, rules, b);
    assert rules[..0] == [] && PutAll(e.live, []) == e.live && PutOneByOne(e.live, rules, 0, h0, dev.history);
    hide PutBack, PutOneByOne, PutAll;
    for i := 0 to |rules|
      invariant dev.Valid() && old(dev.history) <= dev.history && PutBack(e, rules, b, dev.Now())
      invariant forall j :: h0 <= j < |dev.history| ==> PutBack(e, rules, b, dev.history[j])
      invariant dev.recoveryWorks ==>
                  && dev.live == PutAll(e.live, rules[..i])
                  && PutOneByOne(e.live, rules, i, h0, dev.history)
    {
      ghost var m, h := dev.Now(), dev.history;
      PutOne(dev, rules[i]);
      PutBackMore(e, rules, b, rules[i], m, dev.Now());
      forall j | |h| <= j < |dev.history| ensures PutBack(e, rules, b, dev.history[j]) {
        PutBackMore(e, rules, b, rules[i], m, dev.history[j]);
      }
      if dev.recoveryWorks { OneMorePut(e.live, rules, i, h0, h, dev.Now()); }
    }
    assert rules[..|rules|] == rules;
  }

  /** The explicit foreign rules are there, or at least not told from a derived parent. */
  ghost predicate ForeignThere(live: Live, foreign: seq<Rule>) {
    forall r :: r in foreign && !DerivedParent(r) ==>
      || Look(live, KeyOf(r)) == Some(PayloadOf(r))
      || (KeyOf(r) !in live && r.realPath == "" && Core(r.flags) == 0)
  }

  lemma ForeignSeen(rows: seq<Rule>, live: Live, foreign: seq<Rule>)
    requires Listing(rows, live) && VerifyPresent(rows, Explicit(foreign)).Pass?
    ensures ForeignThere(live, foreign)
  {
    forall r | r in foreign && !DerivedParent(r)
      ensures || Look(live, KeyOf(r)) == Some(PayloadOf(r))
              || (KeyOf(r) !in live && r.realPath == "" && Core(r.flags) == 0)
    {
      assert r in Explicit(foreign);
      ShownMeansLive(rows, live, r);
    }
  }

  /** What deleting introduced rules may have done: saved keys are as they were. */
  ghost predicate Withdrawn(e: Snap, b: Live, t: Live, s: Snap) {
    RolledBack(e, b, t, s) && forall k :: k in b ==> Look(s.live, k) == Look(e.live, k)
  }

  lemma ThinnedIsWithdrawn(rows: seq<Rule>, e: Snap, before: seq<Rule>, attempted: seq<Rule>, s: Snap)
    requires Listing(rows, e.live) && UniqueKeys(attempted)
    requires Thinned(e, Ordered(Introduced(before, attempted, rows), true), s)
    ensures Withdrawn(e, Table(before), Table(attempted), s)
  {
    OrderedMembers(Introduced(before, attempted, rows), true);
    IntroducedCarryAttempt(rows, e.live, before, attempted);
  }

  /** Introduced rules go in order, since nothing else of the attempt is live. */
  lemma WithdrawnInOrder(rows: seq<Rule>, e: Live, before: seq<Rule>, attempted: seq<Rule>, foreign: seq<Rule>, n: nat)
    requires Listing(rows, e) && UniqueKeys(attempted) && Recoverable(e, Table(before), Table(attempted), foreign)
    requires n <= |Ordered(Introduced(before, attempted, rows), true)|
    ensures InOrder(e, e - KeysOf(Ordered(Introduced(before, attempted, rows), true)[..n]), attempted, before)
  {
    var introduced := Introduced(before, attempted, rows);
    var batch := Ordered(introduced, true)[..n];
    PrefixIsDeletedInOrder(e, introduced, n);
    OrderedMembers(introduced, true);
    WantedIsNotObsolete(attempted, before);
    forall r | r in Without(attempted, before) && KeyOf(r) in e ensures r in introduced {
      TableOfMember(attempted, r);
      PutAllAt(map[], before, KeyOf(r));
      ShownMeansLive(rows, e, r);
    }
    forall r | r in before ensures KeyOf(r) !in KeysOf(batch) {
      assert forall x :: x in batch ==> x in Without(attempted, before);
    }
  }

  /** Delete the rules that the attempt introduced. */
  method WithdrawIntroduced(dev: Device, before: seq<Rule>, attempted: seq<Rule>, ghost foreign: seq<Rule>)
    returns (ok: bool)
    requires dev.Valid() && UniqueKeys(before) && UniqueKeys(attempted)
    modifies dev`live, dev`history, dev`refusals
    ensures dev.Valid() && old(dev.history) <= dev.history
    ensures Withdrawn(old(dev.Now()), Table(before), Table(attempted), dev.Now())
    ensures forall i :: old(|dev.history|) <= i < |dev.history| ==>
              Withdrawn(old(dev.Now()), Table(before), Table(attempted), dev.history[i])
    ensures dev.recoveryWorks ==> ok && NoneIntroduced(old(dev.live), Table(before), Table(attempted), dev.live)
    ensures dev.recoveryWorks && Recoverable(old(dev.live), Table(before), Table(attempted), foreign) ==>
              && InOrder(old(dev.live), dev.live, attempted, before)
              && forall i :: old(|dev.history|) <= i < |dev.history| ==>
                   InOrder(old(dev.live), dev.history[i].live, attempted, before)
  {
    ghost var e, n0 := dev.Now(), |dev.history|;
    var listing := dev.List(Recovery);
    if listing.Err? { return false; }
    ok := true;
    var rows := listing.value;
    var introduced := Ordered(Introduced(before, attempted, rows), true);
    AllIntroducedGo(rows, e.live, before, attempted);
    hide Withdrawn, Thinned, InOrder, Listing, Recoverable, NoneIntroduced, Introduced, Ordered, KeysOf;
    hide DeletedOneByOne, UniqueKeys, Table;
    DeleteEach(dev, introduced);
    ThinnedIsWithdrawn(rows, e, before, attempted, dev.Now());
    forall i | n0 <= i < |dev.history| ensures Withdrawn(e, Table(before), Table(attempted), dev.history[i]) {
      ThinnedIsWithdrawn(rows, e, before, attempted, dev.history[i]);
    }
    if dev.recoveryWorks && Recoverable(e.live, Table(before), Table(attempted), foreign) {
      WithdrawnStates(rows, e.live, before, attempted, foreign, n0, dev.history);
    }
  }

  /** No key that only the attempt used, and used as it is now, is left. */
  ghost predicate NoneIntroduced(e: Live, b: Live, t: Live, m: Live) {
    forall k :: k in t && k !in b && Look(e, k) == Look(t, k) ==> k !in m
  }

  lemma AllIntroducedGo(rows: seq<Rule>, e: Live, before: seq<Rule>, attempted: seq<Rule>)
    requires Listing(rows, e) && UniqueKeys(attempted)
    ensures NoneIntroduced(e, Table(before), Table(attempted),
                           e - KeysOf(Ordered(Introduced(before, attempted, rows), true)))
  {
    OrderedMembers(Introduced(before, attempted, rows), true);
    IntroducedCarryAttempt(rows, e, before, attempted);
  }

  lemma WithdrawnStates(rows: seq<Rule>, e: Live, before: seq<Rule>, attempted: seq<Rule>, foreign: seq<Rule>,
                        n: nat, history: seq<Snap>)
    requires Listing(rows, e) && UniqueKeys(attempted) && Recoverable(e, Table(before), Table(attempted), foreign)
    requires var introduced := Ordered(Introduced(before, attempted, rows), true);
             DeletedOneByOne(e, introduced, |introduced|, n, history)
    ensures forall i :: n <= i < |history| ==> InOrder(e, history[i].live, attempted, before)
    ensures InOrder(e, e - KeysOf(Ordered(Introduced(before, attempted, rows), true)), attempted, before)
  {
    var introduced := Ordered(Introduced(before, attempted, rows), true);
    hide InOrder, Listing, Recoverable, Introduced, Ordered, KeysOf, UniqueKeys, Table;
    WithdrawnInOrder(rows, e, before, attempted, foreign, |introduced|);
    assert introduced[..|introduced|] == introduced;
    forall i | n <= i < |history| ensures InOrder(e, history[i].live, attempted, before) {
      WithdrawnInOrder(rows, e, before, attempted, foreign, i - n + 1);
    }
  }

  /** Saved rules come back in order, since each that does not is there already. */
  lemma RestoredInOrder(rows: seq<Rule>, e: Snap, m: Snap, before: seq<Rule>, attempted: seq<Rule>,
                        foreign: seq<Rule>, n: nat)
    requires Listing(rows, m.live) && UniqueKeys(before) && UniqueKeys(attempted) && Solid(before)
    requires Recoverable(e.live, Table(before), Table(attempted), foreign)
    requires Withdrawn(e, Table(before), Table(attempted), m)
    requires DeletedInOrder(e.live, m.live, Without(attempted, before))
    requires n <= |Ordered(ToRestore(before, attempted, rows), false)|
    ensures InOrder(e.live, PutAll(m.live, Ordered(ToRestore(before, attempted, rows), false)[..n]), attempted, before)
  {
    var restore := ToRestore(before, attempted, rows);
    var batch := Ordered(restore, false)[..n];
    var now := PutAll(m.live, batch);
    PrefixIsPutInOrder(m.live, m.live, restore, n);
    forall r | r in before
      ensures Look(m.live, KeyOf(r)) == Look(e.live, KeyOf(r))
      ensures r !in restore ==> Look(now, KeyOf(r)) == Look(m.live, KeyOf(r)) == Some(PayloadOf(r))
    {
      TableOfMember(before, r);
      if r !in restore {
        NotRestoredIsLive(rows, m.live, before, attempted, r);
        BesidesBatch(m.live, before, restore, n, r);
      }
    }
    forall r | r in Without(attempted, before) ensures Look(now, KeyOf(r)) == Look(m.live, KeyOf(r)) {
      assert forall x :: x in before ==> !SameKey(x, r);
      BesidesBatch(m.live, before, restore, n, r);
    }
    hide Recoverable, Withdrawn, Listing, UniqueKeys, PutAll, Table, Ordered, ToRestore, Without, RolledBack;
  }

  lemma BesidesBatch(m: Live, rules: seq<Rule>, some: seq<Rule>, n: nat, r: Rule)
    requires UniqueKeys(rules) && (forall x :: x in some ==> x in rules) && n <= |Ordered(some, false)|
    requires r !in some && (r in rules || forall x :: x in rules ==> KeyOf(x) != KeyOf(r))
    ensures Look(PutAll(m, Ordered(some, false)[..n]), KeyOf(r)) == Look(m, KeyOf(r))
  {
    OrderedMembers(some, false);
    var batch := Ordered(some, false)[..n];
    PutAllAt(m, batch, KeyOf(r));
    forall x | x in batch ensures KeyOf(x) != KeyOf(r) {
      if KeyOf(x) == KeyOf(r) { SameKeySameRule(rules, x, r); }
    }
  }

  lemma MissingIsReplaceable(rows: seq<Rule>, m: Live, attempted: seq<Rule>, r: Rule)
    requires Listing(rows, m) && UniqueKeys(attempted) && !Derivable(PayloadOf(r))
    requires Look(m, KeyOf(r)) != Some(PayloadOf(r))
    requires KeyOf(r) in m ==> Look(Table(attempted), KeyOf(r)) == Some(m[KeyOf(r)])
    ensures Replaceable(attempted, rows, r)
  {
    ShownMeansLive(rows, m, r);
    forall actual | actual in rows && SameKey(r, actual) && !DerivedParent(actual)
      ensures exists put :: put in attempted && SemanticEqual(put, actual)
    {
      assert KeyOf(actual) == KeyOf(r) && KeyOf(r) in m;
      PutAllAt(map[], attempted, KeyOf(r));
      var put :| put in attempted && KeyOf(put) == KeyOf(r) && PayloadOf(put) == m[KeyOf(r)];
      assert SemanticEqual(put, actual);
    }
  }

  lemma NotRestoredIsLive(rows: seq<Rule>, m: Live, before: seq<Rule>, attempted: seq<Rule>, r: Rule)
    requires Listing(rows, m) && UniqueKeys(before) && UniqueKeys(attempted) && Solid(before)
    requires r in before && r !in ToRestore(before, attempted, rows)
    requires KeyOf(r) in m ==>
               m[KeyOf(r)] == PayloadOf(r) || Look(Table(attempted), KeyOf(r)) == Some(m[KeyOf(r)])
    ensures Look(m, KeyOf(r)) == Some(PayloadOf(r))
  {
    if Look(m, KeyOf(r)) != Some(PayloadOf(r)) { MissingIsReplaceable(rows, m, attempted, r); }
  }

  /** Put back what is missing of the saved rules. `rows` is what it goes by. */
  method RestoreSaved(dev: Device, before: seq<Rule>, attempted: seq<Rule>, ghost e: Snap, ghost foreign: seq<Rule>)
    returns (ok: bool, ghost rows: seq<Rule>)
    requires dev.Valid() && UniqueKeys(before) && UniqueKeys(attempted)
    requires Withdrawn(e, Table(before), Table(attempted), dev.Now())
    modifies dev`live, dev`history, dev`refusals
    ensures dev.Valid() && old(dev.history) <= dev.history
    ensures RolledBack(e, Table(before), Table(attempted), dev.Now())
    ensures forall i :: old(|dev.history|) <= i < |dev.history| ==>
              RolledBack(e, Table(before), Table(attempted), dev.history[i])
    ensures dev.recoveryWorks ==> ok && AllRestored(rows, old(dev.live), before, attempted, dev.live)
    ensures dev.recoveryWorks && Solid(before) && Recoverable(e.live, Table(before), Table(attempted), foreign)
            && InOrder(e.live, old(dev.live), attempted, before) ==>
              && InOrder(e.live, dev.live, attempted, before)
              && forall i :: old(|dev.history|) <= i < |dev.history| ==>
                   InOrder(e.live, dev.history[i].live, attempted, before)
  {
    ghost var m, n0 := dev.Now(), |dev.history|;
    ghost var b, t := Table(before), Table(attempted);
    rows := [];
    var listing := dev.List(Recovery);
    if listing.Err? { return false, rows; }
    ok, rows := true, listing.value;
    var restore := Ordered(ToRestore(before, attempted, listing.value), false);
    OrderedMembers(ToRestore(before, attempted, rows), false);
    forall r | r in restore ensures Look(b, KeyOf(r)) == Some(PayloadOf(r)) {
      TableOfMember(before, r);
    }
    AllComeBack(rows, m.live, before, attempted);
    assert InOrder(e.live, m.live, attempted, before) ==> DeletedInOrder(e.live, m.live, Without(attempted, before));
    hide Withdrawn, RolledBack, InOrder, Listing, Recoverable, AllRestored, ToRestore, Ordered, PutAll;
    hide PutOneByOne, PutBack, UniqueKeys, Solid, DeletedInOrder;
    PutEach(dev, restore, b);
    PutBackIsRolledBack(rows, e, m, before, attempted, dev.Now());
    forall i | n0 <= i < |dev.history| ensures RolledBack(e, b, t, dev.history[i]) {
      PutBackIsRolledBack(rows, e, m, before, attempted, dev.history[i]);
    }
    if dev.recoveryWorks && Solid(before) && Recoverable(e.live, b, t, foreign)
       && InOrder(e.live, m.live, attempted, before) {
      RestoredStates(rows, e, m, before, attempted, foreign, n0, dev.history);
    }
  }

  /** The saved rules that were to be put back are, and nothing else changed. */
  ghost predicate AllRestored(rows: seq<Rule>, m: Live, before: seq<Rule>, attempted: seq<Rule>, s: Live) {
    && Listing(rows, m)
    && forall k :: Look(s, k) ==
         if k in KeysOf(ToRestore(before, attempted, rows)) then Look(Table(before), k) else Look(m, k)
  }

  lemma AllComeBack(rows: seq<Rule>, m: Live, before: seq<Rule>, attempted: seq<Rule>)
    requires Listing(rows, m) && UniqueKeys(before)
    ensures AllRestored(rows, m, before, attempted,
                        PutAll(m, Ordered(ToRestore(before, attempted, rows), false)))
  {
    var restore := ToRestore(before, attempted, rows);
    var batch := Ordered(restore, false);
    OrderedMembers(restore, false);
    forall k ensures Look(PutAll(m, batch), k) == if k in KeysOf(restore) then Look(Table(before), k) else Look(m, k) {
      PutAllAt(m, batch, k);
      if k in Table(batch) {
        var r :| r in batch && KeyOf(r) == k && PayloadOf(r) == Table(batch)[k];
        TableOfMember(before, r);
      }
    }
  }

  lemma PutBackIsRolledBack(rows: seq<Rule>, e: Snap, m: Snap, before: seq<Rule>, attempted: seq<Rule>, s: Snap)
    requires Listing(rows, m.live) && UniqueKeys(before) && UniqueKeys(attempted)
    requires Withdrawn(e, Table(before), Table(attempted), m)
    requires PutBack(m, Ordered(ToRestore(before, attempted, rows), false), Table(before), s)
    ensures RolledBack(e, Table(before), Table(attempted), s)
  {
    RestoredWereReplaceable(rows, m.live, before, attempted);
    OrderedMembers(ToRestore(before, attempted, rows), false);
    RollbackComposes(e, Table(before), Table(attempted), m, s, KeysOf(ToRestore(before, attempted, rows)));
  }

  lemma RestoredStates(rows: seq<Rule>, e: Snap, m: Snap, before: seq<Rule>, attempted: seq<Rule>,
                       foreign: seq<Rule>, n: nat, history: seq<Snap>)
    requires Listing(rows, m.live) && UniqueKeys(before) && UniqueKeys(attempted) && Solid(before)
    requires Recoverable(e.live, Table(before), Table(attempted), foreign)
    requires Withdrawn(e, Table(before), Table(attempted), m)
    requires DeletedInOrder(e.live, m.live, Without(attempted, before))
    requires var restore := Ordered(ToRestore(before, attempted, rows), false);
             PutOneByOne(m.live, restore, |restore|, n, history)
    ensures forall i :: n <= i < |history| ==> InOrder(e.live, history[i].live, attempted, before)
    ensures InOrder(e.live, PutAll(m.live, Ordered(ToRestore(before, attempted, rows), false)), attempted, before)
  {
    var restore := Ordered(ToRestore(before, attempted, rows), false);
    hide InOrder, Listing, Recoverable, ToRestore, Ordered, UniqueKeys, Table, Withdrawn, PutAll, DeletedInOrder, Solid;
    RestoredInOrder(rows, e, m, before, attempted, foreign, |restore|);
    assert restore[..|restore|] == restore;
    forall i | n <= i < |history| ensures InOrder(e.live, history[i].live, attempted, before) {
      RestoredInOrder(rows, e, m, before, attempted, foreign, i - n + 1);
    }
  }

  /** Best-effort recovery, judged by a final readback. Whatever state it meets,
      it deletes a new key only while that key carries the attempted payload, and
      overwrites a saved key only when it is free, derived or attempted. Where its
      calls work and nobody interfered, it keeps the order of the reverse run. */
  method Rollback(dev: Device, before: seq<Rule>, attempted: seq<Rule>, foreign: seq<Rule>) returns (o: Outcome)
    requires dev.Valid() && UniqueKeys(before) && UniqueKeys(attempted)
    modifies dev`live, dev`history, dev`refusals
    ensures dev.Valid() && old(dev.history) <= dev.history
    ensures RolledBack(old(dev.Now()), Table(before), Table(attempted), dev.Now())
    ensures forall i :: old(|dev.history|) <= i < |dev.history| ==>
              RolledBack(old(dev.Now()), Table(before), Table(attempted), dev.history[i])
    ensures o.Pass? ==> Restored(dev.live, Table(before), Table(attempted))
    ensures o.Pass? ==> ForeignThere(dev.live, foreign)
    ensures dev.recoveryWorks ==> Solid(before) ==>
              Recoverable(old(dev.live), Table(before), Table(attempted), foreign) ==>
              && o.Pass?
              && forall i :: old(|dev.history|) <= i < |dev.history| ==>
                   InOrder(old(dev.live), dev.history[i].live, attempted, before)
  {
    ghost var e := dev.Now();
    ghost var b, t := Table(before), Table(attempted);
    hide RolledBack, InOrder, Recoverable, Solid, UniqueKeys, NoneIntroduced, AllRestored, Listing, Restored;
    hide ForeignThere;
    assert forall s :: Withdrawn(e, b, t, s) ==> RolledBack(e, b, t, s);
    var ok := WithdrawIntroduced(dev, before, attempted, foreign);
    if !ok { return Fail(KernelFault); }
    ghost var m := dev.Now();
    hide Withdrawn;
    ghost var mid;
    ok, mid := RestoreSaved(dev, before, attempted, e, foreign);
    if !ok { return Fail(KernelFault); }
    var listing := dev.List(Recovery);
    if listing.Err? { return Fail(KernelFault); }
    o := VerifyResult(listing.value, before, attempted);
    if o.Pass? {
      RestoredByReadback(listing.value, dev.live, before, attempted);
      o := VerifyPresent(listing.value, Explicit(foreign));
      if o.Pass? { ForeignSeen(listing.value, dev.live, foreign); }
    }
    if dev.recoveryWorks && Recoverable(e.live, b, t, foreign) && Solid(before) {
      RecoveryPasses(e, m, dev.live, before, attempted, foreign, mid, listing.value);
    }
  }

  lemma RecoveryPasses(e: Snap, m: Snap, s: Live, before: seq<Rule>, attempted: seq<Rule>, foreign: seq<Rule>,
                       mid: seq<Rule>, last: seq<Rule>)
    requires UniqueKeys(before) && UniqueKeys(attempted) && Solid(before)
    requires Recoverable(e.live, Table(before), Table(attempted), foreign)
    requires Withdrawn(e, Table(before), Table(attempted), m)
    requires NoneIntroduced(e.live, Table(before), Table(attempted), m.live)
    requires AllRestored(mid, m.live, before, attempted, s) && Listing(last, s)
    ensures VerifyResult(last, before, attempted).Pass? && VerifyPresent(last, Explicit(foreign)).Pass?
  {
    WithdrawnKeys(e, m, Table(before), Table(attempted), foreign);
    hide Withdrawn, NoneIntroduced, Listing, Recoverable, Table, UniqueKeys, Solid, VerifyResult, VerifyPresent;
    hide Explicit;
    assert forall k :: Look(s, k) ==
             if k in KeysOf(ToRestore(before, attempted, mid)) then Look(Table(before), k) else Look(m.live, k);
    RecoverySucceeds(e.live, m.live, s, before, attempted, foreign, mid, last);
  }

  lemma WithdrawnKeys(e: Snap, m: Snap, b: Live, t: Live, foreign: seq<Rule>)
    requires Withdrawn(e, b, t, m) && NoneIntroduced(e.live, b, t, m.live) && Recoverable(e.live, b, t, foreign)
    ensures forall k :: Look(m.live, k) == Look(e.live, k) || (k in t && k !in b && k !in m.live)
    ensures forall k :: k in t && k !in b ==> k !in m.live
  {
    forall k ensures Look(m.live, k) == Look(e.live, k) || (k in t && k !in b && k !in m.live) {
      assert RollbackKey(e.live, b, t, m.live, k);
    }
    forall k | k in t && k !in b ensures k !in m.live {
      assert RollbackKey(e.live, b, t, m.live, k);
    }
  }

  /** The keys picked for deletion are new keys that carry the attempted payload,
      or nothing but a derived parent. */
  lemma IntroducedCarryAttempt(rows: seq<Rule>, live: Live, before: seq<Rule>, attempted: seq<Rule>)
    requires Listing(rows, live) && UniqueKeys(attempted)
    ensures forall k :: k in KeysOf(Introduced(before, attempted, rows)) ==>
              && k in Table(attempted) && k !in Table(before)
              && (k in live ==> live[k] == Table(attempted)[k])
    ensures forall k :: k in Table(attempted) && k !in Table(before) && k in live && live[k] == Table(attempted)[k]
              ==> k in KeysOf(Introduced(before, attempted, rows))
  {
    forall k | k in KeysOf(Introduced(before, attempted, rows))
      ensures k in Table(attempted) && k !in Table(before) && (k in live ==> live[k] == Table(attempted)[k])
    {
      var r :| r in Introduced(before, attempted, rows) && KeyOf(r) == k;
      TableOfMember(attempted, r);
      PutAllAt(map[], before, k);
      ShownMeansLive(rows, live, r);
    }
    forall k | k in Table(attempted) && k !in Table(before) && k in live && live[k] == Table(attempted)[k]
      ensures k in KeysOf(Introduced(before, attempted, rows))
    {
      PutAllAt(map[], attempted, k);
      PutAllAt(map[], before, k);
      var r :| r in attempted && KeyOf(r) == k && PayloadOf(r) == Table(attempted)[k];
      ShownMeansLive(rows, live, r);
      assert r in Introduced(before, attempted, rows);
    }
  }

  lemma RestoredWereReplaceable(rows: seq<Rule>, live: Live, before: seq<Rule>, attempted: seq<Rule>)
    requires Listing(rows, live) && UniqueKeys(before) && UniqueKeys(attempted)
    ensures forall k :: k in KeysOf(ToRestore(before, attempted, rows)) ==>
              && k in Table(before)
              && (k !in live || Derivable(live[k]) || (k in Table(attempted) && live[k] == Table(attempted)[k]))
  {
    forall k | k in KeysOf(ToRestore(before, attempted, rows))
      ensures k in Table(before)
      ensures k !in live || Derivable(live[k]) || (k in Table(attempted) && live[k] == Table(attempted)[k])
    {
      var r :| r in ToRestore(before, attempted, rows) && KeyOf(r) == k;
      TableOfMember(before, r);
      if k in live {
        var row := RowOf(rows, live, k);
        assert SameKey(r, row);
        DerivedIsDerivable(row);
        if !DerivedParent(row) {
          var n :| n in attempted && SemanticEqual(n, row);
          TableOfMember(attempted, n);
        }
      }
    }
  }

  /** Deleting introduced keys from `e` gives `m`; restoring keys gives `s`. */
  lemma RollbackComposes(e: Snap, b: Live, t: Live, m: Snap, s: Snap, restored: set<Key>)
    requires RolledBack(e, b, t, m) && s.uids == m.uids && s.mounts == m.mounts && s.disk == m.disk
    requires forall k :: Look(m.live, k) == Look(e.live, k) || k !in b
    requires forall k :: Look(s.live, k) == Look(m.live, k) || (k in restored && Look(s.live, k) == Look(b, k))
    requires forall k :: k in restored ==>
               k in b && (k !in m.live || Derivable(m.live[k]) || (k in t && m.live[k] == t[k]))
    ensures RolledBack(e, b, t, s)
  {
    forall k ensures RollbackKey(e.live, b, t, s.live, k) {
      assert RollbackKey(e.live, b, t, m.live, k);
    }
  }

  /** A passed final check means what it says. */
  lemma RestoredByReadback(rows: seq<Rule>, live: Live, before: seq<Rule>, attempted: seq<Rule>)
    requires Listing(rows, live) && UniqueKeys(before)
    requires VerifyResult(rows, before, attempted).Pass?
    ensures Restored(live, Table(before), Table(attempted))
  {
    var b, t := Table(before), Table(attempted);
    forall k | k in b ensures SolidAt(live, k) == SolidAt(b, k) {
      SavedKeysAreLive(rows, live, before, k);
    }
    forall k | k in t && k !in b ensures SolidAt(live, k) == None {
      PutAllAt(map[], attempted, k);
      PutAllAt(map[], before, k);
      var r :| r in attempted && KeyOf(r) == k;
      assert !Remains(rows, before, r);
      if k in live {
        var row := RowOf(rows, live, k);
        assert SameKey(row, r);
        DerivedIsDerivable(row);
      }
    }
  }

  /** With a working kernel and nobody else writing, the final check passes. */
  lemma RecoverySucceeds(e: Live, m: Live, s: Live, before: seq<Rule>, attempted: seq<Rule>, foreign: seq<Rule>,
                         mid: seq<Rule>, last: seq<Rule>)
    requires UniqueKeys(before) && UniqueKeys(attempted)
    requires Recoverable(e, Table(before), Table(attempted), foreign)
    requires Solid(before)
    requires Listing(mid, m) && Listing(last, s)
    requires forall k :: Look(m, k) == Look(e, k) || (k in Table(attempted) && k !in Table(before) && k !in m)
    requires forall k :: k in Table(attempted) && k !in Table(before) ==> k !in m
    requires forall k :: Look(s, k) ==
               if k in KeysOf(ToRestore(before, attempted, mid)) then Look(Table(before), k) else Look(m, k)
    ensures VerifyResult(last, before, attempted).Pass?
    ensures VerifyPresent(last, Explicit(foreign)).Pass?
  {
    var b, t := Table(before), Table(attempted);
    RestoredWereReplaceable(mid, m, before, attempted);
    forall r | r in before ensures Shown(last, r) {
      TableOfMember(before, r);
      var k := KeyOf(r);
      ShownMeansLive(mid, m, r);
      ShownMeansLive(last, s, r);
      if !Shown(mid, r) {
        forall actual | actual in mid && SameKey(r, actual)
          ensures DerivedParent(actual) || exists n :: n in attempted && SemanticEqual(n, actual)
        {
          if k in m {
            assert k in t && m[k] == t[k];
            PutAllAt(map[], attempted, k);
            var n :| n in attempted && KeyOf(n) == k && PayloadOf(n) == t[k];
            assert SemanticEqual(n, actual);
          }
        }
        assert Replaceable(attempted, mid, r);
        assert r in ToRestore(before, attempted, mid);
      }
      assert Look(s, k) == Some(PayloadOf(r));
    }
    forall r | r in attempted ensures !Remains(last, before, r) {
      TableOfMember(attempted, r);
      PutAllAt(map[], before, KeyOf(r));
      if KeyOf(r) !in b {
        assert KeyOf(r) !in s;
      } else {
        var o :| o in before && KeyOf(o) == KeyOf(r);
        assert SameKey(o, r);
      }
    }
    forall r | r in Explicit(foreign) ensures Shown(last, r) {
      ShownMeansLive(last, s, r);
    }
  }

  // --- Reconcile ----------------------------------------------------------

  datatype Recovery = CleanRollback | IncompleteRollback(reason: RuleError)

  datatype ReconcileResult =
    | Done
    | Rejected(error: RuleError)
    | Failed(cause: RuleError, recovery: Recovery)

  function Without(before: seq<Rule>, after: seq<Rule>): (out: seq<Rule>)
    ensures forall r :: r in out <==> r in before && !Owned(after, r)
    ensures UniqueKeys(before) ==> UniqueKeys(out)
  {
    if before == [] then []
    else
      var rest := Without(before[1..], after);
      assert forall r :: r in before <==> r == before[0] || r in before[1..];
      assert UniqueKeys(before) ==> UniqueKeys(before[1..]) && forall r :: r in rest ==> KeyOf(r) != KeyOf(before[0]);
      if Owned(after, before[0]) then rest else [before[0]] + rest
  }

  /** The goal of a run: every rule of `after` is live, and of `before` only
      what `after` keeps or a derived parent shows. */
  ghost predicate Reached(m: Live, b: Live, a: Live) {
    && (forall k :: k in a ==> SolidAt(m, k) == SolidAt(a, k))
    && (forall k :: k in b && k !in a ==> SolidAt(m, k) == None)
  }

  /** The order a run keeps in each of its states: new rules come after their
      parents, and obsolete ones go after their children. */
  ghost predicate InOrder(was: Live, now: Live, before: seq<Rule>, after: seq<Rule>) {
    PutInOrder(was, now, after) && DeletedInOrder(was, now, Without(before, after))
  }

  /** What every state of the forward part of a run keeps. */
  ghost predicate Forwarded(e: Snap, before: seq<Rule>, after: seq<Rule>, s: Snap) {
    Within(e, Table(before), Table(after), s) && InOrder(e.live, s.live, before, after)
  }

  /** What is so while nothing has been put. */
  ghost predicate OnlyDeleted(e: Snap, before: seq<Rule>, after: seq<Rule>, s: Snap) {
    && Within(e, Table(before), map[], s) && DeletedInOrder(e.live, s.live, Without(before, after))
    && forall k :: k !in KeysOf(Without(before, after)) ==> Look(s.live, k) == Look(e.live, k)
  }

  lemma OnlyDeletedIsForwarded(e: Snap, before: seq<Rule>, after: seq<Rule>, s: Snap)
    requires OnlyDeleted(e, before, after, s)
    ensures Forwarded(e, before, after, s)
  {
    forall k ensures KeyWithin(e.live, Table(before), Table(after), s.live, k) {
      assert KeyWithin(e.live, Table(before), map[], s.live, k);
    }
    WantedIsNotObsolete(before, after);
  }

  lemma WantedIsNotObsolete(before: seq<Rule>, after: seq<Rule>)
    ensures forall r :: r in after ==> KeyOf(r) !in KeysOf(Without(before, after))
  {
    forall r | r in after ensures KeyOf(r) !in KeysOf(Without(before, after)) {
      forall o | o in Without(before, after) ensures KeyOf(o) != KeyOf(r) {
        assert !SameKey(r, o);
      }
    }
  }

  lemma DeletedSome(e: Snap, before: seq<Rule>, after: seq<Rule>, n: nat)
    requires UniqueKeys(before) && n <= |Ordered(Without(before, after), true)|
    ensures OnlyDeleted(e, before, after, e.(live := e.live - KeysOf(Ordered(Without(before, after), true)[..n])))
  {
    OrderedMembers(Without(before, after), true);
    PrefixIsDeletedInOrder(e.live, Without(before, after), n);
    DeletedWithin(e, before, Ordered(Without(before, after), true), n);
  }

  lemma PutSome(e: Snap, before: seq<Rule>, after: seq<Rule>, m: Snap, n: nat)
    requires UniqueKeys(after) && n <= |Ordered(after, false)| && OnlyDeleted(e, before, after, m)
    ensures Forwarded(e, before, after, m.(live := PutAll(m.live, Ordered(after, false)[..n])))
  {
    var gone, batch := Without(before, after), Ordered(after, false)[..n];
    WantedIsNotObsolete(before, after);
    PrefixIsPutInOrder(e.live, m.live, after, n);
    OrderedMembers(after, false);
    PutWithin(e, Table(before), m.live, after, Ordered(after, false), n);
    forall r | r in gone ensures Look(PutAll(m.live, batch), KeyOf(r)) == Look(m.live, KeyOf(r)) {
      PutAllAt(m.live, batch, KeyOf(r));
      assert KeyOf(r) in KeysOf(gone) && forall x :: x in batch ==> x in after;
    }
  }

  /** Every state that a delete batch leaves behind, and the last one. */
  lemma DeleteStates(e: Snap, before: seq<Rule>, after: seq<Rule>, applied: nat, n: nat, history: seq<Snap>)
    requires UniqueKeys(before) && applied <= |Ordered(Without(before, after), true)| && |history| == n + applied
    requires forall i :: n <= i < |history| ==>
               history[i] == e.(live := e.live - KeysOf(Ordered(Without(before, after), true)[..i - n + 1]))
    ensures OnlyDeleted(e, before, after, e.(live := e.live - KeysOf(Ordered(Without(before, after), true)[..applied])))
    ensures forall i :: n <= i < |history| ==> OnlyDeleted(e, before, after, history[i])
  {
    hide OnlyDeleted, Ordered, KeysOf;
    DeletedSome(e, before, after, applied);
    forall i | n <= i < |history| ensures OnlyDeleted(e, before, after, history[i]) {
      DeletedSome(e, before, after, i - n + 1);
    }
  }

  /** Every state that a put batch leaves behind, and the last one. */
  lemma PutStates(e: Snap, before: seq<Rule>, after: seq<Rule>, m: Snap, applied: nat, n: nat, history: seq<Snap>)
    requires UniqueKeys(after) && applied <= |Ordered(after, false)| && OnlyDeleted(e, before, after, m)
    requires |history| == n + applied
    requires forall i :: n <= i < |history| ==>
               history[i] == m.(live := PutAll(m.live, Ordered(after, false)[..i - n + 1]))
    ensures Forwarded(e, before, after, m.(live := PutAll(m.live, Ordered(after, false)[..applied])))
    ensures forall i :: n <= i < |history| ==> Forwarded(e, before, after, history[i])
  {
    hide OnlyDeleted, Forwarded, PutAll, Ordered;
    PutSome(e, before, after, m, applied);
    forall i | n <= i < |history| ensures Forwarded(e, before, after, history[i]) {
      PutSome(e, before, after, m, i - n + 1);
    }
  }

  method DeleteObsolete(dev: Device, stage: Stage, before: seq<Rule>, obsolete: seq<Rule>, ghost after: seq<Rule>)
    returns (ok: bool)
    requires dev.Valid() && UniqueKeys(before) && obsolete == Ordered(Without(before, after), true)
    modifies dev`live, dev`history, dev`refusals
    ensures dev.Valid() && old(dev.history) <= dev.history
    ensures OnlyDeleted(old(dev.Now()), before, after, dev.Now())
    ensures forall i :: old(|dev.history|) <= i < |dev.history| ==>
              OnlyDeleted(old(dev.Now()), before, after, dev.history[i])
    ensures ok ==> dev.refusals == old(dev.refusals)
    ensures dev.Reliable(stage) ==> ok && dev.live == old(dev.live) - KeysOf(obsolete)
  {
    ghost var e := dev.Now();
    ghost var h := dev.history;
    ghost var applied;
    hide OnlyDeleted, Without, Ordered;
    ok, applied := dev.Delete(obsolete, stage);
    assert obsolete[..|obsolete|] == obsolete;
    assert dev.Now() == e.(live := e.live - KeysOf(obsolete[..applied]));
    DeleteStates(e, before, after, applied, |h|, dev.history);
  }

  method PutDesired(dev: Device, stage: Stage, ghost e: Snap, ghost before: seq<Rule>, after: seq<Rule>,
                    desired: seq<Rule>)
    returns (ok: bool)
    requires dev.Valid() && UniqueKeys(after) && desired == Ordered(after, false)
    requires OnlyDeleted(e, before, after, dev.Now())
    modifies dev`live, dev`history, dev`refusals
    ensures dev.Valid() && old(dev.history) <= dev.history
    ensures Forwarded(e, before, after, dev.Now())
    ensures forall i :: old(|dev.history|) <= i < |dev.history| ==> Forwarded(e, before, after, dev.history[i])
    ensures ok ==> dev.refusals == old(dev.refusals)
    ensures dev.Reliable(stage) ==> ok && dev.live == PutAll(old(dev.live), desired)
  {
    ghost var m := dev.Now();
    ghost var h := dev.history;
    ghost var applied;
    hide OnlyDeleted, Forwarded, Without, Ordered, PutAll;
    ok, applied := dev.Put(desired, stage);
    assert desired[..|desired|] == desired;
    assert dev.Now() == m.(live := PutAll(m.live, desired[..applied]));
    PutStates(e, before, after, m, applied, |h|, dev.history);
  }

  ghost predicate ReadBackSaw(rows: seq<Rule>, live: Live, before: seq<Rule>, after: seq<Rule>,
                              foreign: seq<Rule>, o: Outcome)
  {
    && Listing(rows, live)
    && (o.Fail? ==> VerifyResult(rows, after, before).Fail? || VerifyPresent(rows, Explicit(foreign)).Fail?)
  }

  method ReadBack(dev: Device, stage: Stage, before: seq<Rule>, after: seq<Rule>, foreign: seq<Rule>)
    returns (o: Outcome)
    requires UniqueKeys(before) && UniqueKeys(after)
    ensures o.Pass? ==> Reached(dev.live, Table(before), Table(after))
    ensures o.Pass? ==> ForeignThere(dev.live, foreign)
    ensures dev.Works(stage) ==> exists rows :: ReadBackSaw(rows, dev.live, before, after, foreign, o)
  {
    var listing := dev.List(stage);
    if listing.Err? { return Fail(KernelFault); }
    o := VerifyResult(listing.value, after, before);
    if o.Pass? {
      RestoredByReadback(listing.value, dev.live, after, before);
      o := VerifyPresent(listing.value, Explicit(foreign));
      if o.Pass? { ForeignSeen(listing.value, dev.live, foreign); }
    }
    assert ReadBackSaw(listing.value, dev.live, before, after, foreign, o);
  }

  /** The forward batches. */
  method IssueBatches(dev: Device, stage: Stage, before: seq<Rule>, after: seq<Rule>)
    returns (ok: bool, putAttempted: bool)
    requires dev.Valid() && UniqueKeys(before) && UniqueKeys(after)
    modifies dev`live, dev`history, dev`refusals
    ensures dev.Valid() && old(dev.history) <= dev.history
    ensures Forwarded(old(dev.Now()), before, after, dev.Now())
    ensures forall i :: old(|dev.history|) <= i < |dev.history| ==>
              Forwarded(old(dev.Now()), before, after, dev.history[i])
    ensures !putAttempted ==> OnlyDeleted(old(dev.Now()), before, after, dev.Now())
    ensures ok ==> dev.refusals == old(dev.refusals)
    ensures dev.Reliable(stage) ==> ok && TookEffect(old(dev.live), dev.live, before, after)
  {
    ghost var e := dev.Now();
    var obsolete := Ordered(Without(before, after), true);
    var desired := Ordered(after, false);
    putAttempted := false;
    ok := true;
    KeysOfNone();
    DeletedSome(e, before, after, 0);
    assert e.(live := e.live - KeysOf(obsolete[..0])) == e;
    hide OnlyDeleted, Forwarded, UniqueKeys, PutAll, KeysOf, Ordered, Without;
    if obsolete != [] {
      ok := DeleteObsolete(dev, stage, before, obsolete, after);
    }
    forall s | OnlyDeleted(e, before, after, s) ensures Forwarded(e, before, after, s) {
      OnlyDeletedIsForwarded(e, before, after, s);
    }
    assert dev.Reliable(stage) ==> dev.live == e.live - KeysOf(obsolete);
    if !ok { return; }
    if desired != [] {
      putAttempted := true;
      ok := PutDesired(dev, stage, e, before, after, desired);
    }
  }

  /** The outcome of both batches, if they take full effect. */
  ghost predicate TookEffect(was: Live, now: Live, before: seq<Rule>, after: seq<Rule>) {
    now == PutAll(was - KeysOf(Ordered(Without(before, after), true)), Ordered(after, false))
  }

  /** The forward batches and their readback. */
  method Apply(dev: Device, stage: Stage, before: seq<Rule>, after: seq<Rule>, foreign: seq<Rule>)
    returns (o: Outcome, putAttempted: bool)
    requires dev.Valid() && UniqueKeys(before) && UniqueKeys(after)
    modifies dev`live, dev`history, dev`refusals
    ensures dev.Valid() && old(dev.history) <= dev.history
    ensures Forwarded(old(dev.Now()), before, after, dev.Now())
    ensures forall i :: old(|dev.history|) <= i < |dev.history| ==>
              Forwarded(old(dev.Now()), before, after, dev.history[i])
    ensures !putAttempted ==> OnlyDeleted(old(dev.Now()), before, after, dev.Now())
    ensures o.Pass? ==> Reached(dev.live, Table(before), Table(after))
    ensures o.Pass? ==> ForeignThere(dev.live, foreign)
    ensures o.Pass? ==> dev.refusals == old(dev.refusals)
    ensures dev.Reliable(stage) && ForeignLive(old(dev.live), Table(before), Table(after), foreign) ==> o.Pass?
  {
    ghost var e := dev.Now();
    hide Forwarded, OnlyDeleted, Reached, ForeignLive, ReadBackSaw, UniqueKeys, TookEffect, Table, ForeignThere;
    var ok;
    ok, putAttempted := IssueBatches(dev, stage, before, after);
    if !ok { return Fail(KernelFault), putAttempted; }
    o := ReadBack(dev, stage, before, after, foreign);
    if dev.Reliable(stage) && ForeignLive(e.live, Table(before), Table(after), foreign) {
      ghost var rows :| ReadBackSaw(rows, dev.live, before, after, foreign, o);
      EffectPasses(e, dev.Now(), before, after, foreign, rows, o);
    }
  }

  lemma EffectPasses(e: Snap, s: Snap, before: seq<Rule>, after: seq<Rule>, foreign: seq<Rule>, rows: seq<Rule>,
                     o: Outcome)
    requires UniqueKeys(before) && UniqueKeys(after) && ReadBackSaw(rows, s.live, before, after, foreign, o)
    requires TookEffect(e.live, s.live, before, after)
    requires ForeignLive(e.live, Table(before), Table(after), foreign)
    ensures o.Pass?
  {
    OrderedMembers(Without(before, after), true);
    OrderedMembers(after, false);
    ForwardSucceeds(e, s, before, after, foreign, Ordered(Without(before, after), true), Ordered(after, false), rows);
  }

  /** Batches that take full effect pass the readback. */
  lemma ForwardSucceeds(e: Snap, s: Snap, before: seq<Rule>, after: seq<Rule>, foreign: seq<Rule>,
                        obsolete: seq<Rule>, desired: seq<Rule>, rows: seq<Rule>)
    requires UniqueKeys(before) && UniqueKeys(after) && Listing(rows, s.live)
    requires forall r :: r in obsolete <==> r in Without(before, after)
    requires forall r :: r in desired <==> r in after
    requires s.live == PutAll(e.live - KeysOf(obsolete), desired)
    requires ForeignLive(e.live, Table(before), Table(after), foreign)
    ensures VerifyResult(rows, after, before).Pass? && VerifyPresent(rows, Explicit(foreign)).Pass?
  {
    var m := e.live - KeysOf(obsolete);
    forall r | r in after ensures Shown(rows, r) {
      TableOfMember(after, r);
      PutAllAt(m, desired, KeyOf(r));
      var d :| d in desired && KeyOf(d) == KeyOf(r) && PayloadOf(d) == Table(desired)[KeyOf(r)];
      TableOfMember(after, d);
      ShownMeansLive(rows, s.live, r);
    }
    forall r | r in before ensures !Remains(rows, after, r) {
      var k := KeyOf(r);
      if !Owned(after, r) {
        assert r in obsolete;
        PutAllAt(m, desired, k);
        forall d | d in desired ensures KeyOf(d) != k {
          assert !SameKey(d, r);
        }
        assert k !in s.live;
      } else {
        var o :| o in after && SameKey(o, r);
      }
    }
    forall r | r in Explicit(foreign) ensures Shown(rows, r) {
      var k := KeyOf(r);
      PutAllAt(m, desired, k);
      PutAllAt(map[], after, k);
      PutAllAt(map[], before, k);
      assert KeysOf(desired) == KeysOf(after);
      forall o | o in obsolete ensures KeyOf(o) != k {
        assert o in before;
        assert KeyOf(o) in KeysOf(before);
      }
      ShownMeansLive(rows, s.live, r);
    }
  }

  lemma DeletedWithin(e: Snap, before: seq<Rule>, obsolete: seq<Rule>, n: nat)
    requires n <= |obsolete| && forall r :: r in obsolete ==> r in before
    ensures Within(e, Table(before), map[], Snap(e.live - KeysOf(obsolete[..n]), e.uids, e.mounts, e.disk))
  {
    var m := e.live - KeysOf(obsolete[..n]);
    forall k ensures KeyWithin(e.live, Table(before), map[], m, k) {
      PutAllAt(map[], before, k);
      if k in KeysOf(obsolete[..n]) {
        var r :| r in obsolete[..n] && KeyOf(r) == k;
        assert r in before;
      }
    }
  }

  lemma PutWithin(e: Snap, b: Live, m: Live, after: seq<Rule>, desired: seq<Rule>, n: nat)
    requires Within(e, b, map[], Snap(m, e.uids, e.mounts, e.disk))
    requires UniqueKeys(after) && n <= |desired| && forall r :: r in desired ==> r in after
    ensures Within(e, b, Table(after), Snap(PutAll(m, desired[..n]), e.uids, e.mounts, e.disk))
  {
    forall k ensures KeyWithin(e.live, b, Table(after), PutAll(m, desired[..n]), k) {
      PutAllAt(m, desired[..n], k);
      assert KeyWithin(e.live, b, map[], m, k);
      if k in Table(desired[..n]) {
        var r :| r in desired[..n] && KeyOf(r) == k && PayloadOf(r) == Table(desired[..n])[k];
        assert r in desired;
        TableOfMember(after, r);
      }
    }
  }

  /** Whether no listing of the live rules speaks against a run. */
  ghost predicate Admissible(live: Live, plain: bool, before: seq<Rule>, after: seq<Rule>) {
    forall rows :: Readback(rows, live, plain) ==> ValidSnapshot(rows, before, after)
  }

  /** Every state up to `turn` keeps the order of a run that started at `was`. */
  ghost predicate ThereInOrder(was: Live, history: seq<Snap>, n: nat, turn: nat, before: seq<Rule>, after: seq<Rule>)
    requires turn <= |history|
  {
    forall i :: n <= i < turn ==> InOrder(was, history[i].live, before, after)
  }

  /** Every state from `turn` on keeps the order of the reverse run from the state before it. */
  ghost predicate BackInOrder(history: seq<Snap>, turn: nat, before: seq<Rule>, after: seq<Rule>) {
    0 < turn <= |history|
    && forall i :: turn <= i < |history| ==> InOrder(history[turn - 1].live, history[i].live, after, before)
  }

  /** Reconcile rules owned by the caller without touching anything else.

      In every state on the way, keys outside `before` and `after` are as at entry
      and a key inside holds its entry value, nothing, or one of the two owned
      payloads. Success means the goal is reached. "Rollback clean" means the entry
      state is back. Whenever the recovery calls work, a failure is a clean one.
      Up to `turn`, new rules come after their parents and obsolete ones go after
      their children; from there on the same holds of the way back, if its calls work. */
  method Reconcile(dev: Device, stage: Stage, before: seq<Rule>, after: seq<Rule>)
    returns (r: ReconcileResult, ghost turn: nat)
    requires dev.Valid()
    modifies dev`live, dev`history, dev`refusals
    ensures dev.Valid() && old(dev.history) <= dev.history
    ensures r.Rejected? ==> dev.Now() == old(dev.Now()) && dev.history == old(dev.history)
    ensures Within(old(dev.Now()), Table(before), Table(after), dev.Now())
    ensures forall i :: old(|dev.history|) <= i < |dev.history| ==>
              Within(old(dev.Now()), Table(before), Table(after), dev.history[i])
    ensures r.Done? ==> Reached(dev.live, Table(before), Table(after))
    ensures r.Done? ==> dev.refusals == old(dev.refusals)
    ensures r.Rejected? && dev.Works(stage) ==> !Admissible(dev.live, dev.plainListings, before, after)
    ensures dev.Reliable(stage) ==> !r.Failed?
    ensures !r.Rejected? ==> Startable(old(dev.live), Table(before), Table(after))
    ensures !r.Rejected? ==> NothingInTheWay(old(dev.live), before, after)
    ensures r.Failed? && r.recovery.CleanRollback? ==> SolidEqual(dev.live, old(dev.live))
    ensures r.Failed? && dev.recoveryWorks && Solid(before) ==> r.recovery.CleanRollback?
    ensures old(|dev.history|) <= turn <= |dev.history| && (!r.Failed? ==> turn == |dev.history|)
    ensures ThereInOrder(old(dev.live), dev.history, old(|dev.history|), turn, before, after)
    ensures r.Failed? && dev.recoveryWorks && Solid(before) ==> BackInOrder(dev.history, turn, before, after)
  {
    ghost var e := dev.Now();
    turn := |dev.history|;
    WithinRefl(e, Table(before), Table(after));
    hide Within, InOrder, Forwarded, OnlyDeleted, Reached, Startable, ValidSnapshot, ForeignLive;
    hide Solid, SolidEqual, Listing, Admissible, Table, UniqueKeys, Foreign, PutAll, Readback, Owned, BackInOrder;
    hide NothingInTheWay;
    assert ThereInOrder(e.live, dev.history, |dev.history|, turn, before, after);
    hide ThereInOrder;
    var validation;
    ghost var rows;
    validation, rows := Validate(dev, stage, before, after);
    if validation.Invalid? { return Rejected(validation.error), turn; }
    var applied, putAttempted := Apply(dev, stage, before, after, validation.foreign);
    turn := |dev.history|;
    ghost var n, h := old(|dev.history|), dev.history;
    ForwardStates(e, before, after, n, h, dev.Now());
    if applied.Pass? { return Done, turn; }
    var recovery := UndoAttempt(dev, before, after, putAttempted, validation.foreign, e, rows);
    BothParts(e, before, after, n, h, dev.history);
    r := Failed(applied.error, if recovery.Pass? then CleanRollback else IncompleteRollback(recovery.error));
  }

  /** No other live rule is on, above or below an owned path, except for a bare
      directory above it, for every UID or for the same one. */
  ghost predicate NothingInTheWay(live: Live, before: seq<Rule>, after: seq<Rule>) {
    forall k, o :: k in live && k !in KeysOf(before) && (o in before || o in after) ==>
      && k.path != o.virtualPath && !Ancestor(o.virtualPath, k.path)
      && (Ancestor(k.path, o.virtualPath) ==>
            live[k].realPath == "" && live[k].core == 0 && (k.uid == 0 || k.uid == o.uid))
  }

  lemma ValidatedAlone(rows: seq<Rule>, live: Live, before: seq<Rule>, after: seq<Rule>)
    requires Listing(rows, live) && ValidSnapshot(rows, before, after)
    ensures NothingInTheWay(live, before, after)
  {
    forall k, o | k in live && k !in KeysOf(before) && (o in before || o in after)
      ensures k.path != o.virtualPath && !Ancestor(o.virtualPath, k.path)
      ensures Ancestor(k.path, o.virtualPath) ==>
                live[k].realPath == "" && live[k].core == 0 && (k.uid == 0 || k.uid == o.uid)
    {
      var row := RowOf(rows, live, k);
      assert o in before + after && !Owned(before, row);
      assert !Conflict(row, o);
      DerivedIsDerivable(row);
    }
  }

  /** List and validate. `rows` is what was listed. */
  method Validate(dev: Device, stage: Stage, before: seq<Rule>, after: seq<Rule>)
    returns (v: Validation, ghost rows: seq<Rule>)
    ensures v.Valid? ==>
              && Listing(rows, dev.live) && ValidSnapshot(rows, before, after) && v.foreign == Foreign(rows, before)
              && UniqueKeys(before) && UniqueKeys(after)
              && Startable(dev.live, Table(before), Table(after))
              && ForeignLive(dev.live, Table(before), Table(after), v.foreign)
              && NothingInTheWay(dev.live, before, after)
    ensures v.Invalid? && dev.Works(stage) ==> !Admissible(dev.live, dev.plainListings, before, after)
  {
    rows := [];
    var listing := dev.List(stage);
    if listing.Err? { return Invalid(KernelFault), rows; }
    rows := listing.value;
    v := ValidateSnapshot(listing.value, before, after);
    if v.Valid? {
      ghost var e := dev.Now();
      ValidatedStart(rows, e.live, before, after);
      ValidatedAlone(rows, e.live, before, after);
      ForeignUntouched(rows, e, e, before, after, after, v.foreign);
    }
  }

  /** Roll back whatever an attempt that started at `e` did. */
  method UndoAttempt(dev: Device, before: seq<Rule>, after: seq<Rule>, putAttempted: bool, foreign: seq<Rule>,
                     ghost e: Snap, ghost rows: seq<Rule>) returns (o: Outcome)
    requires dev.Valid() && Listing(rows, e.live) && ValidSnapshot(rows, before, after)
    requires foreign == Foreign(rows, before) && Startable(e.live, Table(before), Table(after))
    requires UniqueKeys(before) && UniqueKeys(after)
    requires Forwarded(e, before, after, dev.Now()) && (!putAttempted ==> OnlyDeleted(e, before, after, dev.Now()))
    modifies dev`live, dev`history, dev`refusals
    ensures dev.Valid() && old(dev.history) <= dev.history
    ensures Within(e, Table(before), Table(after), dev.Now())
    ensures forall i :: old(|dev.history|) <= i < |dev.history| ==>
              Within(e, Table(before), Table(after), dev.history[i])
    ensures o.Pass? ==> SolidEqual(dev.live, e.live)
    ensures dev.recoveryWorks && Solid(before) ==>
              o.Pass? && BackInOrder(dev.history, old(|dev.history|), before, after)
  {
    ghost var m, n := dev.Now(), |dev.history|;
    var attempted := if putAttempted then after else [];
    AttemptWithin(e, before, after, putAttempted, m);
    ForeignUntouched(rows, e, m, before, after, attempted, foreign);
    assert UniqueKeys([]);
    hide Within, InOrder, Forwarded, OnlyDeleted, Recoverable, RolledBack, Restored, Startable, ValidSnapshot;
    hide Solid, SolidEqual, Listing, Table, UniqueKeys;
    o := Rollback(dev, before, attempted, foreign);
    WayBack(e, before, after, attempted, m, n, dev.history, dev.Now());
    if o.Pass? {
      RestoredIsEntry(e, Table(before), Table(after), Table(attempted), m, dev.Now());
    }
  }

  lemma ForwardStates(e: Snap, before: seq<Rule>, after: seq<Rule>, n: nat, history: seq<Snap>, s: Snap)
    requires Forwarded(e, before, after, s)
    requires forall i :: n <= i < |history| ==> Forwarded(e, before, after, history[i])
    ensures Within(e, Table(before), Table(after), s)
    ensures forall i :: n <= i < |history| ==>
              Within(e, Table(before), Table(after), history[i]) && InOrder(e.live, history[i].live, before, after)
    ensures ThereInOrder(e.live, history, n, |history|, before, after)
  {
    hide Within, InOrder;
  }

  lemma BothParts(e: Snap, before: seq<Rule>, after: seq<Rule>, n: nat, there: seq<Snap>, all: seq<Snap>)
    requires there <= all
    requires forall i :: n <= i < |there| ==>
               Within(e, Table(before), Table(after), there[i]) && InOrder(e.live, there[i].live, before, after)
    requires forall i :: |there| <= i < |all| ==> Within(e, Table(before), Table(after), all[i])
    ensures forall i :: n <= i < |all| ==> Within(e, Table(before), Table(after), all[i])
    ensures ThereInOrder(e.live, all, n, |there|, before, after)
  {
    hide Within, InOrder;
    assert forall i :: 0 <= i < |there| ==> all[i] == there[i];
  }

  lemma AttemptWithin(e: Snap, before: seq<Rule>, after: seq<Rule>, putAttempted: bool, m: Snap)
    requires Forwarded(e, before, after, m) && (!putAttempted ==> OnlyDeleted(e, before, after, m))
    ensures Within(e, Table(before), Table(if putAttempted then after else []), m)
    ensures Within(e, Table(before), Table(after), m) && Table([]) == map[]
  {
  }

  /** Every state of the way back. */
  lemma WayBack(e: Snap, before: seq<Rule>, after: seq<Rule>, attempted: seq<Rule>, m: Snap, turn: nat,
                history: seq<Snap>, s: Snap)
    requires UniqueKeys(after) && Startable(e.live, Table(before), Table(after))
    requires (attempted == after || attempted == []) && Within(e, Table(before), Table(after), m)
    requires RolledBack(m, Table(before), Table(attempted), s)
    requires forall i :: turn <= i < |history| ==> RolledBack(m, Table(before), Table(attempted), history[i])
    ensures Within(e, Table(before), Table(after), s)
    ensures forall i :: turn <= i < |history| ==> Within(e, Table(before), Table(after), history[i])
    ensures forall i :: turn <= i < |history| && InOrder(m.live, history[i].live, attempted, before) ==>
              InOrder(m.live, history[i].live, after, before)
  {
    var b, a, t := Table(before), Table(after), Table(attempted);
    assert Table([]) == map[];
    hide Within, InOrder, RolledBack, Startable, UniqueKeys, Table;
    RollbackWithin(e, b, a, t, m, s);
    forall i | turn <= i < |history| ensures Within(e, b, a, history[i]) {
      RollbackWithin(e, b, a, t, m, history[i]);
    }
    forall i | turn <= i < |history| && InOrder(m.live, history[i].live, attempted, before)
      ensures InOrder(m.live, history[i].live, after, before)
    {
      if attempted == [] { NothingWithdrawn(m, before, after, history[i]); }
    }
  }

  lemma NothingWithdrawn(m: Snap, before: seq<Rule>, after: seq<Rule>, s: Snap)
    requires RolledBack(m, Table(before), Table([]), s) && InOrder(m.live, s.live, [], before)
    ensures InOrder(m.live, s.live, after, before)
  {
    forall r | r in Without(after, before) ensures Look(s.live, KeyOf(r)) == Look(m.live, KeyOf(r)) {
      PutAllAt(map[], before, KeyOf(r));
      assert forall x :: x in before ==> !SameKey(x, r);
      assert RollbackKey(m.live, Table(before), Table([]), s.live, KeyOf(r));
    }
  }

  lemma KeysOfNone()
    ensures forall m: Live :: m - KeysOf([]) == m && PutAll(m, []) == m
  {
  }

  lemma WithinRefl(e: Snap, b: Live, a: Live)
    ensures Within(e, b, a, e)
  {
  }

  /** What validation establishes about the live table. */
  ghost predicate Startable(e: Live, b: Live, a: Live) {
    && (forall k :: k in b ==> SolidAt(e, k) == SolidAt(b, k) && (k in e ==> e[k] == b[k]))
    && (forall k :: k in a && k !in b ==> k !in e)
  }

  lemma ValidatedStart(rows: seq<Rule>, live: Live, before: seq<Rule>, after: seq<Rule>)
    requires Listing(rows, live) && ValidSnapshot(rows, before, after)
    ensures Startable(live, Table(before), Table(after))
  {
    forall k | k in Table(before)
      ensures SolidAt(live, k) == SolidAt(Table(before), k) && (k in live ==> live[k] == Table(before)[k])
    {
      SavedKeysAreLive(rows, live, before, k);
    }
    forall k | k in Table(after) && k !in Table(before) ensures k !in live {
      AddedKeysAreFree(rows, live, before, after, k);
    }
  }

  lemma ForeignUntouched(rows: seq<Rule>, e: Snap, m: Snap, before: seq<Rule>, after: seq<Rule>,
                         attempted: seq<Rule>, foreign: seq<Rule>)
    requires Listing(rows, e.live) && ValidSnapshot(rows, before, after) && foreign == Foreign(rows, before)
    requires attempted == after || attempted == []
    requires Within(e, Table(before), Table(attempted), m)
    ensures Recoverable(m.live, Table(before), Table(attempted), foreign)
  {
    var b, t := Table(before), Table(attempted);
    ValidatedStart(rows, e.live, before, after);
    forall k ensures (k in b && k in m.live ==> m.live[k] == b[k] || (k in t && m.live[k] == t[k]))
      ensures k in t && k !in b && k in m.live ==> m.live[k] == t[k]
    {
      assert KeyWithin(e.live, b, t, m.live, k);
    }
    forall r | r in foreign && !DerivedParent(r)
      ensures KeyOf(r) !in b && KeyOf(r) !in t && Look(m.live, KeyOf(r)) == Some(PayloadOf(r))
    {
      var k := KeyOf(r);
      PutAllAt(map[], before, k);
      forall o | o in before ensures KeyOf(o) != k {
        assert !SameKey(o, r);
      }
      assert KeyWithin(e.live, b, t, m.live, k);
    }
  }

  lemma RollbackWithin(e: Snap, b: Live, a: Live, t: Live, m: Snap, s: Snap)
    requires Startable(e.live, b, a) && (t == a || t == map[])
    requires Within(e, b, a, m) && RolledBack(m, b, t, s)
    ensures Within(e, b, a, s)
  {
    forall k ensures KeyWithin(e.live, b, a, s.live, k) {
      assert KeyWithin(e.live, b, a, m.live, k) && RollbackKey(m.live, b, t, s.live, k);
    }
  }

  lemma RestoredIsEntry(e: Snap, b: Live, a: Live, t: Live, m: Snap, s: Snap)
    requires Startable(e.live, b, a) && (t == a || t == map[])
    requires Within(e, b, t, m) && RolledBack(m, b, t, s) && Restored(s.live, b, t)
    ensures SolidEqual(s.live, e.live)
  {
    forall k ensures SolidAt(s.live, k) == SolidAt(e.live, k) {
      assert KeyWithin(e.live, b, t, m.live, k) && RollbackKey(m.live, b, t, s.live, k);
    }
  }
}
