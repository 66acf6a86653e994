/// Exact mount ownership: capture, preflight and resumable cleanup
/// (src/runtime/mounts.rs).
module MountCleanup {
  import opened Devices
  import opened Ledgers
  import opened Strings
  import opened Wrappers

  // --- Paths --------------------------------------------------------------

  /** The components of a path, without the root and without empty or "." parts. */
  function Components(path: string): seq<string> {
    Split(path, "")
  }

  function Split(rest: string, current: string): seq<string>
    decreases |rest|
  {
    if rest == "" then Part(current)
    else if rest[0] == '/' then Part(current) + Split(rest[1..], "")
    else Split(rest[1..], current + [rest[0]])
  }

  function Part(name: string): seq<string> {
    if name == "" || name == "." then [] else [name]
  }

  function JoinParts(parts: seq<string>): string {
    if parts == [] then "" else if |parts| == 1 then parts[0] else parts[0] + "/" + JoinParts(parts[1..])
  }

  /** The parts that name something. */
  function Proper(parts: seq<string>): seq<string> {
    if parts == [] then []
    else (if parts[0] == "" || parts[0] == "." then [] else [parts[0]]) + Proper(parts[1..])
  }

  /** However a path is written, its components are what stands between the slashes,
      but for nothing and a single dot. */
  lemma {:induction false} ComponentsOfParts(parts: seq<string>)
    requires forall i :: 0 <= i < |parts| ==> '/' !in parts[i]
    ensures Components(JoinParts(parts)) == Proper(parts)
  {
    if parts != [] {
      SplitPart(parts[0], "", if |parts| == 1 then "" else "/" + JoinParts(parts[1..]));
      assert "" + parts[0] == parts[0];
      if |parts| == 1 {
        assert JoinParts(parts) == parts[0] + "";
        assert Proper(parts[1..]) == [];
      } else {
        var rest := JoinParts(parts[1..]);
        assert JoinParts(parts) == parts[0] + ("/" + rest) && ("/" + rest)[1..] == rest;
        ComponentsOfParts(parts[1..]);
      }
    }
  }

  lemma {:induction false} SplitPart(name: string, current: string, rest: string)
    requires '/' !in name
    ensures Split(name + rest, current) == Split(rest, current + name)
  {
    if name == "" {
      assert name + rest == rest && current + name == current;
    } else {
      assert (name + rest)[1..] == name[1..] + rest;
      SplitPart(name[1..], current + [name[0]], rest);
      assert current + [name[0]] + name[1..] == current + name;
    }
  }

  predicate IsAbsolute(path: string) {
    "/" <= path
  }

  /** Whether `path` is at or below `base`, on component boundaries. Both are absolute. */
  predicate StartsWith(path: string, base: string) {
    IsAbsolute(path) == IsAbsolute(base) && Components(base) <= Components(path)
  }

  /** `deepest_first_order` as "not greater". */
  predicate DeeperOrEqual(a: OwnedMount, b: OwnedMount) {
    var ca, cb := Components(a.target), Components(b.target);
    if |ca| != |cb| then |cb| < |ca| else ComponentsLeq(cb, ca)
  }

  function InsertMount(m: OwnedMount, s: seq<OwnedMount>): seq<OwnedMount> {
    if s == [] || DeeperOrEqual(m, s[0]) then [m] + s else [s[0]] + InsertMount(m, s[1..])
  }

  function DeepestFirst(s: seq<OwnedMount>): seq<OwnedMount> {
    if s == [] then [] else InsertMount(s[0], DeepestFirst(s[1..]))
  }

  lemma DeeperIsAnOrder(a: OwnedMount, b: OwnedMount, c: OwnedMount)
    ensures DeeperOrEqual(a, b) || DeeperOrEqual(b, a)
    ensures DeeperOrEqual(a, b) && DeeperOrEqual(b, c) ==> DeeperOrEqual(a, c)
  {
    var x, y, z := Components(a.target), Components(b.target), Components(c.target);
    ComponentsTotal(x, y);
    if ComponentsLeq(z, y) && ComponentsLeq(y, x) { ComponentsTransitive(z, y, x); }
  }

  predicate SortedByDepth(s: seq<OwnedMount>) {
    forall i, j :: 0 <= i < j < |s| ==> DeeperOrEqual(s[i], s[j])
  }

  lemma {:induction false} InsertKeepsAll(m: OwnedMount, s: seq<OwnedMount>)
    ensures multiset(InsertMount(m, s)) == multiset(s) + multiset{m}
  {
    if s != [] && !DeeperOrEqual(m, s[0]) {
      InsertKeepsAll(m, s[1..]);
      assert s == [s[0]] + s[1..];
    }
  }

  lemma {:induction false} InsertSorts(m: OwnedMount, s: seq<OwnedMount>)
    requires SortedByDepth(s)
    ensures SortedByDepth(InsertMount(m, s))
  {
    hide DeeperOrEqual, Components;
    InsertKeepsAll(m, s);
    if s == [] {
    } else if DeeperOrEqual(m, s[0]) {
      forall j | 0 <= j < |s| ensures DeeperOrEqual(m, s[j]) {
        if j > 0 { DeeperIsAnOrder(m, s[0], s[j]); }
      }
    } else {
      var rest := InsertMount(m, s[1..]);
      InsertSorts(m, s[1..]);
      InsertKeepsAll(m, s[1..]);
      DeeperIsAnOrder(m, s[0], m);
      forall j | 0 <= j < |rest| ensures DeeperOrEqual(s[0], rest[j]) {
        assert rest[j] in multiset(rest);
        assert rest[j] == m || rest[j] in s[1..];
      }
    }
  }

  /** The list is the same mounts, sorted: the first one is as deep as any, and of
      those as deep it sorts last. */
  lemma {:induction false} DeepestIsFirst(s: seq<OwnedMount>)
    ensures multiset(DeepestFirst(s)) == multiset(s) && SortedByDepth(DeepestFirst(s))
    ensures forall x :: x in DeepestFirst(s) <==> x in s
    ensures s != [] ==> DeepestFirst(s) != []
    ensures s != [] ==> forall x :: x in s ==>
              var c, d := Components(DeepestFirst(s)[0].target), Components(x.target);
              |d| < |c| || (|d| == |c| && ComponentsLeq(d, c))
  {
    DeepestSorts(s);
    var out := DeepestFirst(s);
    forall x ensures x in out <==> x in s {
      assert x in multiset(out) <==> x in multiset(s);
    }
    assert |multiset(out)| == |multiset(s)|;
    forall x | x in out ensures DeeperOrEqual(out[0], x) {
      DeeperIsAnOrder(x, x, x);
      var j :| 0 <= j < |out| && out[j] == x;
    }
    hide Components, DeepestFirst;
  }

  lemma {:induction false} DeepestSorts(s: seq<OwnedMount>)
    ensures multiset(DeepestFirst(s)) == multiset(s) && SortedByDepth(DeepestFirst(s))
  {
    hide DeeperOrEqual;
    if s != [] {
      DeepestSorts(s[1..]);
      assert s == [s[0]] + s[1..];
      InsertKeepsAll(s[0], DeepestFirst(s[1..]));
      InsertSorts(s[0], DeepestFirst(s[1..]));
    }
  }

  // --- Ownership ----------------------------------------------------------

  predicate SameIdentity(left: OwnedMount, right: OwnedMount) {
    left.id == right.id && left.target == right.target && left.device == right.device
    && left.fsType == right.fsType && left.source == right.source
  }

  function Ids(mounts: seq<OwnedMount>): set<int> {
    set m | m in mounts :: m.id
  }

  predicate UniqueIds(mounts: seq<OwnedMount>) {
    forall i, j :: 0 <= i < j < |mounts| ==> mounts[i].id != mounts[j].id
  }

  lemma SameIdSameMount(mounts: seq<OwnedMount>, a: OwnedMount, b: OwnedMount)
    requires UniqueIds(mounts) && a in mounts && b in mounts && a.id == b.id
    ensures a == b
  {
    var i :| 0 <= i < |mounts| && mounts[i] == a;
    var j :| 0 <= j < |mounts| && mounts[j] == b;
    assert i == j;
  }

  predicate SavedOk(m: OwnedMount, current: seq<OwnedMount>) {
    && IsAbsolute(m.target) && m.id > 0 && m.id !in m.baselineIds
    && forall a :: a in current && a.id == m.id ==> SameIdentity(m, a)
  }

  predicate SavedIdentityOk(owned: seq<OwnedMount>, current: seq<OwnedMount>) {
    UniqueIds(owned) && forall m :: m in owned ==> SavedOk(m, current)
  }

  /** What a cleanup asks of a record and of the live mounts: IDs are unique; a recorded
      mount is on an absolute path, has a positive ID that is not of the baseline, and
      is still the same one; what else is on its path is recorded or of the baseline,
      and what is below it while it lives is recorded. */
  ghost predicate Undisputed(owned: seq<OwnedMount>, current: seq<OwnedMount>) {
    && (forall i, j :: 0 <= i < j < |current| ==> current[i].id != current[j].id)
    && (forall i, j :: 0 <= i < j < |owned| ==> owned[i].id != owned[j].id)
    && (forall m :: m in owned ==> "/" <= m.target && m.id > 0 && m.id !in m.baselineIds)
    && (forall m, a :: m in owned && a in current && a.id == m.id ==>
          a.target == m.target && a.device == m.device && a.fsType == m.fsType && a.source == m.source)
    && (forall m, a :: m in owned && a in current && a.target == m.target && a.id !in m.baselineIds ==>
          exists o :: o in owned && o.id == a.id)
    && (forall m, a :: m in owned && a in current && Components(m.target) <= Components(a.target) ==>
          "/" <= a.target && a.target != m.target && (exists c :: c in current && c.id == m.id) ==>
          exists o :: o in owned && o.id == a.id)
  }

  lemma UndisputedPasses(owned: seq<OwnedMount>, current: seq<OwnedMount>)
    ensures Undisputed(owned, current) <==> PreflightOk(owned, current)
  {
    hide Components;
  }

  /** Nothing foreign is stacked on a recorded target. */
  predicate TargetsOk(owned: seq<OwnedMount>, current: seq<OwnedMount>) {
    forall m, a :: m in owned && a in current && a.target == m.target ==> a.id in Ids(owned) || a.id in m.baselineIds
  }

  /** Nothing foreign lies strictly below a recorded mount that is still live. */
  predicate NothingForeignBelow(owned: seq<OwnedMount>, current: seq<OwnedMount>) {
    forall m, a :: m in owned && m.id in Ids(current) && a in current && Below(a, m) ==> a.id in Ids(owned)
  }

  predicate Below(a: OwnedMount, m: OwnedMount) {
    a.target != m.target && StartsWith(a.target, m.target)
  }

  predicate PreflightOk(owned: seq<OwnedMount>, current: seq<OwnedMount>) {
    && UniqueIds(current) && SavedIdentityOk(owned, current)
    && TargetsOk(owned, current) && NothingForeignBelow(owned, current)
  }

  function LiveOwned(owned: seq<OwnedMount>, current: seq<OwnedMount>): (out: seq<OwnedMount>)
    ensures forall m :: m in out <==> m in owned && m.id in Ids(current)
  {
    if owned == [] then [] else
      var rest := LiveOwned(owned[1..], current);
      assert owned == [owned[0]] + owned[1..];
      if owned[0].id in Ids(current) then [owned[0]] + rest else rest
  }

  /** Index the live mounts by ID; a duplicate stops the preflight. */
  method IndexById(current: seq<OwnedMount>) returns (r: Option<map<int, OwnedMount>>)
    ensures r.Some? <==> UniqueIds(current)
    ensures r.Some? ==> r.value.Keys == Ids(current) && forall m :: m in current ==> r.value[m.id] == m
  {
    var byId: map<int, OwnedMount> := map[];
    for i := 0 to |current|
      invariant byId.Keys == Ids(current[..i]) && UniqueIds(current[..i])
      invariant forall m :: m in current[..i] ==> byId[m.id] == m
    {
      assert current[..i+1] == current[..i] + [current[i]];
      if current[i].id in byId {
        var m :| m in current[..i] && m.id == current[i].id;
        assert exists j :: 0 <= j < i && current[j] == m;
        return None;
      }
      NewId(current, i);
      byId := byId[current[i].id := current[i]];
    }
    assert current[..|current|] == current;
    r := Some(byId);
  }

  lemma NewId(mounts: seq<OwnedMount>, i: nat)
    requires i < |mounts| && UniqueIds(mounts[..i]) && mounts[i].id !in Ids(mounts[..i])
    ensures UniqueIds(mounts[..i+1])
  {
    forall j | 0 <= j < i ensures mounts[j].id != mounts[i].id {
      assert mounts[j] in mounts[..i];
    }
  }

  lemma IdTwice(mounts: seq<OwnedMount>, i: nat)
    requires i < |mounts| && mounts[i].id in Ids(mounts[..i])
    ensures !UniqueIds(mounts)
  {
    var m :| m in mounts[..i] && m.id == mounts[i].id;
    var j :| 0 <= j < i && mounts[j] == m;
  }

  predicate IdentityOk(m: OwnedMount, byId: map<int, OwnedMount>) {
    IsAbsolute(m.target) && m.id > 0 && m.id !in m.baselineIds && (m.id in byId ==> SameIdentity(m, byId[m.id]))
  }

  /** Check what was saved against what is live. */
  method CheckSaved(owned: seq<OwnedMount>, byId: map<int, OwnedMount>) returns (ok: bool)
    ensures ok <==> UniqueIds(owned) && forall m :: m in owned ==> IdentityOk(m, byId)
  {
    var ownedIds: set<int> := {};
    for i := 0 to |owned|
      invariant ownedIds == Ids(owned[..i]) && UniqueIds(owned[..i])
      invariant forall m :: m in owned[..i] ==> IdentityOk(m, byId)
    {
      assert owned[..i+1] == owned[..i] + [owned[i]];
      assert owned[i] in owned;
      if !IdentityOk(owned[i], byId) { return false; }
      if owned[i].id in ownedIds {
        IdTwice(owned, i);
        return false;
      }
      NewId(owned, i);
      ownedIds := ownedIds + {owned[i].id};
    }
    assert owned[..|owned|] == owned;
    ok := true;
  }

  lemma IdentityAgainst(m: OwnedMount, current: seq<OwnedMount>, byId: map<int, OwnedMount>)
    requires byId.Keys == Ids(current) && forall a :: a in current ==> byId[a.id] == a
    ensures IdentityOk(m, byId) <==> SavedOk(m, current)
  {
    if m.id in byId {
      var a :| a in current && a.id == m.id;
      assert byId[m.id] == a;
    }
  }

  /** Validate every recorded target before any detach. */
  method Preflight(owned: seq<OwnedMount>, current: seq<OwnedMount>) returns (r: Option<seq<OwnedMount>>)
    ensures r.Some? <==> PreflightOk(owned, current)
    ensures r.Some? ==> r.value == DeepestFirst(LiveOwned(owned, current))
  {
    var byId := IndexById(current);
    if byId.None? { return None; }
    var saved := CheckSaved(owned, byId.value);
    forall m ensures IdentityOk(m, byId.value) <==> SavedOk(m, current) {
      IdentityAgainst(m, current, byId.value);
    }
    if !saved || !TargetsOk(owned, current) || !NothingForeignBelow(owned, current) { return None; }
    r := Some(DeepestFirst(LiveOwned(owned, current)));
  }

  // --- Capture ------------------------------------------------------------

  function BaselineIdsAt(baseline: seq<OwnedMount>, target: string): (out: seq<int>)
    ensures forall id :: id in out <==> exists b :: b in baseline && b.target == target && b.id == id
  {
    if baseline == [] then [] else
      var rest := BaselineIdsAt(baseline[1..], target);
      assert baseline == [baseline[0]] + baseline[1..];
      if baseline[0].target == target then [baseline[0].id] + rest else rest
  }

  predicate New(baseline: seq<OwnedMount>, entry: OwnedMount) {
    entry.id !in Ids(baseline)
  }

  /** The new mounts at recorded targets, each with the baseline below it. */
  ghost predicate Captures(targets: seq<string>, baseline: seq<OwnedMount>, current: seq<OwnedMount>,
                           captured: seq<OwnedMount>)
  {
    && (forall m :: m in captured ==>
          exists entry :: entry in current && CapturedFrom(targets, baseline, entry, m))
    && (forall entry :: entry in current && entry.target in targets && New(baseline, entry) ==>
          exists m :: m in captured && CapturedFrom(targets, baseline, entry, m))
  }

  predicate CapturedFrom(targets: seq<string>, baseline: seq<OwnedMount>, entry: OwnedMount, m: OwnedMount) {
    && entry.target in targets && New(baseline, entry)
    && m == entry.(baselineIds := BaselineIdsAt(baseline, entry.target))
  }

  /** The recorded baseline entry with the ID of `entry`. */
  function FirstWithId(baseline: seq<OwnedMount>, id: int): (r: OwnedMount)
    requires id in Ids(baseline)
    ensures r in baseline && r.id == id
  {
    assert baseline == [baseline[0]] + baseline[1..];
    if baseline[0].id == id then baseline[0] else FirstWithId(baseline[1..], id)
  }

  predicate Unchanged(baseline: seq<OwnedMount>, targets: seq<string>, e: OwnedMount) {
    e.target in targets && !New(baseline, e) ==> SameIdentity(FirstWithId(baseline, e.id), e)
  }

  method CaptureSnapshot(targets: seq<string>, baseline: seq<OwnedMount>, current: seq<OwnedMount>)
    returns (r: Option<seq<OwnedMount>>)
    ensures r.Some? ==> Captures(targets, baseline, current, r.value)
    ensures r.Some? && UniqueIds(current) ==> UniqueIds(r.value)
    ensures r.Some? <==> forall e :: e in current ==> Unchanged(baseline, targets, e)
  {
    var captured: seq<OwnedMount> := [];
    ghost var seen: seq<OwnedMount> := [];
    assert Captures(targets, baseline, seen, captured);
    hide Captures, CapturedFrom, UniqueIds, SameIdentity, FirstWithId, BaselineIdsAt;
    for i := 0 to |current|
      invariant seen == current[..i] && Captures(targets, baseline, seen, captured)
      invariant UniqueIds(seen) ==> UniqueIds(captured)
      invariant forall e :: e in seen ==> Unchanged(baseline, targets, e)
    {
      var entry := current[i];
      assert current[..i+1] == seen + [entry];
      if !Unchanged(baseline, targets, entry) {
        assert entry in current;
        return None;
      }
      if entry.target in targets && New(baseline, entry) {
        var owned := entry.(baselineIds := BaselineIdsAt(baseline, entry.target));
        CapturedOne(targets, baseline, entry, owned);
        CaptureOne(targets, baseline, seen, captured, entry, owned);
        CaptureUnique(targets, baseline, seen, captured, entry, owned);
        captured := captured + [owned];
      } else {
        CaptureNone(targets, baseline, seen, captured, entry);
      }
      seen := seen + [entry];
    }
    assert current[..|current|] == current;
    r := Some(captured);
  }

  /** On a baseline whose IDs are unique, a capture is what the runtime's view of it
      says of the two sets of mounts: it fails for the same reason, and keeps the
      same mounts. */
  lemma CaptureInSets(targets: seq<string>, baseline: seq<OwnedMount>, current: seq<OwnedMount>, r: seq<OwnedMount>)
    requires UniqueIds(baseline)
    ensures (forall e :: e in current ==> Unchanged(baseline, targets, e)) <==>
            IdentitiesKept(MountsOf(baseline), MountsOf(current), targets)
    ensures Captures(targets, baseline, current, r) && IdentitiesKept(MountsOf(baseline), MountsOf(current), targets)
            ==> MountsOf(r) == NewAt(MountsOf(current), MountsOf(baseline), targets)
  {
    UnchangedInSets(targets, baseline, current);
    if Captures(targets, baseline, current, r) && IdentitiesKept(MountsOf(baseline), MountsOf(current), targets) {
      hide BaselineIdsAt, Unchanged, IdentitiesKept, SameIdentity, UniqueIds;
      forall e | e in current && e.target in targets
        ensures New(baseline, e) <==> IdentityOf(e) !in MountsOf(baseline)
      {
        NewInSets(targets, baseline, current, e);
      }
      forall x ensures x in MountsOf(r) <==> x in NewAt(MountsOf(current), MountsOf(baseline), targets) {
        if x in MountsOf(r) {
          var m :| m in r && IdentityOf(m) == x;
          var e :| e in current && CapturedFrom(targets, baseline, e, m);
          assert IdentityOf(e) == x;
        }
        if x in NewAt(MountsOf(current), MountsOf(baseline), targets) {
          var e :| e in current && IdentityOf(e) == x;
          var m :| m in r && CapturedFrom(targets, baseline, e, m);
          assert IdentityOf(m) == x;
        }
      }
    }
  }

  lemma NewInSets(targets: seq<string>, baseline: seq<OwnedMount>, current: seq<OwnedMount>, e: OwnedMount)
    requires e in current && e.target in targets
    requires IdentitiesKept(MountsOf(baseline), MountsOf(current), targets)
    ensures New(baseline, e) <==> IdentityOf(e) !in MountsOf(baseline)
  {
    if !New(baseline, e) {
      var o :| o in baseline && o.id == e.id;
      assert IdentityOf(o) in MountsOf(baseline) && IdentityOf(e) in MountsOf(current);
    }
  }

  lemma UnchangedInSets(targets: seq<string>, baseline: seq<OwnedMount>, current: seq<OwnedMount>)
    requires UniqueIds(baseline)
    ensures (forall e :: e in current ==> Unchanged(baseline, targets, e)) <==>
            IdentitiesKept(MountsOf(baseline), MountsOf(current), targets)
  {
    if forall e :: e in current ==> Unchanged(baseline, targets, e) {
      forall o, m | o in MountsOf(baseline) && m in MountsOf(current) && m.target in targets && o.id == m.id
        ensures o == m
      {
        var b :| b in baseline && IdentityOf(b) == o;
        var e :| e in current && IdentityOf(e) == m;
        SameIdSameMount(baseline, b, FirstWithId(baseline, e.id));
      }
    }
    if IdentitiesKept(MountsOf(baseline), MountsOf(current), targets) {
      forall e | e in current ensures Unchanged(baseline, targets, e) {
        if e.target in targets && !New(baseline, e) {
          assert IdentityOf(FirstWithId(baseline, e.id)) in MountsOf(baseline);
          assert IdentityOf(e) in MountsOf(current);
        }
      }
    }
  }

  lemma CapturedOne(targets: seq<string>, baseline: seq<OwnedMount>, entry: OwnedMount, owned: OwnedMount)
    requires entry.target in targets && New(baseline, entry)
    requires owned == entry.(baselineIds := BaselineIdsAt(baseline, entry.target))
    ensures CapturedFrom(targets, baseline, entry, owned)
  {
  }

  lemma CaptureNone(targets: seq<string>, baseline: seq<OwnedMount>, seen: seq<OwnedMount>, captured: seq<OwnedMount>,
                    entry: OwnedMount)
    requires Captures(targets, baseline, seen, captured) && !(entry.target in targets && New(baseline, entry))
    ensures Captures(targets, baseline, seen + [entry], captured)
    ensures UniqueIds(seen + [entry]) ==> UniqueIds(seen)
  {
    var all := seen + [entry];
    hide CapturedFrom;
    forall m | m in captured ensures exists e :: e in all && CapturedFrom(targets, baseline, e, m) {
      var e :| e in seen && CapturedFrom(targets, baseline, e, m);
      assert e in all;
    }
    FewerUnique(seen, entry);
  }

  lemma FewerUnique(seen: seq<OwnedMount>, entry: OwnedMount)
    ensures UniqueIds(seen + [entry]) ==> UniqueIds(seen)
  {
    var all := seen + [entry];
    assert forall i :: 0 <= i < |seen| ==> all[i] == seen[i];
  }

  lemma CaptureOne(targets: seq<string>, baseline: seq<OwnedMount>, seen: seq<OwnedMount>, captured: seq<OwnedMount>,
                   entry: OwnedMount, owned: OwnedMount)
    requires Captures(targets, baseline, seen, captured) && CapturedFrom(targets, baseline, entry, owned)
    ensures Captures(targets, baseline, seen + [entry], captured + [owned])
  {
    var all, out := seen + [entry], captured + [owned];
    assert entry in all && owned in out;
    hide CapturedFrom;
    forall m | m in out ensures exists e :: e in all && CapturedFrom(targets, baseline, e, m) {
      if m in captured {
        var e :| e in seen && CapturedFrom(targets, baseline, e, m);
        assert e in all;
      }
    }
    forall e | e in all && e.target in targets && New(baseline, e)
      ensures exists m :: m in out && CapturedFrom(targets, baseline, e, m)
    {
      if e in seen {
        var m :| m in captured && CapturedFrom(targets, baseline, e, m);
        assert m in out;
      }
    }
  }

  lemma CaptureUnique(targets: seq<string>, baseline: seq<OwnedMount>, seen: seq<OwnedMount>, captured: seq<OwnedMount>,
                      entry: OwnedMount, owned: OwnedMount)
    requires Captures(targets, baseline, seen, captured) && CapturedFrom(targets, baseline, entry, owned)
    requires UniqueIds(seen) ==> UniqueIds(captured)
    ensures UniqueIds(seen + [entry]) ==> UniqueIds(captured + [owned])
  {
    var all := seen + [entry];
    if UniqueIds(all) {
      FewerUnique(seen, entry);
      forall j | 0 <= j < |captured| ensures captured[j].id != owned.id {
        assert captured[j] in captured;
        var e :| e in seen && CapturedFrom(targets, baseline, e, captured[j]);
        var k :| 0 <= k < |seen| && seen[k] == e;
        assert all[k] == e && all[|seen|] == entry;
      }
    }
  }

  /** A snapshot the kernel can show, whose recorded part has not changed. */
  ghost predicate Capturable(targets: seq<string>, baseline: seq<OwnedMount>, current: seq<OwnedMount>) {
    && UniqueIds(current) && (forall m :: m in current ==> m.id > 0 && IsAbsolute(m.target))
    && (forall e :: e in current ==> Unchanged(baseline, targets, e))
  }

  lemma OneCapturedIdentityOk(targets: seq<string>, baseline: seq<OwnedMount>, current: seq<OwnedMount>,
                              entry: OwnedMount, m: OwnedMount)
    requires Capturable(targets, baseline, current)
    requires entry in current && CapturedFrom(targets, baseline, entry, m)
    ensures IsAbsolute(m.target) && m.id > 0 && m.id in Ids(current)
    ensures m.id !in m.baselineIds
    ensures forall a :: a in current && a.id == m.id ==> SameIdentity(m, a)
  {
    forall b | b in baseline ensures b.id != m.id {
      assert b.id in Ids(baseline);
    }
    forall a | a in current && a.id == m.id ensures SameIdentity(m, a) {
      SameIdSameMount(current, a, entry);
    }
  }

  lemma CapturedIdentityOk(targets: seq<string>, baseline: seq<OwnedMount>, current: seq<OwnedMount>,
                           captured: seq<OwnedMount>)
    requires Capturable(targets, baseline, current)
    requires Captures(targets, baseline, current, captured) && UniqueIds(captured)
    ensures SavedIdentityOk(captured, current)
    ensures forall m :: m in captured ==> m.id in Ids(current)
  {
    forall m | m in captured
      ensures IsAbsolute(m.target) && m.id > 0 && m.id !in m.baselineIds && m.id in Ids(current)
      ensures forall a :: a in current && a.id == m.id ==> SameIdentity(m, a)
    {
      var entry :| entry in current && CapturedFrom(targets, baseline, entry, m);
      hide *;
      OneCapturedIdentityOk(targets, baseline, current, entry, m);
    }
  }

  lemma CapturedTargetOk(targets: seq<string>, baseline: seq<OwnedMount>, current: seq<OwnedMount>,
                         captured: seq<OwnedMount>, m: OwnedMount, a: OwnedMount)
    requires Capturable(targets, baseline, current) && Captures(targets, baseline, current, captured)
    requires m in captured && a in current && a.target == m.target
    ensures a.id in Ids(captured) || a.id in m.baselineIds
  {
    var entry :| entry in current && CapturedFrom(targets, baseline, entry, m);
    hide Captures, UniqueIds, IsAbsolute;
    if New(baseline, a) {
      var c := CaptureOf(targets, baseline, current, captured, a);
      assert c.id in Ids(captured);
    } else {
      assert Unchanged(baseline, targets, a);
      var f := FirstWithId(baseline, a.id);
      assert f.target == m.target;
    }
  }

  lemma CaptureOf(targets: seq<string>, baseline: seq<OwnedMount>, current: seq<OwnedMount>,
                  captured: seq<OwnedMount>, a: OwnedMount) returns (c: OwnedMount)
    requires Captures(targets, baseline, current, captured)
    requires a in current && a.target in targets && New(baseline, a)
    ensures c in captured && CapturedFrom(targets, baseline, a, c)
  {
    c :| c in captured && CapturedFrom(targets, baseline, a, c);
  }

  lemma CapturedTargetsOk(targets: seq<string>, baseline: seq<OwnedMount>, current: seq<OwnedMount>,
                          captured: seq<OwnedMount>)
    requires Capturable(targets, baseline, current)
    requires Captures(targets, baseline, current, captured)
    ensures TargetsOk(captured, current)
  {
    hide Capturable, Captures;
    forall m, a | m in captured && a in current && a.target == m.target
      ensures a.id in Ids(captured) || a.id in m.baselineIds
    {
      CapturedTargetOk(targets, baseline, current, captured, m, a);
    }
  }

  /** What was captured passes preflight on the very same snapshot exactly when
      nothing foreign lies strictly below a captured mount. */
  lemma CapturePassesPreflight(targets: seq<string>, baseline: seq<OwnedMount>, current: seq<OwnedMount>,
                               captured: seq<OwnedMount>)
    requires Capturable(targets, baseline, current)
    requires Captures(targets, baseline, current, captured) && UniqueIds(captured)
    ensures PreflightOk(captured, current) <==>
              forall m, a :: m in captured && a in current && Below(a, m) ==> a.id in Ids(captured)
  {
    CapturedIdentityOk(targets, baseline, current, captured);
    CapturedTargetsOk(targets, baseline, current, captured);
  }

  /** Removing mounts keeps a passed preflight passed. */
  lemma FewerMountsStillPass(owned: seq<OwnedMount>, current: seq<OwnedMount>, fewer: seq<OwnedMount>)
    requires PreflightOk(owned, current) && UniqueIds(fewer)
    requires forall m :: m in fewer ==> m in current
    ensures PreflightOk(owned, fewer)
  {
    assert Ids(fewer) <= Ids(current);
  }

  // --- Cleanup ------------------------------------------------------------

  /** What is left of a mount table once the mounts `gone` are detached. */
  function Keep(live: seq<OwnedMount>, gone: set<int>): seq<OwnedMount> {
    if live == [] then []
    else if live[0].id in gone then Keep(live[1..], gone)
    else [live[0]] + Keep(live[1..], gone)
  }

  /** The mount a path shows: the newest one on it. */
  function Top(live: seq<OwnedMount>, target: string): Option<OwnedMount> {
    if live == [] then None
    else if Top(live[1..], target).Some? then Top(live[1..], target)
    else if live[0].target == target then Some(live[0]) else None
  }

  /** On every path the owned mounts are stacked above all others. */
  predicate OwnedOnTop(live: seq<OwnedMount>, owned: set<int>) {
    live == []
    || (OwnedOnTop(live[1..], owned)
        && (live[0].id in owned ==> forall m :: m in live[1..] && m.target == live[0].target ==> m.id in owned))
  }

  predicate Before(live: seq<OwnedMount>, m: OwnedMount, u: OwnedMount) {
    live != [] && ((live[0] == m && u in live[1..]) || Before(live[1..], m, u))
  }

  /** An owned mount covered by a mount that is not. */
  predicate Buries(live: seq<OwnedMount>, owned: set<int>, m: OwnedMount, u: OwnedMount) {
    Before(live, m, u) && m.target == u.target && m.id in owned && u.id !in owned
  }

  lemma UniqueIdsFrom(first: OwnedMount, rest: seq<OwnedMount>)
    ensures UniqueIds([first] + rest) <==> UniqueIds(rest) && forall m :: m in rest ==> m.id != first.id
  {
    var all := [first] + rest;
    assert all[1..] == rest && forall i :: 0 <= i < |rest| ==> all[i + 1] == rest[i];
    if UniqueIds(all) {
      forall m | m in rest ensures m.id != first.id {
        var i :| 0 <= i < |rest| && rest[i] == m;
        assert all[i + 1].id != all[0].id;
      }
      forall i, j | 0 <= i < j < |rest| ensures rest[i].id != rest[j].id {
        assert all[i + 1].id != all[j + 1].id;
      }
    }
  }

  lemma {:induction false} KeepMembers(live: seq<OwnedMount>, gone: set<int>)
    ensures forall m :: m in Keep(live, gone) <==> m in live && m.id !in gone
    ensures UniqueIds(live) ==> UniqueIds(Keep(live, gone))
    ensures |Keep(live, gone)| <= |live|
    ensures (exists m :: m in live && m.id in gone) ==> |Keep(live, gone)| < |live|
  {
    hide UniqueIds;
    if live == [] {
      assert Keep(live, gone) == live;
    } else {
      KeepMembers(live[1..], gone);
      assert live == [live[0]] + live[1..];
      UniqueIdsFrom(live[0], live[1..]);
      UniqueIdsFrom(live[0], Keep(live[1..], gone));
    }
  }

  lemma {:induction false} KeepTwice(live: seq<OwnedMount>, a: set<int>, b: set<int>)
    ensures Keep(Keep(live, a), b) == Keep(live, a + b)
  {
    if live != [] { KeepTwice(live[1..], a, b); }
  }

  lemma {:induction false} KeepAll(live: seq<OwnedMount>, a: set<int>, b: set<int>)
    requires forall m :: m in live ==> (m.id in a <==> m.id in b)
    ensures Keep(live, a) == Keep(live, b)
  {
    if live != [] {
      assert live == [live[0]] + live[1..];
      KeepAll(live[1..], a, b);
    }
  }

  lemma {:induction false} TopIsThere(live: seq<OwnedMount>, target: string)
    ensures Top(live, target).Some? ==> Top(live, target).value in live && Top(live, target).value.target == target
    ensures Top(live, target).Some? <==> exists m :: m in live && m.target == target
  {
    if live != [] {
      TopIsThere(live[1..], target);
      assert live == [live[0]] + live[1..];
    }
  }

  lemma {:induction false} OwnedTop(live: seq<OwnedMount>, owned: set<int>, m: OwnedMount)
    requires OwnedOnTop(live, owned) && m in live && m.id in owned
    ensures Top(live, m.target).Some? && Top(live, m.target).value.id in owned
  {
    assert live == [live[0]] + live[1..];
    TopIsThere(live[1..], m.target);
    if m in live[1..] { OwnedTop(live[1..], owned, m); }
  }

  lemma {:induction false} StillOnTop(live: seq<OwnedMount>, owned: set<int>, gone: set<int>)
    requires OwnedOnTop(live, owned)
    ensures OwnedOnTop(Keep(live, gone), owned)
  {
    if live != [] {
      StillOnTop(live[1..], owned, gone);
      KeepMembers(live[1..], gone);
      assert live[0].id !in gone ==> Keep(live, gone)[1..] == Keep(live[1..], gone);
    }
  }

  lemma {:induction false} SomethingBuried(live: seq<OwnedMount>, owned: set<int>)
    returns (m: OwnedMount, u: OwnedMount)
    requires !OwnedOnTop(live, owned)
    ensures Buries(live, owned, m, u) && m in live && u in live
  {
    assert live == [live[0]] + live[1..];
    if !OwnedOnTop(live[1..], owned) {
      m, u := SomethingBuried(live[1..], owned);
    } else {
      m := live[0];
      u :| u in live[1..] && u.target == m.target && u.id !in owned;
    }
  }

  lemma {:induction false} BuriedIsNotTop(live: seq<OwnedMount>, m: OwnedMount, u: OwnedMount)
    requires UniqueIds(live) && Before(live, m, u) && m.target == u.target
    ensures m in live && u in live
    ensures Top(live, m.target) != Some(m)
  {
    assert live == [live[0]] + live[1..];
    if live[0] == m && u in live[1..] {
      TopIsThere(live[1..], m.target);
    } else {
      BuriedIsNotTop(live[1..], m, u);
      TopIsThere(live[1..], m.target);
    }
  }

  lemma {:induction false} BeforeSurvives(live: seq<OwnedMount>, gone: set<int>, m: OwnedMount, u: OwnedMount)
    requires Before(live, m, u) && m.id !in gone && u.id !in gone
    ensures Before(Keep(live, gone), m, u)
  {
    KeepMembers(live[1..], gone);
    assert live[0].id !in gone ==> Keep(live, gone)[1..] == Keep(live[1..], gone);
    if !(live[0] == m && u in live[1..]) { BeforeSurvives(live[1..], gone, m, u); }
  }

  /** The kernel writes every mount point in one way only. */
  predicate Canonical(live: seq<OwnedMount>) {
    forall a, b :: a in live && b in live && Components(a.target) == Components(b.target) ==> a.target == b.target
  }

  /** The mount table, oldest mount first. */
  class MountTable {
    var live: seq<OwnedMount>
    /** Whether every call succeeds and says so. */
    var works: bool
    /** How many detaches have reported a failure. */
    ghost var refusals: nat
    /** The paths that were to be detached, in order. */
    ghost var asked: seq<string>

    ghost predicate Valid() reads this`live { UniqueIds(live) && Canonical(live) }

    constructor (live: seq<OwnedMount>)
      requires UniqueIds(live) && Canonical(live)
      ensures Valid() && this.live == live
    {
      this.live := live;
      works := false;
      refusals, asked := 0, [];
    }

    /** Read the table, in an order that says nothing about stacking. */
    method List() returns (r: Option<seq<OwnedMount>>)
      requires Valid()
      ensures r.Some? ==> UniqueIds(r.value) && forall m :: m in r.value <==> m in live
      ensures works ==> r.Some?
    {
      var fails: bool := *;
      if fails && !works { return None; }
      var rows: seq<OwnedMount> := [];
      for i := 0 to |live|
        invariant forall m :: m in rows <==> m in live[..i]
        invariant UniqueIds(rows)
      {
        assert live[..i+1] == live[..i] + [live[i]];
        forall m | m in rows ensures m.id != live[i].id {
          var j :| 0 <= j < i && live[j] == m;
        }
        var front: bool := *;
        rows := if front then [live[i]] + rows else rows + [live[i]];
      }
      assert live[..|live|] == live;
      r := Some(rows);
    }

    method VisibleId(target: string) returns (r: Option<int>)
      ensures r.Some? ==> Top(live, target).Some? && r.value == Top(live, target).value.id
      ensures works && Top(live, target).Some? ==> r.Some?
    {
      var fails: bool := *;
      if (fails && !works) || Top(live, target).None? { return None; }
      r := Some(Top(live, target).value.id);
    }

    /** Detach what `target` shows. The kernel may take any mounts strictly below
        along with it, may do nothing, and may report anything. */
    method Detach(target: string) returns (ok: bool, ghost gone: set<int>)
      requires Valid() && Top(live, target).Some?
      modifies this`live, this`refusals, this`asked
      ensures asked == old(asked) + [target]
      ensures Valid() && live == Keep(old(live), gone)
      ensures refusals == old(refusals) + (if ok then 0 else 1)
      ensures forall m :: m in old(live) && m.id in gone ==>
                Top(old(live), target) == Some(m) || (m.target != target && StartsWith(m.target, target))
      ensures works ==> ok && Top(old(live), target).value.id in gone
    {
      var acts: bool := *;
      ok := *;
      gone := {};
      if acts || works {
        var top := Top(live, target).value;
        TopIsThere(live, target);
        var below: set<int> := *;
        var taken := {top.id} + set m | m in live && m.target != target && StartsWith(m.target, target)
                     && m.id in below :: m.id;
        forall m | m in live && m.id in taken
          ensures m == top || (m.target != target && StartsWith(m.target, target))
        {
          if m.id == top.id {
            SameIdSameMount(live, m, top);
          } else {
            var o :| o in live && o.target != target && StartsWith(o.target, target) && o.id == m.id;
            SameIdSameMount(live, m, o);
          }
        }
        KeepMembers(live, taken);
        live := Keep(live, taken);
        gone := taken;
      } else {
        KeepNone(live);
      }
      if works { ok := true; }
      refusals := refusals + (if ok then 0 else 1);
      asked := asked + [target];
    }
  }

  lemma {:induction false} KeepNone(live: seq<OwnedMount>)
    ensures Keep(live, {}) == live
  {
    if live != [] { KeepNone(live[1..]); }
  }

  /** Every path of an active mount shows an active mount. */
  predicate VisibleOk(active: seq<OwnedMount>, live: seq<OwnedMount>) {
    forall m :: m in active ==> TargetShown(active, live, m.target)
  }

  predicate TargetShown(active: seq<OwnedMount>, live: seq<OwnedMount>, target: string) {
    Top(live, target).Some? && IsActive(active, target, Top(live, target).value.id)
  }

  predicate IsActive(active: seq<OwnedMount>, target: string, id: int) {
    exists m :: m in active && m.target == target && m.id == id
  }

  method VerifyVisible(table: MountTable, active: seq<OwnedMount>) returns (ok: bool)
    requires table.Valid()
    ensures ok ==> VisibleOk(active, table.live)
    ensures table.works && VisibleOk(active, table.live) ==> ok
  {
    var targets := set m | m in active :: m.target;
    ghost var seen: set<string> := {};
    while targets != {}
      invariant forall m :: m in active ==> m.target in targets || m.target in seen
      invariant forall t :: t in targets ==> exists m :: m in active && m.target == t
      invariant forall t :: t in seen ==> TargetShown(active, table.live, t)
      decreases targets
    {
      var target :| target in targets;
      var visible := table.VisibleId(target);
      ok := visible.Some? && IsActive(active, target, visible.value);
      if !ok { return; }
      targets, seen := targets - {target}, seen + {target};
    }
    ok := true;
  }

  /** Detach one owned mount and read back that it is gone. */
  method DetachNext(table: MountTable, owned: seq<OwnedMount>, active: seq<OwnedMount>)
    returns (ok: bool, ghost gone: set<int>)
    requires table.Valid() && PreflightOk(owned, table.live) && active != []
    requires forall m :: m in active <==> m in owned && m.id in Ids(table.live)
    requires forall m :: m in active ==> |Components(m.target)| <= |Components(active[0].target)|
    modifies table`live, table`refusals, table`asked
    ensures table.Valid() && table.live == Keep(old(table.live), gone)
    ensures GoneIsSafe(owned, old(table.live), gone)
    ensures ok ==> exists m :: m in old(table.live) && m.id in gone
    ensures table.asked == old(table.asked) || table.asked == old(table.asked) + [active[0].target]
    ensures ok ==> table.refusals == old(table.refusals)
    ensures table.works && VisibleOk(active, old(table.live)) ==> ok
  {
    ghost var before := table.live;
    gone := {};
    KeepNone(before);
    var target := active[0].target;
    var visible := table.VisibleId(target);
    ok := visible.Some? && IsActive(active, target, visible.value);
    assert active[0] in active;
    if !ok { return; }
    ok, gone := table.Detach(target);
    OnlyOwnedGo(owned, before, active, target, gone);
    if !ok { return; }
    var rows := table.List();
    ok := rows.Some? && visible.value !in Ids(rows.value);
    KeepMembers(before, gone);
    TopIsThere(before, target);
    if ok {
      var top := Top(before, target).value;
      assert top in before && top.id in gone;
    }
  }

  /** Only owned mounts go, and never one that lies under a mount that is not owned. */
  ghost predicate GoneIsSafe(owned: seq<OwnedMount>, live: seq<OwnedMount>, gone: set<int>) {
    && (forall m :: m in live && m.id in gone ==> m.id in Ids(owned))
    && (forall m, u :: Buries(live, Ids(owned), m, u) ==> m.id !in gone)
  }

  lemma OnlyOwnedGo(owned: seq<OwnedMount>, live: seq<OwnedMount>, active: seq<OwnedMount>, target: string,
                    gone: set<int>)
    requires PreflightOk(owned, live) && Canonical(live)
    requires forall m :: m in active <==> m in owned && m.id in Ids(live)
    requires active != [] && active[0].target == target
    requires forall m :: m in active ==> |Components(m.target)| <= |Components(target)|
    requires Top(live, target).Some? && IsActive(active, target, Top(live, target).value.id)
    requires forall m :: m in live && m.id in gone ==>
               Top(live, target) == Some(m) || (m.target != target && StartsWith(m.target, target))
    ensures GoneIsSafe(owned, live, gone)
  {
    var first := active[0];
    assert first in active;
    forall m | m in live && m.id in gone ensures m.id in Ids(owned) {
      if Top(live, target) != Some(m) { assert Below(m, first); }
    }
    forall m, u | Buries(live, Ids(owned), m, u) ensures m.id !in gone {
      BuriedStays(owned, live, active, target, gone, m, u);
    }
  }

  /** A covered owned mount is neither what the deepest path shows nor below it. */
  lemma BuriedStays(owned: seq<OwnedMount>, live: seq<OwnedMount>, active: seq<OwnedMount>, target: string,
                    gone: set<int>, m: OwnedMount, u: OwnedMount)
    requires PreflightOk(owned, live) && Canonical(live)
    requires forall m :: m in active <==> m in owned && m.id in Ids(live)
    requires forall m :: m in active ==> |Components(m.target)| <= |Components(target)|
    requires Top(live, target).Some?
    requires forall m :: m in live && m.id in gone ==>
               Top(live, target) == Some(m) || (m.target != target && StartsWith(m.target, target))
    requires Buries(live, Ids(owned), m, u)
    ensures m.id !in gone
  {
    BuriedIsNotTop(live, m, u);
    TopIsThere(live, target);
    var top := Top(live, target).value;
    var o :| o in owned && o.id == m.id;
    assert m.id in Ids(live);
    assert o in active && SameIdentity(o, m);
    assert |Components(m.target)| <= |Components(target)|;
    if StartsWith(m.target, target) {
      assert Components(m.target) == Components(top.target);
      assert m.target == target;
    }
  }

  ghost predicate SameRows(rows: seq<OwnedMount>, live: seq<OwnedMount>) {
    UniqueIds(rows) && forall m :: m in rows <==> m in live
  }

  lemma SameRowsSamePreflight(owned: seq<OwnedMount>, rows: seq<OwnedMount>, live: seq<OwnedMount>)
    requires SameRows(rows, live) && UniqueIds(live)
    ensures PreflightOk(owned, rows) <==> PreflightOk(owned, live)
    ensures Ids(rows) == Ids(live)
  {
    if PreflightOk(owned, rows) { FewerMountsStillPass(owned, rows, live); }
    if PreflightOk(owned, live) { FewerMountsStillPass(owned, live, rows); }
  }

  lemma ActiveMounts(owned: seq<OwnedMount>, rows: seq<OwnedMount>, live: seq<OwnedMount>, active: seq<OwnedMount>)
    requires SameRows(rows, live) && Ids(rows) == Ids(live)
    requires active == DeepestFirst(LiveOwned(owned, rows))
    ensures forall m :: m in active <==> m in owned && m.id in Ids(live)
    ensures active != [] ==> forall m :: m in active ==> |Components(m.target)| <= |Components(active[0].target)|
  {
    DeepestIsFirst(LiveOwned(owned, rows));
  }

  lemma OnTopIsVisible(owned: seq<OwnedMount>, live: seq<OwnedMount>, active: seq<OwnedMount>)
    requires PreflightOk(owned, live)
    requires forall m :: m in active <==> m in owned && m.id in Ids(live)
    ensures OwnedOnTop(live, Ids(owned)) ==> VisibleOk(active, live)
  {
    if OwnedOnTop(live, Ids(owned)) {
      forall m | m in active ensures TargetShown(active, live, m.target) {
        var a :| a in live && a.id == m.id;
        assert SameIdentity(m, a);
        OwnedTop(live, Ids(owned), a);
        TopIsThere(live, m.target);
        var top := Top(live, m.target).value;
        var o :| o in owned && o.id == top.id;
        assert o in active && SameIdentity(o, top);
      }
    }
  }

  lemma StepKeepsProgress(owned: seq<OwnedMount>, before: seq<OwnedMount>, gone: set<int>, step: set<int>)
    requires GoneIsSafe(owned, before, gone) && GoneIsSafe(owned, Keep(before, gone), step)
    ensures GoneIsSafe(owned, before, gone + step)
    ensures Keep(Keep(before, gone), step) == Keep(before, gone + step)
    ensures OwnedOnTop(Keep(before, gone), Ids(owned)) ==> OwnedOnTop(Keep(before, gone + step), Ids(owned))
  {
    KeepTwice(before, gone, step);
    KeepMembers(before, gone);
    if OwnedOnTop(Keep(before, gone), Ids(owned)) { StillOnTop(Keep(before, gone), Ids(owned), step); }
    forall m, u | Buries(before, Ids(owned), m, u) ensures m.id !in gone + step {
      BeforeMembers(before, m, u);
      BeforeSurvives(before, gone, m, u);
      assert Buries(Keep(before, gone), Ids(owned), m, u);
    }
  }

  lemma {:induction false} BeforeMembers(live: seq<OwnedMount>, m: OwnedMount, u: OwnedMount)
    requires Before(live, m, u)
    ensures m in live && u in live
  {
    assert live == [live[0]] + live[1..];
    if !(live[0] == m && u in live[1..]) { BeforeMembers(live[1..], m, u); }
  }

  lemma OwnedSafelyGone(owned: seq<OwnedMount>, before: seq<OwnedMount>, gone: set<int>)
    requires GoneIsSafe(owned, before, gone)
    ensures Keep(Keep(before, gone), Ids(owned)) == Keep(before, Ids(owned))
  {
    KeepTwice(before, gone, Ids(owned));
    KeepAll(before, gone + Ids(owned), Ids(owned));
  }

  lemma DrainedMeansDone(owned: seq<OwnedMount>, before: seq<OwnedMount>, gone: set<int>, active: seq<OwnedMount>)
    requires GoneIsSafe(owned, before, gone) && active == []
    requires forall m :: m in active <==> m in owned && m.id in Ids(Keep(before, gone))
    ensures Keep(before, gone) == Keep(before, Ids(owned))
    ensures OwnedOnTop(before, Ids(owned))
  {
    var live := Keep(before, gone);
    KeepMembers(before, gone);
    forall m | m in before && m.id !in gone ensures m.id !in Ids(owned) {
      assert m in live && m.id in Ids(live);
      forall o | o in owned ensures o.id != m.id {
        assert o !in active;
      }
    }
    KeepAll(before, gone, Ids(owned));
    forall m, u ensures !Buries(before, Ids(owned), m, u) {
      if Before(before, m, u) { BeforeMembers(before, m, u); }
    }
    NothingBuried(before, Ids(owned));
  }

  lemma NothingBuried(live: seq<OwnedMount>, owned: set<int>)
    requires forall m, u :: !Buries(live, owned, m, u)
    ensures OwnedOnTop(live, owned)
  {
    if !OwnedOnTop(live, owned) {
      var m, u := SomethingBuried(live, owned);
    }
  }

  /** Nothing recorded is left, and what is on a recorded path was there before. */
  ghost predicate NothingForeignLeft(owned: seq<OwnedMount>, live: seq<OwnedMount>) {
    forall a :: a in live ==>
      a.id !in Ids(owned) && forall m :: m in owned && a.target == m.target ==> a.id in m.baselineIds
  }

  lemma CleanupLeavesNothing(owned: seq<OwnedMount>, live: seq<OwnedMount>)
    ensures PreflightOk(owned, live) ==> NothingForeignLeft(owned, Keep(live, Ids(owned)))
  {
    KeepMembers(live, Ids(owned));
  }

  /** The paths asked for from `n` on get no deeper, and nothing owned is deeper than the last. */
  ghost predicate DeepestAsked(asked: seq<string>, n: nat, owned: seq<OwnedMount>, live: seq<OwnedMount>) {
    && (forall i, j :: n <= i < j < |asked| ==> |Components(asked[j])| <= |Components(asked[i])|)
    && forall i, m :: n <= i < |asked| && m in owned && m.id in Ids(live) ==>
         |Components(m.target)| <= |Components(asked[i])|
  }

  lemma AskedNext(asked: seq<string>, n: nat, owned: seq<OwnedMount>, at: seq<OwnedMount>, now: seq<OwnedMount>,
                  next: OwnedMount, more: seq<string>)
    requires n <= |asked| && DeepestAsked(asked, n, owned, at) && Ids(now) <= Ids(at)
    requires next in owned && next.id in Ids(at)
    requires forall m :: m in owned && m.id in Ids(at) ==> |Components(m.target)| <= |Components(next.target)|
    requires more == asked || more == asked + [next.target]
    ensures DeepestAsked(more, n, owned, now)
  {
    hide Components;
  }

  lemma NextIsAsked(asked: seq<string>, n: nat, owned: seq<OwnedMount>, at: seq<OwnedMount>, step: set<int>,
                    active: seq<OwnedMount>, more: seq<string>)
    requires n <= |asked| && DeepestAsked(asked, n, owned, at) && active != []
    requires forall m :: m in active <==> m in owned && m.id in Ids(at)
    requires forall m :: m in active ==> |Components(m.target)| <= |Components(active[0].target)|
    requires more == asked || more == asked + [active[0].target]
    ensures DeepestAsked(more, n, owned, Keep(at, step)) && asked <= more
  {
    KeepMembers(at, step);
    AskedNext(asked, n, owned, at, Keep(at, step), active[0], more);
  }

  /** `cleanup_with`: detach the owned mounts, deepest path first, checking
      everything again before each one. */
  method CleanupWith(table: MountTable, owned: seq<OwnedMount>) returns (ok: bool, ghost gone: set<int>)
    requires table.Valid()
    modifies table`live, table`refusals, table`asked
    ensures table.Valid() && table.live == Keep(old(table.live), gone)
    ensures forall m :: m in old(table.live) && m.id in gone ==> m.id in Ids(owned)
    ensures Keep(table.live, Ids(owned)) == Keep(old(table.live), Ids(owned))
    ensures !PreflightOk(owned, old(table.live)) ==> !ok && table.live == old(table.live)
    ensures ok ==> table.live == Keep(old(table.live), Ids(owned))
    ensures ok ==> OwnedOnTop(old(table.live), Ids(owned))
    ensures PreflightOk(owned, old(table.live)) ==> PreflightOk(owned, table.live)
    ensures OwnedOnTop(old(table.live), Ids(owned)) ==> OwnedOnTop(table.live, Ids(owned))
    ensures old(table.asked) <= table.asked
    ensures DeepestAsked(table.asked, old(|table.asked|), owned, table.live)
    ensures ok ==> table.refusals == old(table.refusals)
    ensures table.works ==> (ok <==> PreflightOk(owned, old(table.live)) && OwnedOnTop(old(table.live), Ids(owned)))
  {
    ghost var before := table.live;
    gone := {};
    KeepNone(before);
    var rows := table.List();
    ok := rows.Some?;
    if !ok { return; }
    while true
      invariant table.Valid() && table.live == Keep(before, gone) && table.refusals == old(table.refusals)
      invariant GoneIsSafe(owned, before, gone)
      invariant old(table.asked) <= table.asked
      invariant DeepestAsked(table.asked, old(|table.asked|), owned, table.live)
      invariant Keep(table.live, Ids(owned)) == Keep(before, Ids(owned))
      invariant rows.Some? && SameRows(rows.value, table.live)
      invariant PreflightOk(owned, before) ==> PreflightOk(owned, table.live)
      invariant !PreflightOk(owned, before) ==> table.live == before
      invariant OwnedOnTop(before, Ids(owned)) ==> OwnedOnTop(table.live, Ids(owned))
      decreases |table.live|
    {
      var active := Preflight(owned, rows.value);
      SameRowsSamePreflight(owned, rows.value, table.live);
      ok := active.Some?;
      if !ok { return; }
      ActiveMounts(owned, rows.value, table.live, active.value);
      ok := VerifyVisible(table, active.value);
      OnTopIsVisible(owned, table.live, active.value);
      if !ok { return; }
      if active.value == [] {
        DrainedMeansDone(owned, before, gone, active.value);
        return;
      }
      ghost var step;
      ghost var at, asked := table.live, table.asked;
      ok, step := DetachNext(table, owned, active.value);
      NextIsAsked(asked, old(|table.asked|), owned, at, step, active.value, table.asked);
      StepKeepsProgress(owned, before, gone, step);
      KeepMembers(at, step);
      FewerMountsStillPass(owned, at, table.live);
      gone := gone + step;
      OwnedSafelyGone(owned, before, gone);
      if !ok { return; }
      rows := table.List();
      ok := rows.Some?;
      if !ok { return; }
    }
  }

  /** `cleanup`: the same, said of the mounts themselves. */
  method Cleanup(table: MountTable, owned: seq<OwnedMount>) returns (ok: bool)
    requires table.Valid()
    modifies table`live, table`refusals, table`asked
    ensures table.Valid()
    ensures !Undisputed(owned, old(table.live)) ==> !ok && table.live == old(table.live)
    ensures ok ==> NothingForeignLeft(owned, table.live)
    ensures forall a :: a in old(table.live) && a.id !in Ids(owned) ==> a in table.live
    ensures forall a :: a in table.live ==> a in old(table.live)
    ensures Undisputed(owned, old(table.live)) ==> Undisputed(owned, table.live)
    ensures forall i, j :: old(|table.asked|) <= i < j < |table.asked| ==>
              |Components(table.asked[j])| <= |Components(table.asked[i])|
    ensures ok ==> table.refusals == old(table.refusals)
    ensures table.works ==> (ok <==> Undisputed(owned, old(table.live)) && OwnedOnTop(old(table.live), Ids(owned)))
  {
    ghost var before := table.live;
    UndisputedPasses(owned, before);
    CleanupLeavesNothing(owned, before);
    hide Undisputed, PreflightOk, OwnedOnTop, NothingForeignLeft;
    ghost var gone;
    ok, gone := CleanupWith(table, owned);
    KeepMembers(before, gone);
    UndisputedPasses(owned, table.live);
  }

  /** Any number of interrupted cleanups, then one on a table that works: the end
      is the table without the owned mounts, as if the first had gone through. */
  method Retry(table: MountTable, owned: seq<OwnedMount>, attempts: nat) returns (ok: bool)
    requires table.Valid() && PreflightOk(owned, table.live) && OwnedOnTop(table.live, Ids(owned))
    modifies table
    ensures ok && table.Valid() && table.live == Keep(old(table.live), Ids(owned))
  {
    ghost var before := table.live;
    for i := 0 to attempts
      invariant table.Valid() && Keep(table.live, Ids(owned)) == Keep(before, Ids(owned))
      invariant PreflightOk(owned, table.live) && OwnedOnTop(table.live, Ids(owned))
    {
      table.works := *;
      ghost var gone;
      ok, gone := CleanupWith(table, owned);
    }
    table.works := true;
    ghost var gone;
    ok, gone := CleanupWith(table, owned);
  }
}
