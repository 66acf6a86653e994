/// What one module contributes to the plan (`process_module`,
/// `add_whole_overlay_layers`, src/plan/mod.rs).
module ModulePlan {
  import opened FileTrees
  import opened MountTrees
  import opened Partitions
  import opened Strings
  import opened Wrappers

  datatype ModuleEntry = ModuleEntry(
    relative: Path, fileType: NodeFileType, replace: bool, directoryRemove: bool, linkTarget: Option<string>)

  // --- Rules --------------------------------------------------------------

  /** The path rules of a module, the longest key first. */
  datatype RulesView = RulesView(defaultMode: Mode, pathRules: seq<(Path, Mode)>)

  function Degrade(mode: Mode, vfsAvailable: bool): Mode {
    if mode.Vfs? && !vfsAvailable then Ignore else mode
  }

  predicate KeyLeq(a: Path, b: Path) {
    |Joined(b)| < |Joined(a)| || (|Joined(a)| == |Joined(b)| && LexLeq(Joined(a), Joined(b)))
  }

  function InsertRule(r: (Path, Mode), rules: seq<(Path, Mode)>): seq<(Path, Mode)> {
    if rules == [] || KeyLeq(r.0, rules[0].0) then [r] + rules else [rules[0]] + InsertRule(r, rules[1..])
  }

  function OrderRules(rules: seq<(Path, Mode)>, vfsAvailable: bool): seq<(Path, Mode)> {
    if rules == [] then []
    else InsertRule((rules[0].0, Degrade(rules[0].1, vfsAvailable)), OrderRules(rules[1..], vfsAvailable))
  }

  function NewRulesView(defaultMode: Mode, paths: seq<(Path, Mode)>, vfsAvailable: bool): RulesView {
    RulesView(Degrade(defaultMode, vfsAvailable), OrderRules(paths, vfsAvailable))
  }

  function FirstRule(rules: seq<(Path, Mode)>, relative: Path, default: Mode): Mode {
    if rules == [] then default
    else if rules[0].0 <= relative then rules[0].1
    else FirstRule(rules[1..], relative, default)
  }

  function ResolveMode(view: RulesView, relative: Path): Mode {
    FirstRule(view.pathRules, relative, view.defaultMode)
  }

  /** `key` is the most specific of the keys that cover the path. */
  predicate MostSpecific(rules: seq<(Path, Mode)>, key: Path, relative: Path) {
    key <= relative && forall r :: r in rules && r.0 <= relative ==> r.0 <= key
  }

  lemma {:induction false} InsertedRules(r: (Path, Mode), rules: seq<(Path, Mode)>)
    ensures forall x :: x in InsertRule(r, rules) <==> x == r || x in rules
    ensures Longest(rules) ==> Longest(InsertRule(r, rules))
  {
    if rules != [] {
      assert rules == [rules[0]] + rules[1..];
      if !KeyLeq(r.0, rules[0].0) {
        InsertedRules(r, rules[1..]);
      }
    }
  }

  /** Longer keys come first. */
  predicate Longest(rules: seq<(Path, Mode)>) {
    rules == [] || ((forall r :: r in rules[1..] ==> |Joined(r.0)| <= |Joined(rules[0].0)|) && Longest(rules[1..]))
  }

  lemma {:induction false} OrderedRules(rules: seq<(Path, Mode)>, vfsAvailable: bool)
    ensures Longest(OrderRules(rules, vfsAvailable))
    ensures forall x :: x in OrderRules(rules, vfsAvailable) <==>
                        exists r :: r in rules && x == (r.0, Degrade(r.1, vfsAvailable))
  {
    if rules != [] {
      OrderedRules(rules[1..], vfsAvailable);
      InsertedRules((rules[0].0, Degrade(rules[0].1, vfsAvailable)), OrderRules(rules[1..], vfsAvailable));
      assert rules == [rules[0]] + rules[1..];
    }
  }

  lemma {:induction false} FirstIsLongest(rules: seq<(Path, Mode)>, relative: Path, default: Mode)
    requires Longest(rules) && forall r :: r in rules ==> r.0 != []
    ensures (forall r :: r in rules ==> !(r.0 <= relative)) ==> FirstRule(rules, relative, default) == default
    ensures (exists r :: r in rules && r.0 <= relative) ==>
              exists k :: MostSpecific(rules, k, relative) && (k, FirstRule(rules, relative, default)) in rules
  {
    if rules != [] {
      assert rules == [rules[0]] + rules[1..];
      if rules[0].0 <= relative {
        forall r | r in rules && r.0 <= relative ensures r.0 <= rules[0].0 {
          if !(r.0 <= rules[0].0) { PrefixIsShorter(rules[0].0, r.0); }
        }
        assert MostSpecific(rules, rules[0].0, relative);
      } else {
        FirstIsLongest(rules[1..], relative, default);
        if r :| r in rules && r.0 <= relative {
          assert r in rules[1..];
          var k :| MostSpecific(rules[1..], k, relative) && (k, FirstRule(rules[1..], relative, default)) in rules[1..];
          assert MostSpecific(rules, k, relative);
        }
      }
    }
  }

  /** The mode of an entry is that of the most specific rule that covers it, or the
      default; a VFS choice the kernel cannot serve counts as ignore. */
  lemma MostSpecificRuleWins(defaultMode: Mode, paths: seq<(Path, Mode)>, vfsAvailable: bool, relative: Path)
    requires forall r :: r in paths ==> r.0 != []
    ensures var mode := ResolveMode(NewRulesView(defaultMode, paths, vfsAvailable), relative);
            if exists r :: r in paths && r.0 <= relative
            then exists r :: r in paths && MostSpecific(paths, r.0, relative)
                             && mode == if r.1 == Vfs && !vfsAvailable then Ignore else r.1
            else mode == if defaultMode == Vfs && !vfsAvailable then Ignore else defaultMode
  {
    var rules := OrderRules(paths, vfsAvailable);
    OrderedRules(paths, vfsAvailable);
    FirstIsLongest(rules, relative, Degrade(defaultMode, vfsAvailable));
    if r :| r in paths && r.0 <= relative {
      assert (r.0, Degrade(r.1, vfsAvailable)) in rules;
      var mode := FirstRule(rules, relative, Degrade(defaultMode, vfsAvailable));
      var k :| MostSpecific(rules, k, relative) && (k, mode) in rules;
      var o :| o in paths && (k, mode) == (o.0, Degrade(o.1, vfsAvailable));
      forall x | x in paths && x.0 <= relative ensures x.0 <= o.0 {
        assert (x.0, Degrade(x.1, vfsAvailable)) in rules;
      }
      assert MostSpecific(paths, o.0, relative);
    }
  }

  // --- Which entries are kept ---------------------------------------------

  datatype Decision = Decision(entry: ModuleEntry, mode: Mode)

  /** Paths nothing may be put over: visible mounts, and the places of a partition
      that is there but cannot be used. */
  function ProtectedTargets(layout: Layout): set<Path> {
    var unusable := set name | name in layout.errors && layout.errors[name] != PartitionMissing;
    layout.mountPoints
    + (set name | name in unusable :: [name])
    + (set name | name in unusable :: ["system", name])
    + (if "system" in layout.roots then set name | name in unusable :: layout.roots["system"] + [name] else {})
  }

  predicate Destructive(e: ModuleEntry) {
    e.replace || e.fileType.Symlink? || e.fileType.Whiteout?
  }

  /** Whether an entry at `target` would cover a protected path. */
  predicate CoversProtected(layout: Layout, target: Path, fileType: NodeFileType) {
    exists p :: p in ProtectedTargets(layout) && target <= p && (p != target || fileType.Whiteout?)
  }

  /** Whether something put on `target` would hide `p`. A removal hides its own path too. */
  predicate Hides(target: Path, p: Path, fileType: NodeFileType) {
    target <= p && (p != target || fileType.Whiteout?)
  }

  /** A replacement, link or removal on `target` hides no visible mount, and none of
      the three places of a partition that is there but cannot be used. */
  ghost predicate Spares(layout: Layout, target: Path, fileType: NodeFileType) {
    && (forall p :: p in layout.mountPoints ==> !Hides(target, p, fileType))
    && forall n :: n in layout.errors && layout.errors[n] != PartitionMissing ==>
         && !Hides(target, [n], fileType) && !Hides(target, ["system", n], fileType)
         && ("system" in layout.roots ==> !Hides(target, layout.roots["system"] + [n], fileType))
  }

  lemma SparesProtected(layout: Layout, target: Path, fileType: NodeFileType)
    ensures Spares(layout, target, fileType) <==> !CoversProtected(layout, target, fileType)
  {
    forall p ensures p in ProtectedTargets(layout) <==>
                     || p in layout.mountPoints
                     || exists n :: n in layout.errors && layout.errors[n] != PartitionMissing
                                    && (p == [n] || p == ["system", n]
                                        || ("system" in layout.roots && p == layout.roots["system"] + [n]))
    {
      if n :| n in layout.errors && layout.errors[n] != PartitionMissing
              && (p == [n] || p == ["system", n] || ("system" in layout.roots && p == layout.roots["system"] + [n])) {
        assert p in ProtectedTargets(layout);
      }
    }
    hide ProtectedTargets;
    if !Spares(layout, target, fileType) && !(exists p :: p in layout.mountPoints && Hides(target, p, fileType)) {
      var n :| n in layout.errors && layout.errors[n] != PartitionMissing
               && (Hides(target, [n], fileType) || Hides(target, ["system", n], fileType)
                   || ("system" in layout.roots && Hides(target, layout.roots["system"] + [n], fileType)));
      assert [n] in ProtectedTargets(layout) && ["system", n] in ProtectedTargets(layout);
      assert "system" in layout.roots ==> layout.roots["system"] + [n] in ProtectedTargets(layout);
    }
  }

  /** Whether an entry blocks itself and everything below it. */
  predicate Blocks(view: RulesView, layout: Layout, e: ModuleEntry) {
    && ResolveMode(view, e.relative) != Ignore && MapTarget(layout, e.relative).Some?
    && ((e.directoryRemove && |e.relative| == RootLen(layout, e.relative))
        || (Destructive(e) && CoversProtected(layout, MapTarget(layout, e.relative).value.1, e.fileType)))
  }

  predicate PromotedAlias(layout: Layout, e: ModuleEntry) {
    && e.fileType.Symlink? && |e.relative| == 2 && e.relative[0] == "system" && e.relative[1] in layout.roots
    && e.linkTarget == Some("../" + e.relative[1])
  }

  predicate SelfAlias(layout: Layout, e: ModuleEntry) {
    && e.fileType.Symlink? && |e.relative| == 2 && e.relative[0] in layout.roots && e.relative[1] == e.relative[0]
    && (e.linkTarget == Some("./system/" + e.relative[0]) || e.linkTarget == Some("system/" + e.relative[0]))
  }

  predicate Kept(layout: Layout, blocked: set<Path>, e: ModuleEntry) {
    && e.relative != [] && !(exists b :: b in blocked && b <= e.relative)
    && LogicalPartition(layout, e.relative) !in layout.errors
    && !PromotedAlias(layout, e) && !SelfAlias(layout, e)
  }

  function BlockedBy(view: RulesView, layout: Layout, entries: seq<ModuleEntry>): set<Path> {
    set e | e in entries && Blocks(view, layout, e) :: e.relative
  }

  /** The entries that survive a set of blocked paths, each with its mode, in their order. */
  function KeptEntries(view: RulesView, layout: Layout, blocked: set<Path>,
                       entries: seq<ModuleEntry>): (out: seq<Decision>)
    ensures forall d :: d in out <==>
              d.entry in entries && Kept(layout, blocked, d.entry) && d.mode == ResolveMode(view, d.entry.relative)
  {
    if entries == [] then []
    else
      var init, last := entries[..|entries|-1], entries[|entries|-1];
      assert entries == init + [last];
      var rest := KeptEntries(view, layout, blocked, init);
      if Kept(layout, blocked, last) then rest + [Decision(last, ResolveMode(view, last.relative))] else rest
  }

  /** The first pass over the entries of a module. */
  method CollectBlocked(view: RulesView, layout: Layout, entries: seq<ModuleEntry>) returns (blocked: set<Path>)
    ensures blocked == BlockedBy(view, layout, entries)
  {
    hide Blocks;
    blocked := {};
    for i := 0 to |entries|
      invariant blocked == BlockedBy(view, layout, entries[..i])
    {
      assert entries[..i+1] == entries[..i] + [entries[i]];
      if Blocks(view, layout, entries[i]) { blocked := blocked + {entries[i].relative}; }
    }
    assert entries[..|entries|] == entries;
  }

  /** The entries that make up a module's plan, each with its mode. */
  method Decide(view: RulesView, layout: Layout, entries: seq<ModuleEntry>) returns (decisions: seq<Decision>)
    ensures decisions == KeptEntries(view, layout, BlockedBy(view, layout, entries), entries)
    ensures forall d :: d in decisions <==>
              && d.entry in entries && Kept(layout, BlockedBy(view, layout, entries), d.entry)
              && d.mode == ResolveMode(view, d.entry.relative)
  {
    hide Blocks, Kept, ResolveMode, BlockedBy;
    var blocked := CollectBlocked(view, layout, entries);
    decisions := [];
    for i := 0 to |entries|
      invariant decisions == KeptEntries(view, layout, blocked, entries[..i])
    {
      assert entries[..i+1][..i] == entries[..i];
      if Kept(layout, blocked, entries[i]) {
        decisions := decisions + [Decision(entries[i], ResolveMode(view, entries[i].relative))];
      }
    }
    assert entries[..|entries|] == entries;
  }

  /** What the planner keeps spares visible mounts and the places of unusable
      partitions: no active replacement, link or removal above one, no removal on one. */
  lemma KeptIsHarmless(view: RulesView, layout: Layout, entries: seq<ModuleEntry>, d: Decision)
    requires d.entry in entries && Kept(layout, BlockedBy(view, layout, entries), d.entry)
    requires d.mode == ResolveMode(view, d.entry.relative) && d.mode != Ignore && Destructive(d.entry)
    requires MapTarget(layout, d.entry.relative).Some?
    ensures Spares(layout, MapTarget(layout, d.entry.relative).value.1, d.entry.fileType)
  {
    SparesProtected(layout, MapTarget(layout, d.entry.relative).value.1, d.entry.fileType);
    assert d.entry.relative !in BlockedBy(view, layout, entries);
  }

  /** Whether an active entry is a directory removal at a partition root, in either
      spelling, or a replacement, link or removal that hides what must stay. */
  ghost predicate MustGo(view: RulesView, layout: Layout, e: ModuleEntry) {
    var r := e.relative;
    && ResolveMode(view, r) != Ignore && MapTarget(layout, r).Some?
    && ((e.directoryRemove
         && (|r| == 1 || (|r| == 2 && r[0] == "system" && r[1] != "system" && Known(layout, r[1]))))
        || ((e.replace || e.fileType == Symlink || e.fileType == Whiteout)
            && !Spares(layout, MapTarget(layout, r).value.1, e.fileType)))
  }

  /** A link that spells one partition as another: `system/P` to `../P`, or `P/P` back
      to `system/P`. */
  predicate Alias(layout: Layout, e: ModuleEntry) {
    && e.fileType == Symlink && |e.relative| == 2 && e.linkTarget.Some?
    && var (first, second, to) := (e.relative[0], e.relative[1], e.linkTarget.value);
       || (first == "system" && second in layout.roots && to == "../" + second)
       || (first in layout.roots && second == first && (to == "./system/" + first || to == "system/" + first))
  }

  /** An entry is kept exactly if nothing at or above it must go, its partition has not
      failed, and it is no alias. */
  lemma KeptExactly(view: RulesView, layout: Layout, entries: seq<ModuleEntry>, e: ModuleEntry)
    ensures Kept(layout, BlockedBy(view, layout, entries), e) <==>
            && e.relative != []
            && (forall b :: b in entries && b.relative <= e.relative ==> !MustGo(view, layout, b))
            && LogicalPartition(layout, e.relative) !in layout.errors && !Alias(layout, e)
  {
    forall b | b in entries ensures MustGo(view, layout, b) <==> Blocks(view, layout, b) {
      if MapTarget(layout, b.relative).Some? {
        SparesProtected(layout, MapTarget(layout, b.relative).value.1, b.fileType);
      }
    }
    hide MapTarget, ResolveMode, Blocks, MustGo;
    forall b | b in entries && Blocks(view, layout, b) ensures b.relative in BlockedBy(view, layout, entries) {}
  }

  /** Nothing at or below a blocked path is kept, whatever its own mode. */
  lemma BlockedIsDropped(view: RulesView, layout: Layout, entries: seq<ModuleEntry>, blocker: ModuleEntry,
                         e: ModuleEntry)
    requires blocker in entries && Blocks(view, layout, blocker) && blocker.relative <= e.relative
    ensures !Kept(layout, BlockedBy(view, layout, entries), e)
  {
    assert blocker.relative in BlockedBy(view, layout, entries);
  }

  // --- Overlay layers and files -------------------------------------------

  predicate HasAncestorIn(relative: Path, paths: set<Path>) {
    exists k :: 0 < k < |relative| && relative[..k] in paths
  }

  function OverlayPaths(decisions: seq<Decision>): set<Path> {
    set d | d in decisions && d.mode.Overlay? :: d.entry.relative
  }

  /** Roots a module replaces as a whole. */
  function ReplacedRoots(layout: Layout, decisions: seq<Decision>): set<Path> {
    set d | d in decisions && d.entry.relative != [] && d.entry.replace
        && |d.entry.relative| == RootLen(layout, d.entry.relative)
      :: d.entry.relative
  }

  /** The module directory that an entry brings in as an overlay layer. */
  function LayerOf(layout: Layout, decisions: seq<Decision>, whole: bool, d: Decision): Option<Path> {
    var r := d.entry.relative;
    if r == [] || !d.mode.Overlay? then None
    else if !whole then
      if d.entry.fileType.Directory? && !HasAncestorIn(r, OverlayPaths(decisions)) then Some(r) else None
    else if HasAncestorIn(r, ReplacedRoots(layout, decisions)) then None
    else if |r| == RootLen(layout, r) && d.entry.replace then Some(r)
    else if |r| > RootLen(layout, r) + 1 || (d.entry.fileType.Directory? && |r| == RootLen(layout, r) + 1) then
      Some(r[..RootLen(layout, r)+1])
    else None
  }

  /** Whether an entry is bound on its own into the overlay of its parent directory. */
  predicate IsShallow(layout: Layout, decisions: seq<Decision>, whole: bool, d: Decision) {
    var r := d.entry.relative;
    && r != [] && d.mode.Overlay? && !d.entry.fileType.Directory?
    && (if !whole then !HasAncestorIn(r, OverlayPaths(decisions)) && |r| >= 2
        else !HasAncestorIn(r, ReplacedRoots(layout, decisions)) && |r| == RootLen(layout, r) + 1)
  }

  function Layers(layout: Layout, decisions: seq<Decision>, whole: bool): set<Path> {
    set d | d in decisions && LayerOf(layout, decisions, whole, d).Some? :: LayerOf(layout, decisions, whole, d).value
  }

  /** What the scanner delivers: valid paths, each once, and only directories above others. */
  ghost predicate Scanned(decisions: seq<Decision>) {
    && (forall d :: d in decisions ==> ValidRelative(d.entry.relative))
    && (forall a, b :: a in decisions && b in decisions && a.entry.relative == b.entry.relative ==> a == b)
    && forall a, b :: a in decisions && b in decisions && Above(a.entry.relative, b.entry.relative) ==>
         a.entry.fileType.Directory?
  }

  ghost predicate WholeOverlay(decisions: seq<Decision>) {
    forall d :: d in decisions ==> d.mode.Overlay?
  }

  lemma PrefixIsAncestor(a: Path, b: Path, paths: set<Path>)
    requires a in paths && a != []
    ensures Above(a, b) ==> HasAncestorIn(b, paths)
  {
    if Above(a, b) { assert a == b[..|a|]; }
  }

  lemma RootLenOfPrefix(layout: Layout, a: Path, b: Path)
    requires a <= b && |a| >= 2
    ensures RootLen(layout, a) == RootLen(layout, b) && LogicalPartition(layout, a) == LogicalPartition(layout, b)
  {
    assert a[0] == b[0] && a[1] == b[1];
  }

  /** No two layers of a module nest. */
  lemma LayersApart(layout: Layout, decisions: seq<Decision>, whole: bool, a: Path, b: Path)
    requires Scanned(decisions) && (whole ==> WholeOverlay(decisions))
    requires a in Layers(layout, decisions, whole) && b in Layers(layout, decisions, whole) && a <= b
    ensures a == b
  {
    var da :| da in decisions && LayerOf(layout, decisions, whole, da) == Some(a);
    var db :| db in decisions && LayerOf(layout, decisions, whole, db) == Some(b);
    if whole {
      WholeLayersApart(layout, decisions, da, db, a, b);
    } else {
      assert a in OverlayPaths(decisions) && a == b[..|a|];
    }
  }

  lemma WholeLayersApart(layout: Layout, decisions: seq<Decision>, da: Decision, db: Decision, a: Path, b: Path)
    requires Scanned(decisions) && WholeOverlay(decisions)
    requires da in decisions && LayerOf(layout, decisions, true, da) == Some(a)
    requires db in decisions && LayerOf(layout, decisions, true, db) == Some(b)
    requires a <= b
    ensures a == b
  {
    var ra, rb := da.entry.relative, db.entry.relative;
    assert a == rb[..|a|] && a == ra[..|a|];
    if |a| >= 2 {
      RootLenOfPrefix(layout, a, ra);
      RootLenOfPrefix(layout, a, rb);
    }
    if |ra| == RootLen(layout, ra) && da.entry.replace {
      assert a in ReplacedRoots(layout, decisions);
    }
  }

  /** Every overlay entry below its partition root is served exactly once: by the one
      layer at or above it, or as a single file. */
  lemma ServedOnce(layout: Layout, decisions: seq<Decision>, whole: bool, d: Decision)
    requires Scanned(decisions) && (whole ==> WholeOverlay(decisions))
    requires d in decisions && d.mode.Overlay? && |d.entry.relative| > RootLen(layout, d.entry.relative)
    ensures IsShallow(layout, decisions, whole, d) <==> !Covered(layout, decisions, whole, d.entry.relative)
    ensures forall a, b :: Covers(layout, decisions, whole, a, d.entry.relative) ==>
              Covers(layout, decisions, whole, b, d.entry.relative) ==> a == b
  {
    forall a, b | Covers(layout, decisions, whole, a, d.entry.relative)
           && Covers(layout, decisions, whole, b, d.entry.relative)
      ensures a == b
    {
      Related(a, b, d.entry.relative);
      if a <= b { LayersApart(layout, decisions, whole, a, b); } else { LayersApart(layout, decisions, whole, b, a); }
    }
    if whole { WholeServed(layout, decisions, d); } else { PartlyServed(layout, decisions, d); }
  }

  ghost predicate Covered(layout: Layout, decisions: seq<Decision>, whole: bool, relative: Path) {
    exists l :: Covers(layout, decisions, whole, l, relative)
  }

  predicate Covers(layout: Layout, decisions: seq<Decision>, whole: bool, layer: Path, relative: Path) {
    layer in Layers(layout, decisions, whole) && layer <= relative
  }

  /** The topmost overlay path at or above one. */
  lemma Topmost(paths: set<Path>, relative: Path) returns (top: Path)
    requires relative in paths && relative != []
    ensures top in paths && top <= relative && top != [] && !HasAncestorIn(top, paths)
    decreases |relative|
  {
    if k :| 0 < k < |relative| && relative[..k] in paths {
      top := Topmost(paths, relative[..k]);
      assert top == relative[..|top|];
    } else {
      top := relative;
    }
  }

  lemma PartlyServed(layout: Layout, decisions: seq<Decision>, d: Decision)
    requires Scanned(decisions) && d in decisions && d.mode.Overlay? && |d.entry.relative| >= 2
    ensures IsShallow(layout, decisions, false, d) <==> !Covered(layout, decisions, false, d.entry.relative)
  {
    var paths := OverlayPaths(decisions);
    var r := d.entry.relative;
    var top := Topmost(paths, r);
    var t :| t in decisions && t.mode.Overlay? && t.entry.relative == top;
    if top != r || d.entry.fileType.Directory? {
      assert t.entry.fileType.Directory?;
      assert LayerOf(layout, decisions, false, t) == Some(top);
      assert Covers(layout, decisions, false, top, r);
      if top != r { assert top == r[..|top|]; assert HasAncestorIn(r, paths); }
    } else {
      forall l | l in Layers(layout, decisions, false) ensures !(l <= r) {
        var dl :| dl in decisions && LayerOf(layout, decisions, false, dl) == Some(l);
        PrefixIsAncestor(l, r, paths);
      }
    }
  }

  lemma WholeServed(layout: Layout, decisions: seq<Decision>, d: Decision)
    requires Scanned(decisions) && WholeOverlay(decisions)
    requires d in decisions && |d.entry.relative| > RootLen(layout, d.entry.relative)
    ensures IsShallow(layout, decisions, true, d) <==> !Covered(layout, decisions, true, d.entry.relative)
  {
    var roots := ReplacedRoots(layout, decisions);
    var r := d.entry.relative;
    if k :| 0 < k < |r| && r[..k] in roots {
      var top := Topmost(roots, r[..k]);
      var t :| t in decisions && t.entry.relative == top && t.entry.replace && |top| == RootLen(layout, top);
      assert LayerOf(layout, decisions, true, t) == Some(top);
      assert top == r[..|top|];
      assert Covers(layout, decisions, true, top, r);
    } else if LayerOf(layout, decisions, true, d).Some? {
      assert Covers(layout, decisions, true, LayerOf(layout, decisions, true, d).value, r);
    } else {
      forall l | l in Layers(layout, decisions, true) ensures !(l <= r) {
        var dl :| dl in decisions && LayerOf(layout, decisions, true, dl) == Some(l);
        NoLayerOverShallow(layout, decisions, d, dl, l);
      }
    }
  }

  lemma NoLayerOverShallow(layout: Layout, decisions: seq<Decision>, d: Decision, dl: Decision, l: Path)
    requires Scanned(decisions) && WholeOverlay(decisions) && d in decisions
    requires IsShallow(layout, decisions, true, d)
    requires dl in decisions && LayerOf(layout, decisions, true, dl) == Some(l)
    ensures !(l <= d.entry.relative)
  {
    var r, rl := d.entry.relative, dl.entry.relative;
    assert l == rl[..|l|];
    if |l| >= 2 { RootLenOfPrefix(layout, l, rl); }
    if l <= r && |l| >= 2 { RootLenOfPrefix(layout, l, r); }
    if |rl| == RootLen(layout, rl) && dl.entry.replace {
      PrefixIsAncestor(l, r, ReplacedRoots(layout, decisions));
    } else {
      assert |l| == RootLen(layout, rl) + 1;
    }
  }

  /** Neither a layer nor a single file is at or below a blocked path. */
  lemma BlockedReachesNoOverlay(view: RulesView, layout: Layout, entries: seq<ModuleEntry>, decisions: seq<Decision>,
                                whole: bool, blocked: Path)
    requires forall d :: d in decisions ==> Kept(layout, BlockedBy(view, layout, entries), d.entry)
    requires blocked in BlockedBy(view, layout, entries)
    ensures forall l :: l in Layers(layout, decisions, whole) ==> !(blocked <= l)
    ensures forall d :: d in decisions && IsShallow(layout, decisions, whole, d) ==> !(blocked <= d.entry.relative)
  {
    forall l | l in Layers(layout, decisions, whole) ensures !(blocked <= l) {
      var d :| d in decisions && LayerOf(layout, decisions, whole, d) == Some(l);
      assert l <= d.entry.relative;
      assert !(blocked <= d.entry.relative);
    }
  }

  /** A module laid out as a whole goes onto a partition root only to replace it. */
  lemma RootLayerReplaces(layout: Layout, decisions: seq<Decision>, l: Path)
    requires l in Layers(layout, decisions, true) && l != [] && |l| == RootLen(layout, l)
    ensures l in ReplacedRoots(layout, decisions)
  {
    var d :| d in decisions && LayerOf(layout, decisions, true, d) == Some(l);
    if |l| >= 2 { RootLenOfPrefix(layout, l, d.entry.relative); }
  }

  function RootOf(layout: Layout, partition: string): Path {
    if partition in layout.roots then layout.roots[partition] else [partition]
  }

  /** A layer shows an entry at the entry's own target, unless the layer is the bare
      system directory and the entry belongs to another partition that is not
      mounted below the system root. */
  lemma LayerShowsAtTarget(layout: Layout, l: Path, r: Path)
    requires l != [] && l <= r && MapTarget(layout, l).Some? && MapTarget(layout, r).Some?
    ensures MapTarget(layout, r).value.1 == MapTarget(layout, l).value.1 + r[|l|..] <==>
            !(l == ["system"] && RootLen(layout, r) == 2
              && RootOf(layout, LogicalPartition(layout, r)) !=
                 RootOf(layout, "system") + [LogicalPartition(layout, r)])
  {
    var p := LogicalPartition(layout, r);
    var n := RootLen(layout, r);
    assert MapTarget(layout, r).value.1 == RootOf(layout, p) + r[n..];
    if |l| >= 2 {
      RootLenOfPrefix(layout, l, r);
      assert r[n..] == l[n..] + r[|l|..];
    } else {
      assert l == [r[0]] && l[1..] == [];
      assert MapTarget(layout, l).value.1 == RootOf(layout, r[0]) + [];
      if n == 2 {
        assert RootOf(layout, "system") + r[1..] == RootOf(layout, "system") + [p] + r[2..];
        SameFront(RootOf(layout, p), RootOf(layout, "system") + [p], r[2..]);
      }
    }
  }

  lemma SameFront(a: Path, b: Path, rest: Path)
    ensures a + rest == b + rest <==> a == b
  {
    if a + rest == b + rest {
      assert |a| == |b|;
      assert a == (a + rest)[..|a|] && b == (b + rest)[..|b|];
    }
  }
}
