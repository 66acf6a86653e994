/// The planner (`build_plan`, src/plan/mod.rs): every module's contributions go
/// into the shared tree and the overlay tables, then the whole is checked.
module Planner {
  import opened FileTrees
  import opened ModulePlan
  import opened MountTrees
  import opened Partitions
  import opened PlanConflicts
  import opened Wrappers

  datatype ModuleRecord = ModuleRecord(id: string, sourcePath: Path, entries: seq<ModuleEntry>, view: RulesView)

  datatype Outcome = Planned | Invalid | InConflict(conflict: Conflict)

  ghost predicate KeptDecision(m: ModuleRecord, layout: Layout, d: Decision) {
    d.entry in m.entries && Kept(layout, BlockedBy(m.view, layout, m.entries), d.entry)
    && d.mode == ResolveMode(m.view, d.entry.relative)
  }

  /** The decisions about a module, in the order of its entries. */
  function DecisionsOf(m: ModuleRecord, layout: Layout): (decisions: seq<Decision>)
    ensures forall d :: d in decisions <==> KeptDecision(m, layout, d)
  {
    KeptEntries(m.view, layout, BlockedBy(m.view, layout, m.entries), m.entries)
  }

  /** Whether a kept entry of a module is at a path no module may use. */
  ghost predicate HasInvalidPath(m: ModuleRecord, layout: Layout) {
    exists d :: KeptDecision(m, layout, d) && !ValidRelative(d.entry.relative)
  }

  function SourceOf(m: ModuleRecord, d: Decision): MountSource {
    MountSource(m.id, d.entry.relative, m.sourcePath + d.entry.relative, d.entry.fileType, d.entry.replace, d.mode)
  }

  /** What the kept entries of a module contribute to the tree. */
  ghost predicate Contributes(m: ModuleRecord, layout: Layout, c: Contribution) {
    exists d :: KeptDecision(m, layout, d) && MapTarget(layout, d.entry.relative).Some?
                && c == Contribution(MapTarget(layout, d.entry.relative).value.1, SourceOf(m, d))
  }

  function Lookup(table: map<Path, map<string, Path>>, target: Path, id: string): Option<Path> {
    if target in table && id in table[target] then Some(table[target][id]) else None
  }

  predicate Listed(table: map<Path, set<(string, Path)>>, target: Path, id: string, source: Path) {
    target in table && (id, source) in table[target]
  }

  predicate WholeModule(m: ModuleRecord, decisions: seq<Decision>) {
    && (forall d :: d in decisions ==> d.mode.Overlay?)
    && (m.view.defaultMode.Overlay? || exists r :: r in m.view.pathRules && r.0 == ["system"] && r.1.Overlay?)
  }

  /** The layer a module ends up with at a target: the last of its first `n` entries
      with one there decides. */
  function LayerFor(m: ModuleRecord, layout: Layout, decisions: seq<Decision>, whole: bool, n: nat,
                    t: Path): Option<Path>
    requires n <= |decisions|
  {
    if n == 0 then None
    else
      var l := LayerOf(layout, decisions, whole, decisions[n-1]);
      if l.Some? && At(layout, l.value, t) then Some(m.sourcePath + l.value)
      else LayerFor(m, layout, decisions, whole, n - 1, t)
  }

  predicate At(layout: Layout, path: Path, t: Path) {
    MapTarget(layout, path).Some? && MapTarget(layout, path).value.1 == t
  }

  /** The layer table after the first `n` entries of a module. */
  ghost predicate LayersAdded(was: map<Path, map<string, Path>>, now: map<Path, map<string, Path>>,
                              m: ModuleRecord, layout: Layout, decisions: seq<Decision>, whole: bool, n: nat)
    requires n <= |decisions|
  {
    forall t, id :: Lookup(now, t, id) ==
                    var own := LayerFor(m, layout, decisions, whole, n, t);
                    if id == m.id && own.Some? then own else Lookup(was, t, id)
  }

  /** The single files after the first `n` entries of a module. */
  ghost predicate FilesAdded(was: map<Path, set<(string, Path)>>, now: map<Path, set<(string, Path)>>,
                             m: ModuleRecord, layout: Layout, decisions: seq<Decision>, whole: bool, n: nat)
    requires n <= |decisions|
  {
    forall t, id, s :: Listed(now, t, id, s) <==>
                       Listed(was, t, id, s) || (id == m.id && FileFor(m, layout, decisions, whole, n, t, s))
  }

  predicate FileFor(m: ModuleRecord, layout: Layout, decisions: seq<Decision>, whole: bool, n: nat, t: Path, s: Path)
    requires n <= |decisions|
  {
    exists i :: 0 <= i < n && IsShallow(layout, decisions, whole, decisions[i])
                && FileAt(m, layout, decisions[i].entry.relative, t, s)
  }

  predicate FileAt(m: ModuleRecord, layout: Layout, f: Path, t: Path, s: Path) {
    f != [] && s == m.sourcePath + f && At(layout, f[..|f|-1], t)
  }

  predicate Whole(m: ModuleRecord, layout: Layout) {
    WholeModule(m, DecisionsOf(m, layout))
  }

  /** The layer that a module brings to a target. */
  function ModuleLayer(m: ModuleRecord, layout: Layout, t: Path): Option<Path> {
    var decisions := DecisionsOf(m, layout);
    LayerFor(m, layout, decisions, WholeModule(m, decisions), |decisions|, t)
  }

  /** Whether a module has a single file bound into the overlay of a directory. */
  predicate ModuleFile(m: ModuleRecord, layout: Layout, t: Path, source: Path) {
    var decisions := DecisionsOf(m, layout);
    FileFor(m, layout, decisions, WholeModule(m, decisions), |decisions|, t, source)
  }

  ghost predicate LayersOfModule(was: map<Path, map<string, Path>>, now: map<Path, map<string, Path>>,
                                 m: ModuleRecord, layout: Layout)
  {
    var decisions := DecisionsOf(m, layout);
    LayersAdded(was, now, m, layout, decisions, WholeModule(m, decisions), |decisions|)
  }

  ghost predicate FilesOfModule(was: map<Path, set<(string, Path)>>, now: map<Path, set<(string, Path)>>,
                                m: ModuleRecord, layout: Layout)
  {
    var decisions := DecisionsOf(m, layout);
    FilesAdded(was, now, m, layout, decisions, WholeModule(m, decisions), |decisions|)
  }

  /** A module spells no partition in two ways. */
  ghost predicate SingleSpelling(layout: Layout, paths: set<Path>) {
    forall a, b :: a in paths && b in paths && a != [] && b != [] ==>
      Canonical(layout, a) == Canonical(layout, b) ==> a == b
  }

  lemma {:induction false} LayerForIs(m: ModuleRecord, layout: Layout, decisions: seq<Decision>, whole: bool, n: nat,
                                      t: Path)
    requires n <= |decisions|
    ensures LayerFor(m, layout, decisions, whole, n, t).Some? ==>
              exists l :: l in Layers(layout, decisions, whole) && At(layout, l, t)
                  && LayerFor(m, layout, decisions, whole, n, t) == Some(m.sourcePath + l)
    ensures LayerFor(m, layout, decisions, whole, n, t).None? ==>
              forall i :: 0 <= i < n && LayerOf(layout, decisions, whole, decisions[i]).Some? ==>
                !At(layout, LayerOf(layout, decisions, whole, decisions[i]).value, t)
  {
    if n > 0 {
      assert decisions[n-1] in decisions;
      LayerForIs(m, layout, decisions, whole, n - 1, t);
    }
  }

  lemma LayerHasTarget(m: ModuleRecord, layout: Layout, decisions: seq<Decision>, whole: bool, l: Path, t: Path)
    requires l in Layers(layout, decisions, whole) && At(layout, l, t)
    ensures exists k :: k in Layers(layout, decisions, whole) && At(layout, k, t)
                        && LayerFor(m, layout, decisions, whole, |decisions|, t) == Some(m.sourcePath + k)
  {
    LayerForIs(m, layout, decisions, whole, |decisions|, t);
    var d :| d in decisions && LayerOf(layout, decisions, whole, d) == Some(l);
    var i :| 0 <= i < |decisions| && decisions[i] == d;
  }

  predicate Survives(m: ModuleRecord, layout: Layout, decisions: seq<Decision>, whole: bool, l: Path) {
    MapTarget(layout, l).Some?
    && LayerFor(m, layout, decisions, whole, |decisions|, MapTarget(layout, l).value.1) == Some(m.sourcePath + l)
  }

  /** The table keeps one directory per module and target: every layer of a module
      survives exactly when the module spells no partition in two ways. */
  lemma LayersSurvive(m: ModuleRecord, layout: Layout, decisions: seq<Decision>, whole: bool)
    requires StandardRoots(layout) && forall l :: l in Layers(layout, decisions, whole) ==> MapTarget(layout, l).Some?
    ensures SingleSpelling(layout, Layers(layout, decisions, whole)) <==>
            forall l :: l in Layers(layout, decisions, whole) ==> Survives(m, layout, decisions, whole, l)
  {
    var layers := Layers(layout, decisions, whole);
    if SingleSpelling(layout, layers) {
      forall l | l in layers ensures Survives(m, layout, decisions, whole, l) {
        var t := MapTarget(layout, l).value.1;
        LayerHasTarget(m, layout, decisions, whole, l, t);
        var k :| k in layers && At(layout, k, t)
                 && LayerFor(m, layout, decisions, whole, |decisions|, t) == Some(m.sourcePath + k);
        SameTarget(layout, k, l);
      }
    }
    if forall l :: l in layers ==> Survives(m, layout, decisions, whole, l) {
      forall a, b | a in layers && b in layers && a != [] && b != [] && Canonical(layout, a) == Canonical(layout, b)
        ensures a == b
      {
        SameTarget(layout, a, b);
        assert Survives(m, layout, decisions, whole, a) && Survives(m, layout, decisions, whole, b);
        assert (m.sourcePath + a)[|m.sourcePath|..] == a && (m.sourcePath + b)[|m.sourcePath|..] == b;
      }
    }
  }

  predicate Nested(layout: Layout, p: Path) {
    p != [] && RootLen(layout, p) == 2
  }

  /** No entry is reached through `system` in a partition another one names directly. */
  ghost predicate OneSpelling(layout: Layout, decisions: seq<Decision>) {
    forall a, b :: a in decisions && Nested(layout, a.entry.relative) && b in decisions && b.entry.relative != [] ==>
                     b.entry.relative[0] != a.entry.relative[1]
  }

  /** A layer begins like the entry it is there for. */
  lemma LayerBegins(layout: Layout, decisions: seq<Decision>, whole: bool, l: Path) returns (d: Decision)
    requires l in Layers(layout, decisions, whole) && l != []
    ensures d in decisions && d.entry.relative != [] && d.entry.relative[0] == l[0]
    ensures Nested(layout, l) ==> Nested(layout, d.entry.relative) && d.entry.relative[1] == l[1]
  {
    d :| d in decisions && LayerOf(layout, decisions, whole, d) == Some(l);
    if |l| >= 2 { RootLenOfPrefix(layout, l, d.entry.relative); }
  }

  lemma OneOfEach(layout: Layout, a: Path, b: Path)
    requires a != [] && b != [] && Canonical(layout, a) == Canonical(layout, b)
    requires Nested(layout, a) ==> b[0] != a[1]
    requires Nested(layout, b) ==> a[0] != b[1]
    ensures a == b
  {
    if Nested(layout, a) { assert a == ["system"] + a[1..]; }
    if Nested(layout, b) { assert b == ["system"] + b[1..]; }
  }

  /** Then its layers are spelled in one way too. */
  lemma LayersKeepSpelling(layout: Layout, decisions: seq<Decision>, whole: bool)
    requires OneSpelling(layout, decisions)
    ensures SingleSpelling(layout, Layers(layout, decisions, whole))
  {
    var layers := Layers(layout, decisions, whole);
    forall a, b | a in layers && b in layers && a != [] && b != [] && Canonical(layout, a) == Canonical(layout, b)
      ensures a == b
    {
      var da := LayerBegins(layout, decisions, whole, a);
      var db := LayerBegins(layout, decisions, whole, b);
      OneOfEach(layout, a, b);
    }
  }

  /** No active replacement, link or removal that a module contributes covers a protected path. */
  lemma ContributionProtects(m: ModuleRecord, layout: Layout, c: Contribution)
    requires Contributes(m, layout, c) && Active(c.source)
    requires c.source.replace || c.source.fileType.Symlink? || c.source.fileType.Whiteout?
    ensures Spares(layout, c.target, c.source.fileType)
  {
    var d :| KeptDecision(m, layout, d) && MapTarget(layout, d.entry.relative).Some?
             && c == Contribution(MapTarget(layout, d.entry.relative).value.1, SourceOf(m, d));
    KeptIsHarmless(m.view, layout, m.entries, d);
  }

  /** A kept, active entry whose target covers a protected path. */
  ghost predicate CoveringDecision(m: ModuleRecord, layout: Layout, d: Decision) {
    && KeptDecision(m, layout, d) && d.mode != Ignore && MapTarget(layout, d.entry.relative).Some?
    && !Spares(layout, MapTarget(layout, d.entry.relative).value.1, d.entry.fileType)
  }

  /** A module with one entry above a mount point. */
  lemma EntryAboveMount(kind: NodeFileType) returns (m: ModuleRecord, layout: Layout, d: Decision)
    requires kind.Directory? || kind.RegularFile?
    ensures CoveringDecision(m, layout, d) && d.entry.fileType == kind && !d.entry.replace
  {
    layout := Layout(map["system" := ["system"]], map[], map[], {["system", "a", "b"]});
    var e := ModuleEntry(["system", "a"], kind, false, false, None);
    m, d := ModuleRecord("m", ["m"], [e], RulesView(Overlay, [])), Decision(e, Overlay);
    assert ValidComponent("system") && ValidComponent("a");
    assert ["system"] + e.relative[1..] == ["system", "a"];
    assert ["system", "a"] == ["system", "a", "b"][..2] && ["system", "a", "b"] in layout.mountPoints;
    assert Hides(["system", "a"], ["system", "a", "b"], kind);
    assert BlockedBy(m.view, layout, m.entries) == {};
    assert e in m.entries;
  }

  /** Exactly plain directories and regular files are kept above protected paths: a
      directory leaves what is below it, a file does not. */
  lemma OnlyPlainEntriesCover(kind: NodeFileType, replace: bool)
    ensures (exists m, layout, d :: CoveringDecision(m, layout, d)
                                    && d.entry.fileType == kind && d.entry.replace == replace)
            <==> !replace && (kind.Directory? || kind.RegularFile?)
  {
    if !replace && (kind.Directory? || kind.RegularFile?) {
      var m, layout, d := EntryAboveMount(kind);
    }
    forall m, layout, d | CoveringDecision(m, layout, d) && d.entry.fileType == kind && d.entry.replace == replace
      ensures !replace && (kind.Directory? || kind.RegularFile?)
    {
      if Destructive(d.entry) { KeptIsHarmless(m.view, layout, m.entries, d); }
    }
  }

  class Planner {
    const builder: PlanBuilder
    /** target -> module -> the module directory used there as a lower layer. */
    var overlayByTarget: map<Path, map<string, Path>>
    /** parent directory -> the single files bound into its overlay. */
    var overlayFiles: map<Path, set<(string, Path)>>

    constructor ()
      ensures builder.Valid() && builder.contributions == [] && fresh(builder)
      ensures overlayByTarget == map[] && overlayFiles == map[]
    {
      builder := new PlanBuilder();
      overlayByTarget, overlayFiles := map[], map[];
    }

    method AddOverlayLayer(target: Path, id: string, source: Path)
      modifies this`overlayByTarget
      ensures forall t, i :: Lookup(overlayByTarget, t, i) ==
                             if t == target && i == id then Some(source) else Lookup(old(overlayByTarget), t, i)
    {
      var layers := if target in overlayByTarget then overlayByTarget[target] else map[];
      overlayByTarget := overlayByTarget[target := layers[id := source]];
    }

    method AddOverlayFile(target: Path, id: string, source: Path)
      modifies this`overlayFiles
      ensures forall t, i, s :: Listed(overlayFiles, t, i, s) <==>
                                Listed(old(overlayFiles), t, i, s) || (t == target && i == id && s == source)
    {
      var files := if target in overlayFiles then overlayFiles[target] else {};
      overlayFiles := overlayFiles[target := files + {(id, source)}];
    }

    /** The entries of a module, one by one, into the tree. */
    method ContributeAll(m: ModuleRecord, layout: Layout, decisions: seq<Decision>) returns (r: Outcome)
      requires builder.Valid() && forall d :: d in decisions ==> KeptDecision(m, layout, d)
      modifies builder
      ensures r.Planned? ==> builder.Valid() && forall c :: c in builder.contributions <==>
                             c in old(builder.contributions) || ContributedBy(m, layout, decisions, c)
      ensures r.Planned? ==> forall d :: d in decisions ==> MapTarget(layout, d.entry.relative).Some?
      ensures r.Invalid? ==> exists d :: d in decisions && MapTarget(layout, d.entry.relative).None?
      ensures r.InConflict? ==> Reported(r.conflict, builder.contributions)
      ensures forall c :: c in builder.contributions ==>
                c in old(builder.contributions) || ContributedBy(m, layout, decisions, c)
    {
      for i := 0 to |decisions|
        invariant builder.Valid()
        invariant forall d :: d in decisions[..i] ==> MapTarget(layout, d.entry.relative).Some?
        invariant forall c :: c in builder.contributions <==>
                    c in old(builder.contributions) || ContributedBy(m, layout, decisions[..i], c)
      {
        assert decisions[..i+1] == decisions[..i] + [decisions[i]];
        MoreContributed(m, layout, decisions, i);
        var d := decisions[i];
        var target := MapTarget(layout, d.entry.relative);
        if target.None? {
          assert d in decisions;
          return Invalid;
        }
        var conflict := builder.Contribute(target.value.1, SourceOf(m, d));
        if conflict.Some? { return InConflict(conflict.value); }
      }
      assert decisions[..|decisions|] == decisions;
      r := Planned;
    }

    /** The overlay layer or single file of one entry. */
    method AddOverlay(m: ModuleRecord, layout: Layout, decisions: seq<Decision>, whole: bool, i: nat)
      returns (r: Outcome)
      requires i < |decisions| && MapTarget(layout, decisions[i].entry.relative).Some?
      modifies this`overlayByTarget, this`overlayFiles
      ensures !r.InConflict?
      ensures r.Planned? ==> forall was :: LayersAdded(was, old(overlayByTarget), m, layout, decisions, whole, i) ==>
                                           LayersAdded(was, overlayByTarget, m, layout, decisions, whole, i + 1)
      ensures r.Planned? ==> forall was :: FilesAdded(was, old(overlayFiles), m, layout, decisions, whole, i) ==>
                                           FilesAdded(was, overlayFiles, m, layout, decisions, whole, i + 1)
      ensures r.Invalid? ==> !whole && "system" in layout.errors
    {
      var d := decisions[i];
      var layer := LayerOf(layout, decisions, whole, d);
      if layer.Some? {
        LayerMaps(layout, decisions, whole, d);
        AddOverlayLayer(MapTarget(layout, layer.value).value.1, m.id, m.sourcePath + layer.value);
      }
      if IsShallow(layout, decisions, whole, d) {
        var f := d.entry.relative;
        var parent := MapTarget(layout, f[..|f|-1]);
        ParentMaps(layout, decisions, whole, d);
        if parent.None? { return Invalid; }
        AddOverlayFile(parent.value.1, m.id, m.sourcePath + f);
      }
      forall was | FilesAdded(was, old(overlayFiles), m, layout, decisions, whole, i)
        ensures FilesAdded(was, overlayFiles, m, layout, decisions, whole, i + 1)
      {
        forall t, s ensures FileFor(m, layout, decisions, whole, i + 1, t, s) <==>
                            FileFor(m, layout, decisions, whole, i, t, s)
                            || (IsShallow(layout, decisions, whole, d) && FileAt(m, layout, d.entry.relative, t, s))
        {}
      }
      r := Planned;
    }

    /** The overlay layers and single files of a module. */
    method AddOverlays(m: ModuleRecord, layout: Layout, decisions: seq<Decision>, whole: bool) returns (r: Outcome)
      requires forall d :: d in decisions ==> MapTarget(layout, d.entry.relative).Some?
      modifies this`overlayByTarget, this`overlayFiles
      ensures !r.InConflict?
      ensures r.Planned? ==>
                LayersAdded(old(overlayByTarget), overlayByTarget, m, layout, decisions, whole, |decisions|)
      ensures r.Planned? ==> FilesAdded(old(overlayFiles), overlayFiles, m, layout, decisions, whole, |decisions|)
      ensures r.Invalid? ==> !whole && "system" in layout.errors
    {
      for i := 0 to |decisions|
        invariant LayersAdded(old(overlayByTarget), overlayByTarget, m, layout, decisions, whole, i)
        invariant FilesAdded(old(overlayFiles), overlayFiles, m, layout, decisions, whole, i)
      {
        assert decisions[i] in decisions;
        r := AddOverlay(m, layout, decisions, whole, i);
        if !r.Planned? { return; }
      }
      r := Planned;
    }

    /** `process_module`. */
    method ProcessModule(m: ModuleRecord, layout: Layout) returns (r: Outcome)
      requires builder.Valid()
      modifies this`overlayByTarget, this`overlayFiles, builder
      ensures forall c :: c in builder.contributions ==> c in old(builder.contributions) || Contributes(m, layout, c)
      ensures r.Planned? ==> builder.Valid()
      ensures r.Planned? ==> forall c :: c in builder.contributions <==>
                (c in old(builder.contributions) || Contributes(m, layout, c))
      ensures r.Planned? ==> LayersOfModule(old(overlayByTarget), overlayByTarget, m, layout)
      ensures r.Planned? ==> FilesOfModule(old(overlayFiles), overlayFiles, m, layout)
      ensures r.InConflict? ==> Reported(r.conflict, builder.contributions)
      ensures r.Invalid? ==>
                "system" in layout.errors || HasInvalidPath(m, layout)
    {
      var kept := Decide(m.view, layout, m.entries);
      assert kept == DecisionsOf(m, layout);
      forall c ensures ContributedBy(m, layout, kept, c) <==> Contributes(m, layout, c) {}
      r := ContributeAll(m, layout, kept);
      if !r.Planned? { return; }
      if !(exists d :: d in kept && d.mode.Overlay?) {
        NoOverlays(m, layout, kept, WholeModule(m, kept));
        return;
      }
      r := AddOverlays(m, layout, kept, WholeModule(m, kept));
    }
  }

  /** Without an overlay entry a module leaves the overlay tables as they are. */
  lemma NoOverlays(m: ModuleRecord, layout: Layout, decisions: seq<Decision>, whole: bool)
    requires forall d :: d in decisions ==> !d.mode.Overlay?
    ensures forall t :: LayerFor(m, layout, decisions, whole, |decisions|, t).None?
    ensures forall t, s :: !FileFor(m, layout, decisions, whole, |decisions|, t, s)
  {
    forall t ensures LayerFor(m, layout, decisions, whole, |decisions|, t).None? {
      LayerForIs(m, layout, decisions, whole, |decisions|, t);
    }
  }

  ghost predicate Planning(modules: seq<ModuleRecord>, layout: Layout, c: Contribution) {
    exists m :: m in modules && Contributes(m, layout, c)
  }

  /** What `build_plan` returns. */
  datatype MountPlan = MountPlan(
    tree: MountNode, overlayByTarget: map<Path, map<string, Path>>, overlayFiles: map<Path, set<(string, Path)>>)

  /** The layer of a target that a list of modules leaves under an ID: that of the last
      module of this ID which has one. */
  function PlannedLayer(modules: seq<ModuleRecord>, layout: Layout, t: Path, id: string): Option<Path> {
    if modules == [] then None
    else
      var m := modules[|modules|-1];
      if m.id == id && ModuleLayer(m, layout, t).Some? then ModuleLayer(m, layout, t)
      else PlannedLayer(modules[..|modules|-1], layout, t, id)
  }

  predicate PlannedFile(modules: seq<ModuleRecord>, layout: Layout, t: Path, id: string, source: Path) {
    exists m :: m in modules && m.id == id && ModuleFile(m, layout, t, source)
  }

  /** The tables hold the layers and the single files of the modules, and nothing else. */
  ghost predicate TablesHold(modules: seq<ModuleRecord>, layout: Layout,
                             layers: map<Path, map<string, Path>>, files: map<Path, set<(string, Path)>>)
  {
    && (forall t, id :: Lookup(layers, t, id) == PlannedLayer(modules, layout, t, id))
    && (forall t, id, s :: Listed(files, t, id, s) <==> PlannedFile(modules, layout, t, id, s))
  }

  /** The tree and the tables of a plan hold what the modules contribute, and nothing else. */
  ghost predicate PlanHolds(modules: seq<ModuleRecord>, layout: Layout, plan: MountPlan) {
    && (forall t, s :: Occurs(plan.tree, t, s) <==> Planning(modules, layout, Contribution(t, s)))
    && SortedTree(plan.tree)
    && TablesHold(modules, layout, plan.overlayByTarget, plan.overlayFiles)
  }

  lemma NextModule(modules: seq<ModuleRecord>, layout: Layout, i: nat,
                   layers: map<Path, map<string, Path>>, files: map<Path, set<(string, Path)>>,
                   layers': map<Path, map<string, Path>>, files': map<Path, set<(string, Path)>>)
    requires i < |modules| && TablesHold(modules[..i], layout, layers, files)
    requires LayersOfModule(layers, layers', modules[i], layout) && FilesOfModule(files, files', modules[i], layout)
    ensures TablesHold(modules[..i+1], layout, layers', files')
  {
    assert modules[..i+1] == modules[..i] + [modules[i]] && modules[..i+1][..i] == modules[..i];
    forall t, id ensures Lookup(layers', t, id) == PlannedLayer(modules[..i+1], layout, t, id) {
      assert Lookup(layers, t, id) == PlannedLayer(modules[..i], layout, t, id);
    }
    forall t, id, s ensures Listed(files', t, id, s) <==> PlannedFile(modules[..i+1], layout, t, id, s) {
      assert Listed(files, t, id, s) <==> PlannedFile(modules[..i], layout, t, id, s);
      assert PlannedFile(modules[..i+1], layout, t, id, s) <==>
             PlannedFile(modules[..i], layout, t, id, s)
                 || (modules[i].id == id && ModuleFile(modules[i], layout, t, s));
    }
  }

  /** `build_plan`: on valid module paths and a usable system directory the plan
      fails exactly when two kept entries conflict, and names two that do. A plan that
      is built holds every module's contributions, layers and single files. */
  method BuildPlan(modules: seq<ModuleRecord>, layout: Layout) returns (r: Outcome, plan: MountPlan)
    ensures r.Planned? ==> PlanHolds(modules, layout, plan)
    ensures r.Planned? ==> forall a, b :: Planning(modules, layout, a) && Planning(modules, layout, b) ==>
              !Conflicting(a, b)
    ensures r.InConflict? ==>
              exists a, b :: Planning(modules, layout, a) && Planning(modules, layout, b) && Conflicting(a, b)
                                             && r.conflict.first == a.source && r.conflict.second == b.source
                                             && (r.conflict.target == a.target || r.conflict.target == b.target)
    ensures r.Invalid? ==> "system" in layout.errors
                           || exists m :: m in modules && HasInvalidPath(m, layout)
  {
    var planner := new Planner();
    var builder := planner.builder;
    plan := MountPlan(NO_NODE, map[], map[]);
    hide LayersAdded, FilesAdded, LayersOfModule, FilesOfModule, TablesHold, Contributes, KeptDecision;
    assert TablesHold(modules[..0], layout, planner.overlayByTarget, planner.overlayFiles) by {
      NoModules(layout);
    }
    for i := 0 to |modules|
      invariant builder == planner.builder && builder.Valid() && fresh(builder) && fresh(planner)
      invariant forall c :: c in builder.contributions <==> Planning(modules[..i], layout, c)
      invariant TablesHold(modules[..i], layout, planner.overlayByTarget, planner.overlayFiles)
    {
      assert modules[..i+1] == modules[..i] + [modules[i]];
      assert modules[i] in modules;
      ghost var layers, files := planner.overlayByTarget, planner.overlayFiles;
      r := planner.ProcessModule(modules[i], layout);
      forall c ensures Planning(modules[..i+1], layout, c) <==>
                Planning(modules[..i], layout, c) || Contributes(modules[i], layout, c) {}
      if r.InConflict? {
        assert forall c :: Planning(modules[..i+1], layout, c) ==> Planning(modules, layout, c);
        return;
      }
      if r.Invalid? { return; }
      NextModule(modules, layout, i, layers, files, planner.overlayByTarget, planner.overlayFiles);
    }
    assert modules[..|modules|] == modules;
    var conflict := builder.CheckTree();
    if conflict.Some? { return InConflict(conflict.value), plan; }
    r, plan := Planned, MountPlan(builder.tree, planner.overlayByTarget, planner.overlayFiles);
  }

  lemma NoModules(layout: Layout)
    ensures TablesHold([], layout, map[], map[])
  {
  }

  ghost predicate ContributedBy(m: ModuleRecord, layout: Layout, decisions: seq<Decision>, c: Contribution) {
    exists d :: d in decisions && MapTarget(layout, d.entry.relative).Some?
                && c == Contribution(MapTarget(layout, d.entry.relative).value.1, SourceOf(m, d))
  }

  lemma MoreContributed(m: ModuleRecord, layout: Layout, decisions: seq<Decision>, i: nat)
    requires i < |decisions|
    ensures forall c :: ContributedBy(m, layout, decisions[..i+1], c) <==>
                        (ContributedBy(m, layout, decisions[..i], c) || ContributedBy(m, layout, [decisions[i]], c))
    ensures forall c :: ContributedBy(m, layout, decisions[..i+1], c) ==> ContributedBy(m, layout, decisions, c)
    ensures forall c :: ContributedBy(m, layout, decisions[..i], c) ==> ContributedBy(m, layout, decisions, c)
    ensures MapTarget(layout, decisions[i].entry.relative).Some? ==>
              forall c :: ContributedBy(m, layout, [decisions[i]], c) <==>
              c == Contribution(MapTarget(layout, decisions[i].entry.relative).value.1, SourceOf(m, decisions[i]))
  {
    assert decisions[..i+1] == decisions[..i] + [decisions[i]];
    assert decisions[i] in [decisions[i]];
  }

  lemma LayerMaps(layout: Layout, decisions: seq<Decision>, whole: bool, d: Decision)
    requires LayerOf(layout, decisions, whole, d).Some? && MapTarget(layout, d.entry.relative).Some?
    ensures MapTarget(layout, LayerOf(layout, decisions, whole, d).value).Some?
  {
    var l, r := LayerOf(layout, decisions, whole, d).value, d.entry.relative;
    assert l == r[..|l|];
    if |l| >= 2 { RootLenOfPrefix(layout, l, r); }
    forall i | 0 <= i < |l| ensures ValidComponent(l[i]) { assert l[i] == r[i]; }
  }

  /** The parent of a single file is always a target, but for a file that stands for
      a partition in a system directory that cannot be used itself. */
  lemma ParentMaps(layout: Layout, decisions: seq<Decision>, whole: bool, d: Decision)
    requires IsShallow(layout, decisions, whole, d) && MapTarget(layout, d.entry.relative).Some?
    ensures MapTarget(layout, d.entry.relative[..|d.entry.relative|-1]).None? ==> !whole && "system" in layout.errors
  {
    var r := d.entry.relative;
    var p := r[..|r|-1];
    forall i | 0 <= i < |p| ensures ValidComponent(p[i]) { assert p[i] == r[i]; }
    if |p| >= 2 { RootLenOfPrefix(layout, p, r); }
  }

  // --- What a built plan guarantees ---------------------------------------

  ghost predicate UniqueIds(modules: seq<ModuleRecord>) {
    forall i, j :: 0 <= i < j < |modules| ==> modules[i].id != modules[j].id
  }

  /** With unique IDs the layer table holds each module's own layers. */
  lemma {:induction false} OwnLayer(modules: seq<ModuleRecord>, layout: Layout, m: ModuleRecord, t: Path)
    requires UniqueIds(modules) && m in modules
    ensures PlannedLayer(modules, layout, t, m.id) == ModuleLayer(m, layout, t)
  {
    var init, last := modules[..|modules|-1], modules[|modules|-1];
    if m == last {
      OtherIds(init, layout, t, m.id);
    } else {
      var i :| 0 <= i < |modules| && modules[i] == m;
      assert init[i] == m;
      OwnLayer(init, layout, m, t);
    }
  }

  lemma {:induction false} OtherIds(modules: seq<ModuleRecord>, layout: Layout, t: Path, id: string)
    requires forall i :: 0 <= i < |modules| ==> modules[i].id != id
    ensures PlannedLayer(modules, layout, t, id).None?
  {
    if modules != [] { OtherIds(modules[..|modules|-1], layout, t, id); }
  }

  /** The layers and the single files that a plan lists for a module are its own. */
  lemma OwnTables(modules: seq<ModuleRecord>, layout: Layout, plan: MountPlan, m: ModuleRecord)
    requires PlanHolds(modules, layout, plan) && UniqueIds(modules) && m in modules
    ensures forall t :: Lookup(plan.overlayByTarget, t, m.id) == ModuleLayer(m, layout, t)
    ensures forall t, s :: Listed(plan.overlayFiles, t, m.id, s) <==> ModuleFile(m, layout, t, s)
  {
    forall t ensures Lookup(plan.overlayByTarget, t, m.id) == ModuleLayer(m, layout, t) {
      OwnLayer(modules, layout, m, t);
    }
    forall t, s ensures Listed(plan.overlayFiles, t, m.id, s) <==> ModuleFile(m, layout, t, s) {
      assert Listed(plan.overlayFiles, t, m.id, s) <==> PlannedFile(modules, layout, t, m.id, s);
      if n :| n in modules && n.id == m.id {
        var i :| 0 <= i < |modules| && modules[i] == n;
        var j :| 0 <= j < |modules| && modules[j] == m;
        assert i == j;
      }
    }
  }

  /** Nothing of a module at or below one of its blocked paths is in a built plan:
      not in the tree, not as a layer, not as a single file. */
  lemma PlanAvoidsBlocked(modules: seq<ModuleRecord>, layout: Layout, plan: MountPlan, m: ModuleRecord, blocked: Path)
    requires PlanHolds(modules, layout, plan) && UniqueIds(modules) && m in modules
    requires blocked in BlockedBy(m.view, layout, m.entries)
    ensures forall t, s :: Occurs(plan.tree, t, s) && s.moduleId == m.id ==> !(blocked <= s.relative)
    ensures forall t :: Lookup(plan.overlayByTarget, t, m.id).Some? ==>
              !(m.sourcePath + blocked <= Lookup(plan.overlayByTarget, t, m.id).value)
    ensures forall t, s :: Listed(plan.overlayFiles, t, m.id, s) ==> !(m.sourcePath + blocked <= s)
  {
    var decisions, whole := DecisionsOf(m, layout), Whole(m, layout);
    OwnTables(modules, layout, plan, m);
    BlockedReachesNoOverlay(m.view, layout, m.entries, decisions, whole, blocked);
    forall t, s | Occurs(plan.tree, t, s) && s.moduleId == m.id ensures !(blocked <= s.relative) {
      assert Planning(modules, layout, Contribution(t, s));
      var n :| n in modules && Contributes(n, layout, Contribution(t, s));
      var i :| 0 <= i < |modules| && modules[i] == n;
      var j :| 0 <= j < |modules| && modules[j] == m;
      assert i == j;
    }
    forall t | Lookup(plan.overlayByTarget, t, m.id).Some?
      ensures !(m.sourcePath + blocked <= Lookup(plan.overlayByTarget, t, m.id).value)
    {
      LayerForIs(m, layout, decisions, whole, |decisions|, t);
      var l :| l in Layers(layout, decisions, whole) && Lookup(plan.overlayByTarget, t, m.id) == Some(m.sourcePath + l);
      BehindSource(m.sourcePath, blocked, l);
    }
    forall t, s | Listed(plan.overlayFiles, t, m.id, s) ensures !(m.sourcePath + blocked <= s) {
      var i :| 0 <= i < |decisions| && IsShallow(layout, decisions, whole, decisions[i])
               && FileAt(m, layout, decisions[i].entry.relative, t, s);
      assert decisions[i] in decisions;
      BehindSource(m.sourcePath, blocked, decisions[i].entry.relative);
    }
  }

  lemma BehindSource(source: Path, a: Path, b: Path)
    ensures source + a <= source + b <==> a <= b
    ensures source + a == source + b <==> a == b
  {
    assert a == (source + a)[|source|..] && b == (source + b)[|source|..];
    if source + a <= source + b { assert a == b[..|a|]; }
    if a <= b { assert source + a == (source + b)[..|source + a|]; }
  }

  /** No active replacement, link or removal in the tree of a built plan covers a
      protected path. */
  lemma PlanProtects(modules: seq<ModuleRecord>, layout: Layout, plan: MountPlan, t: Path, s: MountSource)
    requires PlanHolds(modules, layout, plan) && Occurs(plan.tree, t, s) && Active(s)
    requires s.replace || s.fileType.Symlink? || s.fileType.Whiteout?
    ensures Spares(layout, t, s.fileType)
  {
    var c := Contribution(t, s);
    assert Planning(modules, layout, c);
    var m :| m in modules && Contributes(m, layout, c);
    ContributionProtects(m, layout, c);
  }

  /** Nor does a link or a removal among its single files. */
  lemma PlanFilesProtect(modules: seq<ModuleRecord>, layout: Layout, plan: MountPlan, t: Path, id: string, s: Path)
    requires PlanHolds(modules, layout, plan) && Listed(plan.overlayFiles, t, id, s)
    ensures exists m, d :: m in modules && m.id == id && HarmlessFile(m, layout, d, s)
  {
    assert PlannedFile(modules, layout, t, id, s);
    var m :| m in modules && m.id == id && ModuleFile(m, layout, t, s);
    var decisions := DecisionsOf(m, layout);
    var i :| 0 <= i < |decisions| && IsShallow(layout, decisions, Whole(m, layout), decisions[i])
             && FileAt(m, layout, decisions[i].entry.relative, t, s);
    assert decisions[i] in decisions;
    ListedIsKept(m, layout, decisions[i], t, s);
  }

  lemma ListedIsKept(m: ModuleRecord, layout: Layout, d: Decision, t: Path, s: Path)
    requires d in DecisionsOf(m, layout) && IsShallow(layout, DecisionsOf(m, layout), Whole(m, layout), d)
    requires FileAt(m, layout, d.entry.relative, t, s)
    ensures HarmlessFile(m, layout, d, s)
  {
    KeptFileIsHarmless(m, layout, d);
  }

  lemma KeptFileIsHarmless(m: ModuleRecord, layout: Layout, d: Decision)
    requires KeptDecision(m, layout, d) && d.mode != Ignore
    ensures HarmlessFile(m, layout, d, m.sourcePath + d.entry.relative)
  {
    if Destructive(d.entry) && MapTarget(layout, d.entry.relative).Some? {
      KeptIsHarmless(m.view, layout, m.entries, d);
    }
  }

  /** A single file stands for a kept entry, which covers no protected path. */
  ghost predicate HarmlessFile(m: ModuleRecord, layout: Layout, d: Decision, source: Path) {
    && KeptDecision(m, layout, d) && source == m.sourcePath + d.entry.relative
    && (!Destructive(d.entry) || MapTarget(layout, d.entry.relative).None?
        || Spares(layout, MapTarget(layout, d.entry.relative).value.1, d.entry.fileType))
  }

  /** A layer of the module's table entry that holds an entry's file. */
  ghost predicate ServedByLayer(plan: MountPlan, m: ModuleRecord, t: Path, relative: Path) {
    Lookup(plan.overlayByTarget, t, m.id).Some?
        && Lookup(plan.overlayByTarget, t, m.id).value <= m.sourcePath + relative
  }

  /** In a built plan, a module that spells every partition in one way has each of its
      overlay entries below the partition roots served exactly once: by the layer of
      one target, or as a single file of one directory. */
  lemma PlanServesOnce(modules: seq<ModuleRecord>, layout: Layout, plan: MountPlan, m: ModuleRecord, d: Decision)
    requires PlanHolds(modules, layout, plan) && UniqueIds(modules) && m in modules
    requires StandardRoots(layout) && "system" !in layout.errors
    requires Scanned(DecisionsOf(m, layout)) && OneSpelling(layout, DecisionsOf(m, layout))
    requires d in DecisionsOf(m, layout) && d.mode.Overlay? && |d.entry.relative| > RootLen(layout, d.entry.relative)
    ensures (exists t :: Listed(plan.overlayFiles, t, m.id, m.sourcePath + d.entry.relative)) <==>
            !exists t :: ServedByLayer(plan, m, t, d.entry.relative)
    ensures forall t, u :: ServedByLayer(plan, m, t, d.entry.relative) ==>
              ServedByLayer(plan, m, u, d.entry.relative) ==> t == u
    ensures forall t, u :: Listed(plan.overlayFiles, t, m.id, m.sourcePath + d.entry.relative) ==>
              Listed(plan.overlayFiles, u, m.id, m.sourcePath + d.entry.relative) ==> t == u
  {
    var decisions, whole, r := DecisionsOf(m, layout), Whole(m, layout), d.entry.relative;
    OwnTables(modules, layout, plan, m);
    ServedOnce(layout, decisions, whole, d);
    ListedIsShallow(layout, m, d);
    TableCovers(layout, m, r);
    hide PlanHolds, UniqueIds, Scanned, OneSpelling, ModuleLayer, ModuleFile, Covered, IsShallow;
    forall t ensures ServedByLayer(plan, m, t, r) <==> LayerServes(m, layout, t, r) {}
    forall t, u | LayerServes(m, layout, t, r) && LayerServes(m, layout, u, r) ensures t == u {
      var a := ServingLayer(m, layout, t, r);
      var b := ServingLayer(m, layout, u, r);
      assert a == b;
    }
    forall t, u | ModuleFile(m, layout, t, m.sourcePath + r) && ModuleFile(m, layout, u, m.sourcePath + r)
      ensures t == u
    {
      BehindSource(m.sourcePath, r, r);
      FileHasOneParent(m, layout, t, r);
      FileHasOneParent(m, layout, u, r);
    }
  }

  predicate LayerServes(m: ModuleRecord, layout: Layout, t: Path, relative: Path) {
    ModuleLayer(m, layout, t).Some? && ModuleLayer(m, layout, t).value <= m.sourcePath + relative
  }

  lemma ServingLayer(m: ModuleRecord, layout: Layout, t: Path, relative: Path) returns (l: Path)
    requires LayerServes(m, layout, t, relative)
    ensures Covers(layout, DecisionsOf(m, layout), Whole(m, layout), l, relative) && At(layout, l, t)
  {
    var decisions, whole := DecisionsOf(m, layout), Whole(m, layout);
    LayerForIs(m, layout, decisions, whole, |decisions|, t);
    l :| l in Layers(layout, decisions, whole) && At(layout, l, t)
        && ModuleLayer(m, layout, t) == Some(m.sourcePath + l);
    BehindSource(m.sourcePath, l, relative);
  }

  /** The table covers an entry exactly when one of the module's layers does. */
  lemma TableCovers(layout: Layout, m: ModuleRecord, relative: Path)
    requires StandardRoots(layout) && Scanned(DecisionsOf(m, layout)) && OneSpelling(layout, DecisionsOf(m, layout))
    ensures (exists t :: LayerServes(m, layout, t, relative)) <==>
            Covered(layout, DecisionsOf(m, layout), Whole(m, layout), relative)
  {
    var decisions, whole := DecisionsOf(m, layout), Whole(m, layout);
    if t :| LayerServes(m, layout, t, relative) {
      var l := ServingLayer(m, layout, t, relative);
    }
    if l :| Covers(layout, decisions, whole, l, relative) {
      LayersMap(layout, m);
      LayersKeepSpelling(layout, decisions, whole);
      LayersSurvive(m, layout, decisions, whole);
      assert Survives(m, layout, decisions, whole, l);
      BehindSource(m.sourcePath, l, relative);
      assert LayerServes(m, layout, MapTarget(layout, l).value.1, relative);
    }
  }

  lemma LayersMap(layout: Layout, m: ModuleRecord)
    requires Scanned(DecisionsOf(m, layout))
    ensures forall l :: l in Layers(layout, DecisionsOf(m, layout), Whole(m, layout)) ==> MapTarget(layout, l).Some?
  {
    var decisions, whole := DecisionsOf(m, layout), Whole(m, layout);
    forall l | l in Layers(layout, decisions, whole) ensures MapTarget(layout, l).Some? {
      var d :| d in decisions && LayerOf(layout, decisions, whole, d) == Some(l);
      LayerMaps(layout, decisions, whole, d);
    }
  }

  /** An entry is listed exactly when it is to be bound on its own. */
  lemma ListedIsShallow(layout: Layout, m: ModuleRecord, d: Decision)
    requires Scanned(DecisionsOf(m, layout)) && d in DecisionsOf(m, layout) && "system" !in layout.errors
    ensures (exists t :: ModuleFile(m, layout, t, m.sourcePath + d.entry.relative)) <==>
            IsShallow(layout, DecisionsOf(m, layout), Whole(m, layout), d)
  {
    var decisions, whole, r := DecisionsOf(m, layout), Whole(m, layout), d.entry.relative;
    if t :| ModuleFile(m, layout, t, m.sourcePath + r) {
      var i :| 0 <= i < |decisions| && IsShallow(layout, decisions, whole, decisions[i])
               && FileAt(m, layout, decisions[i].entry.relative, t, m.sourcePath + r);
      BehindSource(m.sourcePath, decisions[i].entry.relative, r);
      assert decisions[i] in decisions;
    }
    if IsShallow(layout, decisions, whole, d) {
      ParentMaps(layout, decisions, whole, d);
      var i :| 0 <= i < |decisions| && decisions[i] == d;
      assert FileAt(m, layout, r, MapTarget(layout, r[..|r|-1]).value.1, m.sourcePath + r);
      assert ModuleFile(m, layout, MapTarget(layout, r[..|r|-1]).value.1, m.sourcePath + r);
    }
  }

  lemma FileHasOneParent(m: ModuleRecord, layout: Layout, t: Path, relative: Path)
    requires ModuleFile(m, layout, t, m.sourcePath + relative)
    ensures relative != [] && At(layout, relative[..|relative|-1], t)
  {
    var decisions := DecisionsOf(m, layout);
    var i :| 0 <= i < |decisions| && IsShallow(layout, decisions, Whole(m, layout), decisions[i])
             && FileAt(m, layout, decisions[i].entry.relative, t, m.sourcePath + relative);
    FileIsAt(m, layout, decisions[i].entry.relative, t, relative);
  }

  lemma FileIsAt(m: ModuleRecord, layout: Layout, f: Path, t: Path, relative: Path)
    requires FileAt(m, layout, f, t, m.sourcePath + relative)
    ensures f == relative && relative != [] && At(layout, relative[..|relative|-1], t)
  {
    BehindSource(m.sourcePath, f, relative);
  }

  // --- Two spellings ------------------------------------------------------

  lemma ResolvesTwo(a: Path, b: Path, mode: Mode)
    requires !(a <= b)
    ensures ResolveMode(RulesView(Ignore, [(a, mode), (b, mode)]), a) == mode
    ensures ResolveMode(RulesView(Ignore, [(a, mode), (b, mode)]), b) == mode
  {
    assert [(a, mode), (b, mode)][1..] == [(b, mode)];
    assert b <= b && FirstRule([(b, mode)], b, Ignore) == mode;
  }

  /** Two plain overlay directories are both kept. */
  lemma KeepsTwo(m: ModuleRecord, layout: Layout, a: ModuleEntry, b: ModuleEntry)
    requires m.entries == [a, b] && ResolveMode(m.view, a.relative).Overlay? && ResolveMode(m.view, b.relative).Overlay?
    requires !Destructive(a) && !a.directoryRemove && !Destructive(b) && !b.directoryRemove
    requires Kept(layout, {}, a) && Kept(layout, {}, b)
    ensures DecisionsOf(m, layout) == [Decision(a, Overlay), Decision(b, Overlay)]
  {
    assert BlockedBy(m.view, layout, m.entries) == {};
    assert m.entries[..1] == [a] && [a][..0] == [];
    assert KeptEntries(m.view, layout, {}, [a]) == [Decision(a, Overlay)];
  }

  lemma BothNameVendorEtc(layout: Layout, nested: ModuleEntry, direct: ModuleEntry)
    requires layout == Layout(map["system" := ["system"], "vendor" := ["vendor"]], map[], map[], {})
    requires nested == ModuleEntry(["system", "vendor", "etc"], Directory, false, false, None)
    requires direct == ModuleEntry(["vendor", "etc"], Directory, false, false, None)
    ensures At(layout, nested.relative, ["vendor", "etc"]) && At(layout, direct.relative, ["vendor", "etc"])
    ensures ValidRelative(nested.relative) && ValidRelative(direct.relative)
    ensures Kept(layout, {}, nested) && Kept(layout, {}, direct)
    ensures !HasAncestorIn(nested.relative, {nested.relative, direct.relative})
    ensures !HasAncestorIn(direct.relative, {nested.relative, direct.relative})
  {
    assert ValidComponent("system") && ValidComponent("vendor") && ValidComponent("etc");
    assert ["vendor"] + nested.relative[2..] == ["vendor", "etc"];
    assert ["vendor"] + direct.relative[1..] == ["vendor", "etc"];
  }

  /** A module that reaches one directory of a partition through `system` and directly
      loses one of its layers: both go to one target, and the table keeps the last. */
  lemma TwoSpellingsLoseALayer() returns (layout: Layout, m: ModuleRecord, l: Path)
    ensures StandardRoots(layout) && Scanned(DecisionsOf(m, layout)) && !Whole(m, layout)
    ensures l in Layers(layout, DecisionsOf(m, layout), false)
    ensures !Survives(m, layout, DecisionsOf(m, layout), false, l)
  {
    layout := Layout(map["system" := ["system"], "vendor" := ["vendor"]], map[], map[], {});
    var nested := ModuleEntry(["system", "vendor", "etc"], Directory, false, false, None);
    var direct := ModuleEntry(["vendor", "etc"], Directory, false, false, None);
    m := ModuleRecord("m", ["m"], [nested, direct],
                      RulesView(Ignore, [(nested.relative, Overlay), (direct.relative, Overlay)]));
    l := nested.relative;
    BothNameVendorEtc(layout, nested, direct);
    hide LayerFor, Layers, LayerOf, KeptEntries, BlockedBy, FirstRule, ValidRelative, MapTarget, Kept, HasAncestorIn;
    ResolvesTwo(nested.relative, direct.relative, Overlay);
    KeepsTwo(m, layout, nested, direct);
    LastOfTwoWins(m, layout, Decision(nested, Overlay), Decision(direct, Overlay), ["vendor", "etc"]);
    BehindSource(m.sourcePath, l, direct.relative);
  }

  /** Of two directories that are layers of their own and share a target, the second is kept. */
  lemma LastOfTwoWins(m: ModuleRecord, layout: Layout, d: Decision, e: Decision, t: Path)
    requires d.mode.Overlay? && e.mode.Overlay? && d.entry.fileType.Directory? && e.entry.fileType.Directory?
    requires d.entry.relative != [] && e.entry.relative != []
    requires !HasAncestorIn(d.entry.relative, {d.entry.relative, e.entry.relative})
    requires !HasAncestorIn(e.entry.relative, {d.entry.relative, e.entry.relative})
    requires At(layout, d.entry.relative, t) && At(layout, e.entry.relative, t)
    ensures d.entry.relative in Layers(layout, [d, e], false)
    ensures LayerFor(m, layout, [d, e], false, 2, t) == Some(m.sourcePath + e.entry.relative)
  {
    assert OverlayPaths([d, e]) == {d.entry.relative, e.entry.relative} by { assert d in [d, e] && e in [d, e]; }
    assert LayerOf(layout, [d, e], false, d) == Some(d.entry.relative);
    assert LayerOf(layout, [d, e], false, e) == Some(e.entry.relative);
    assert d in [d, e];
  }

  // --- The bare system directory ------------------------------------------

  /** The bare system directory is a layer that nothing replaced only in a module
      that keeps some entry which is not an overlay one. */
  lemma BareLayerNeedsOther(m: ModuleRecord, layout: Layout)
    requires ["system"] in Layers(layout, DecisionsOf(m, layout), Whole(m, layout))
    requires ["system"] !in ReplacedRoots(layout, DecisionsOf(m, layout))
    requires forall r :: r in m.view.pathRules ==> r.0 != []
    ensures exists d :: KeptDecision(m, layout, d) && !d.mode.Overlay?
  {
    var decisions := DecisionsOf(m, layout);
    if forall d :: d in decisions ==> d.mode.Overlay? {
      var d :| d in decisions && LayerOf(layout, decisions, Whole(m, layout), d) == Some(["system"]);
      if Whole(m, layout) {
        RootLayerReplaces(layout, decisions, ["system"]);
      } else {
        assert d.entry.relative == ["system"];
        SystemRuleDecides(m.view.pathRules, m.view.defaultMode);
      }
    }
  }

  lemma {:induction false} SystemRuleDecides(rules: seq<(Path, Mode)>, default: Mode)
    requires forall r :: r in rules ==> r.0 != []
    requires FirstRule(rules, ["system"], default).Overlay?
    ensures default.Overlay? || exists r :: r in rules && r.0 == ["system"] && r.1.Overlay?
  {
    if rules != [] {
      assert rules == [rules[0]] + rules[1..];
      if rules[0].0 <= ["system"] {
        assert rules[0].0 == ["system"] && rules[0] in rules;
      } else {
        SystemRuleDecides(rules[1..], default);
      }
    }
  }

  /** Three plain directories are all kept. */
  lemma KeepsThree(m: ModuleRecord, layout: Layout, a: ModuleEntry, b: ModuleEntry, c: ModuleEntry)
    requires m.entries == [a, b, c]
    requires forall e :: e in m.entries ==> !Destructive(e) && !e.directoryRemove && Kept(layout, {}, e)
    ensures DecisionsOf(m, layout) == [
              Decision(a, ResolveMode(m.view, a.relative)), Decision(b, ResolveMode(m.view, b.relative)),
              Decision(c, ResolveMode(m.view, c.relative))]
  {
    assert BlockedBy(m.view, layout, m.entries) == {};
    assert a in m.entries && b in m.entries && c in m.entries;
    assert m.entries[..2] == [a, b] && [a, b][..1] == [a] && [a][..0] == [];
    hide ResolveMode, Kept;
    assert KeptEntries(m.view, layout, {}, [a]) == [Decision(a, ResolveMode(m.view, a.relative))];
    assert KeptEntries(m.view, layout, {}, [a, b]) ==
             [Decision(a, ResolveMode(m.view, a.relative)), Decision(b, ResolveMode(m.view, b.relative))];
  }

  lemma PlainDirectoryIsKept(layout: Layout, e: ModuleEntry, partition: string, target: Path)
    requires e.relative != [] && !e.fileType.Symlink? && layout.errors == map[] && ValidRelative(e.relative)
    requires LogicalPartition(layout, e.relative) == partition && partition in layout.roots
    requires layout.roots[partition] + e.relative[RootLen(layout, e.relative)..] == target
    ensures Kept(layout, {}, e) && MapTarget(layout, e.relative) == Some((partition, target))
  {
  }

  lemma SystemRules(bare: Path, bin: Path, vendor: Path)
    requires bare == ["system"] && bin == ["system", "bin"] && vendor == ["system", "vendor"]
    ensures var view := RulesView(Ignore, [(bin, Magic), (bare, Overlay)]);
            && ResolveMode(view, bare) == Overlay && ResolveMode(view, bin) == Magic
            && ResolveMode(view, vendor) == Overlay
  {
    var rules := [(bin, Magic), (bare, Overlay)];
    assert |bin[1]| == 3 && |vendor[1]| == 6;
    assert !(bin <= vendor) by { assert bin[1] != vendor[1]; }
    assert rules[1..] == [(bare, Overlay)] && bare <= bare && bare <= vendor && bin <= bin;
    assert FirstRule([(bare, Overlay)], bare, Ignore) == Overlay;
    assert FirstRule([(bare, Overlay)], vendor, Ignore) == Overlay;
  }

  const BARE: ModuleEntry := ModuleEntry(["system"], Directory, false, false, None)
  const BIN: ModuleEntry := ModuleEntry(["system", "bin"], Directory, false, false, None)
  const VENDOR: ModuleEntry := ModuleEntry(["system", "vendor"], Directory, false, false, None)

  const TWO_PARTITIONS: Layout := Layout(map["system" := ["system"], "vendor" := ["vendor"]], map[], map[], {})

  lemma SystemEntriesAreKept()
    ensures StandardRoots(TWO_PARTITIONS)
    ensures forall e :: e in [BARE, BIN, VENDOR] ==> Kept(TWO_PARTITIONS, {}, e) && ValidRelative(e.relative)
    ensures MapTarget(TWO_PARTITIONS, BARE.relative) == Some(("system", ["system"]))
    ensures MapTarget(TWO_PARTITIONS, VENDOR.relative) == Some(("vendor", ["vendor"]))
  {
    assert ValidComponent("system") && ValidComponent("bin") && ValidComponent("vendor");
    assert ["system"] + BARE.relative[1..] == ["system"] && ["vendor"] + VENDOR.relative[2..] == ["vendor"];
    PlainDirectoryIsKept(TWO_PARTITIONS, BARE, "system", ["system"]);
    PlainDirectoryIsKept(TWO_PARTITIONS, BIN, "system", ["system"] + BIN.relative[1..]);
    PlainDirectoryIsKept(TWO_PARTITIONS, VENDOR, "vendor", ["vendor"]);
  }

  lemma ThreeAreScanned(a: Decision, b: Decision, c: Decision)
    requires a.entry.relative != b.entry.relative && b.entry.relative != c.entry.relative
    requires a.entry.relative != c.entry.relative
    requires forall d :: d in [a, b, c] ==> ValidRelative(d.entry.relative) && d.entry.fileType.Directory?
    ensures Scanned([a, b, c])
  {
    hide ValidRelative;
  }

  /** A module that has `system` as an overlay directory and `system/bin` as a magic one. */
  lemma PartialSystemModule() returns (m: ModuleRecord)
    ensures DecisionsOf(m, TWO_PARTITIONS) ==
            [Decision(BARE, Overlay), Decision(BIN, Magic), Decision(VENDOR, Overlay)]
    ensures Scanned(DecisionsOf(m, TWO_PARTITIONS)) && !Whole(m, TWO_PARTITIONS)
  {
    m := ModuleRecord("m", ["m"], [BARE, BIN, VENDOR],
                      RulesView(Ignore, [(BIN.relative, Magic), (BARE.relative, Overlay)]));
    SystemEntriesAreKept();
    SystemRules(BARE.relative, BIN.relative, VENDOR.relative);
    hide MapTarget, ValidRelative, KeptEntries, FirstRule, Kept;
    KeepsThree(m, TWO_PARTITIONS, BARE, BIN, VENDOR);
    var decisions := DecisionsOf(m, TWO_PARTITIONS);
    assert decisions[1].mode.Magic? && decisions[1] in decisions;
    ThreeAreScanned(decisions[0], decisions[1], decisions[2]);
  }

  lemma TopmostIsLayer(layout: Layout, decisions: seq<Decision>, d: Decision)
    requires d in decisions && d.mode.Overlay? && d.entry.fileType.Directory? && |d.entry.relative| == 1
    ensures d.entry.relative in Layers(layout, decisions, false)
  {
    assert LayerOf(layout, decisions, false, d) == Some(d.entry.relative);
  }

  /** Its layer for the bare system directory shows `system/vendor` away from its target. */
  lemma BareSystemSwallows() returns (m: ModuleRecord, d: Decision)
    ensures StandardRoots(TWO_PARTITIONS) && Scanned(DecisionsOf(m, TWO_PARTITIONS)) && !Whole(m, TWO_PARTITIONS)
    ensures ["system"] in Layers(TWO_PARTITIONS, DecisionsOf(m, TWO_PARTITIONS), false)
    ensures d in DecisionsOf(m, TWO_PARTITIONS) && d.mode.Overlay? && d.entry.relative == ["system", "vendor"]
    ensures MapTarget(TWO_PARTITIONS, ["system"]) == Some(("system", ["system"]))
    ensures MapTarget(TWO_PARTITIONS, d.entry.relative) == Some(("vendor", ["vendor"]))
  {
    hide MapTarget, LogicalPartition, ValidRelative, KeptEntries, LayerOf, Layers, Kept, Scanned, Whole, StandardRoots;
    hide BlockedBy;
    SystemEntriesAreKept();
    m := PartialSystemModule();
    var decisions := DecisionsOf(m, TWO_PARTITIONS);
    d := decisions[2];
    assert decisions[0] in decisions;
    TopmostIsLayer(TWO_PARTITIONS, decisions, decisions[0]);
  }
}
