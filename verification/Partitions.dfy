/// The partition layout: which visible directory a module path is about
/// (src/partitions.rs). Paths are sequences of components; a relative path is a
/// module path split at its slashes, so it has at least one component.
module Partitions {
  import opened FileTrees
  import opened Wrappers

  datatype PathEvidence = PathEvidence(canonical: Path, dev: int, ino: int, visibleMountId: int, isDir: bool)

  datatype MountEntry = MountEntry(id: int, mountPoint: Path, root: Path, device: string)

  datatype Snapshot = Snapshot(mounts: seq<MountEntry>, paths: map<Path, PathEvidence>, pathErrors: map<Path, string>)

  datatype Child = Child(dev: int, ino: int, device: string, root: Path)

  datatype Identity = Identity(canonical: Path, dev: int, ino: int, subtree: map<Path, Child>)

  datatype Code = PartitionMissing | LayoutUnavailable

  datatype Layout = Layout(
    roots: map<string, Path>, identities: map<string, Identity>, errors: map<string, Code>, mountPoints: set<Path>)

  // --- From module paths to targets ---------------------------------------

  predicate ValidComponent(c: string) {
    c != "" && c != "." && c != ".." && '\\' !in c && '\0' !in c && ':' !in c && '/' !in c
  }

  predicate ValidRelative(relative: Path) {
    relative != [] && forall i :: 0 <= i < |relative| ==> ValidComponent(relative[i])
  }

  predicate Known(layout: Layout, name: string) {
    name in layout.roots || name in layout.errors
  }

  function LogicalPartition(layout: Layout, relative: Path): string
    requires relative != []
  {
    if relative[0] == "system" && |relative| > 1 && relative[1] != "system" && Known(layout, relative[1])
    then relative[1] else relative[0]
  }

  function RootLen(layout: Layout, relative: Path): (n: nat)
    requires relative != []
    ensures 1 <= n <= |relative| && n <= 2
  {
    if |relative| > 1 && relative[0] == "system" && LogicalPartition(layout, relative) != "system" then 2 else 1
  }

  function MapTarget(layout: Layout, relative: Path): Option<(string, Path)> {
    if !ValidRelative(relative) then None
    else
      var partition := LogicalPartition(layout, relative);
      if partition in layout.errors then None
      else
        var root := if partition in layout.roots then layout.roots[partition] else [partition];
        Some((partition, root + relative[RootLen(layout, relative)..]))
  }

  /** The one spelling of a path: `system/P/...` is `P/...` for every known P. */
  function Canonical(layout: Layout, relative: Path): Path
    requires relative != []
  {
    if RootLen(layout, relative) == 2 then relative[1..] else relative
  }

  /** Every root where the visible namespace may have put it. */
  predicate StandardRoots(layout: Layout) {
    && "system" in layout.roots && layout.roots["system"] == ["system"]
    && forall p :: p in layout.roots && p != "system" ==> layout.roots[p] == [p] || layout.roots[p] == ["system", p]
  }

  /** Two module paths are about the same target exactly when they are two
      spellings of one path. */
  lemma SameTarget(layout: Layout, a: Path, b: Path)
    requires StandardRoots(layout)
    requires MapTarget(layout, a).Some? && MapTarget(layout, b).Some?
    ensures MapTarget(layout, a).value.1 == MapTarget(layout, b).value.1 <==>
              Canonical(layout, a) == Canonical(layout, b)
  {
    CanonicalSplit(layout, a);
    CanonicalSplit(layout, b);
    var pa, pb := LogicalPartition(layout, a), LogicalPartition(layout, b);
    var sa, sb := a[RootLen(layout, a)..], b[RootLen(layout, b)..];
    var ra := if pa in layout.roots then layout.roots[pa] else [pa];
    var rb := if pb in layout.roots then layout.roots[pb] else [pb];
    if ra + sa == rb + sb {
      assert (ra + sa)[0] == ra[0] && (rb + sb)[0] == rb[0];
      if |ra| == 2 { NestedIsNotPlain(layout, a, b); }
      if |rb| == 2 { NestedIsNotPlain(layout, b, a); }
      assert |ra| == |rb|;
      if |ra| == 2 { assert (ra + sa)[1] == pa && (rb + sb)[1] == pb; }
      assert sa == (ra + sa)[|ra|..] && sb == (rb + sb)[|rb|..];
    }
    if Canonical(layout, a) == Canonical(layout, b) {
      assert pa == ([pa] + sa)[0] && pb == ([pb] + sb)[0];
      assert sa == ([pa] + sa)[1..] && sb == ([pb] + sb)[1..];
    }
  }

  lemma CanonicalSplit(layout: Layout, relative: Path)
    requires relative != []
    ensures Canonical(layout, relative) == [LogicalPartition(layout, relative)] + relative[RootLen(layout, relative)..]
  {
  }

  /** A root below /system is not reached through any other partition. */
  lemma NestedIsNotPlain(layout: Layout, a: Path, b: Path)
    requires StandardRoots(layout)
    requires MapTarget(layout, a).Some? && MapTarget(layout, b).Some?
    requires MapTarget(layout, a).value.1 == MapTarget(layout, b).value.1
    requires LogicalPartition(layout, a) != "system" && LogicalPartition(layout, a) in layout.roots
    requires layout.roots[LogicalPartition(layout, a)] == ["system", LogicalPartition(layout, a)]
    ensures LogicalPartition(layout, b) == LogicalPartition(layout, a)
  {
    var pa, pb := LogicalPartition(layout, a), LogicalPartition(layout, b);
    var t := MapTarget(layout, a).value.1;
    assert t[0] == "system" && t[1] == pa;
    var rb := if pb in layout.roots then layout.roots[pb] else [pb];
    var sb := b[RootLen(layout, b)..];
    assert t == rb + sb;
  }

  /** Where a path of a partition goes: below its root, or directly below `/` for a
      partition nobody knows, and nowhere for one that failed. */
  function TargetIn(layout: Layout, p: string, rest: Path): Option<(string, Path)> {
    if p in layout.errors then None
    else Some((p, (if p in layout.roots then layout.roots[p] else [p]) + rest))
  }

  /** Both spellings of a known partition go to the same place, `system/Q` stays below
      the system root for any other Q, and every other path goes where its first
      component says. Nothing else is mapped. */
  lemma SpellingsMap(layout: Layout, p: string, rest: Path)
    requires ValidRelative([p] + rest)
    ensures p != "system" && Known(layout, p) ==> MapTarget(layout, ["system", p] + rest) == TargetIn(layout, p, rest)
    ensures p == "system" || !Known(layout, p) ==>
              MapTarget(layout, ["system", p] + rest) == TargetIn(layout, "system", [p] + rest)
    ensures p != "system" || rest == [] ==> MapTarget(layout, [p] + rest) == TargetIn(layout, p, rest)
    ensures forall relative :: !ValidRelative(relative) ==> MapTarget(layout, relative) == None
  {
    assert ValidComponent("system");
    var long, short := ["system", p] + rest, [p] + rest;
    assert long[2..] == rest && long[1..] == [p] + rest && short[1..] == rest;
    assert forall i :: 0 <= i < |long| ==> long[i] == if i == 0 then "system" else short[i-1];
  }

  /** Every target lies at or below the root of its partition. */
  lemma TargetBelowRoot(layout: Layout, relative: Path)
    requires MapTarget(layout, relative).Some?
    ensures var (p, t) := MapTarget(layout, relative).value;
            p !in layout.errors && (if p in layout.roots then layout.roots[p] else [p]) <= t
  {
  }

  /** The layout with one partition found unusable. */
  function WithError(layout: Layout, p: string, code: Code): Layout {
    layout.(roots := layout.roots - {p}, identities := layout.identities - {p}, errors := layout.errors[p := code])
  }

  predicate Spells(relative: Path, p: string) {
    relative != [] && (relative[0] == p || (relative[0] == "system" && |relative| > 1 && relative[1] == p))
  }

  /** A partition that fails takes exactly its own two spellings with it. */
  lemma ErrorStaysLocal(layout: Layout, p: string, code: Code, relative: Path)
    requires p != "system"
    ensures MapTarget(WithError(layout, p, code), relative) ==
            if Spells(relative, p) then None else MapTarget(layout, relative)
  {
  }

  // --- Discovery ----------------------------------------------------------

  function VisibleMount(mounts: seq<MountEntry>, path: PathEvidence): (r: Option<MountEntry>)
    ensures r.Some? ==> r.value in mounts && r.value.id == path.visibleMountId && r.value.mountPoint <= path.canonical
  {
    if mounts == [] then None
    else if mounts[0].id == path.visibleMountId && mounts[0].mountPoint <= path.canonical then Some(mounts[0])
    else VisibleMount(mounts[1..], path)
  }

  /** The visible mounts strictly below a directory, or None where one of the
      mounts there could not be inspected. */
  function Subtree(s: Snapshot, mounts: seq<MountEntry>, base: Path): Option<map<Path, Child>> {
    if mounts == [] then Some(map[])
    else
      var m := mounts[|mounts|-1];
      var rest := Subtree(s, mounts[..|mounts|-1], base);
      if rest.None? || !Above(base, m.mountPoint) then rest
      else if m.mountPoint in s.pathErrors || m.mountPoint !in s.paths then None
      else
        var probe := s.paths[m.mountPoint];
        if probe.visibleMountId != m.id then rest
        else Some(rest.value[m.mountPoint[|base|..] := Child(probe.dev, probe.ino, m.device, m.root)])
  }

  function IdentityOf(s: Snapshot, path: PathEvidence): Option<Identity> {
    var subtree := Subtree(s, s.mounts, path.canonical);
    if subtree.Some? then Some(Identity(path.canonical, path.dev, path.ino, subtree.value)) else None
  }

  /** The visible mounts strictly below a directory, by their paths relative to it. */
  predicate ChildAt(s: Snapshot, base: Path, m: MountEntry, relative: Path) {
    Above(base, m.mountPoint) && m.mountPoint in s.paths && s.paths[m.mountPoint].visibleMountId == m.id
    && relative == m.mountPoint[|base|..]
  }

  predicate Uninspected(s: Snapshot, base: Path, m: MountEntry) {
    Above(base, m.mountPoint) && (m.mountPoint in s.pathErrors || m.mountPoint !in s.paths)
  }

  /** An identity lists exactly the visible child mounts, and there is none exactly
      when one of the mounts below could not be inspected. */
  lemma {:induction false} SubtreeListsChildren(s: Snapshot, mounts: seq<MountEntry>, base: Path)
    ensures Subtree(s, mounts, base).None? <==> exists m :: m in mounts && Uninspected(s, base, m)
    ensures Subtree(s, mounts, base).Some? ==> forall p :: p in Subtree(s, mounts, base).value <==>
                                                           exists m :: m in mounts && ChildAt(s, base, m, p)
  {
    if mounts != [] {
      var rest, m := mounts[..|mounts|-1], mounts[|mounts|-1];
      SubtreeListsChildren(s, rest, base);
      assert mounts == rest + [m];
      assert m in mounts && forall x :: x in mounts <==> x in rest || x == m;
      if Subtree(s, mounts, base).Some? {
        forall p ensures p in Subtree(s, mounts, base).value <==> exists x :: x in mounts && ChildAt(s, base, x, p) {
          assert p in Subtree(s, mounts, base).value <==> p in Subtree(s, rest, base).value || ChildAt(s, base, m, p);
        }
      }
    }
  }

  /** What an identity says of the child at a relative path: the last entry counts. */
  ghost predicate ChildIs(s: Snapshot, mounts: seq<MountEntry>, base: Path, relative: Path, child: Child) {
    exists i :: 0 <= i < |mounts| && ChildAt(s, base, mounts[i], relative)
                && child == ChildOf(s, mounts[i])
                && forall j :: i < j < |mounts| ==> !ChildAt(s, base, mounts[j], relative)
  }

  function ChildOf(s: Snapshot, m: MountEntry): Child
    requires m.mountPoint in s.paths
  {
    Child(s.paths[m.mountPoint].dev, s.paths[m.mountPoint].ino, m.device, m.root)
  }

  lemma {:induction false} SubtreeIsChildren(s: Snapshot, mounts: seq<MountEntry>, base: Path)
    requires Subtree(s, mounts, base).Some?
    ensures forall relative, child :: ChildIs(s, mounts, base, relative, child) <==>
                                      relative in Subtree(s, mounts, base).value
                                      && Subtree(s, mounts, base).value[relative] == child
  {
    if mounts != [] {
      var rest, m := mounts[..|mounts|-1], mounts[|mounts|-1];
      SubtreeIsChildren(s, rest, base);
      forall relative, child ensures ChildIs(s, mounts, base, relative, child) <==>
                                     relative in Subtree(s, mounts, base).value
                                     && Subtree(s, mounts, base).value[relative] == child
      {
        ChildIsLast(s, mounts, base, relative, child);
      }
    }
  }

  lemma ChildIsLast(s: Snapshot, mounts: seq<MountEntry>, base: Path, relative: Path, child: Child)
    requires mounts != []
    ensures var rest, m := mounts[..|mounts|-1], mounts[|mounts|-1];
            ChildIs(s, mounts, base, relative, child) <==>
            if ChildAt(s, base, m, relative) then child == ChildOf(s, m) else ChildIs(s, rest, base, relative, child)
  {
    var rest, n := mounts[..|mounts|-1], |mounts| - 1;
    hide ChildAt;
    if ChildIs(s, rest, base, relative, child) && !ChildAt(s, base, mounts[n], relative) {
      var i :| 0 <= i < |rest| && ChildAt(s, base, rest[i], relative) && child == ChildOf(s, rest[i])
               && forall j :: i < j < |rest| ==> !ChildAt(s, base, rest[j], relative);
      assert rest[i] == mounts[i];
      forall j | i < j < |mounts| ensures !ChildAt(s, base, mounts[j], relative) {
        if j < n { assert rest[j] == mounts[j]; }
      }
    }
    if ChildIs(s, mounts, base, relative, child) && !ChildAt(s, base, mounts[n], relative) {
      var i :| 0 <= i < |mounts| && ChildAt(s, base, mounts[i], relative) && child == ChildOf(s, mounts[i])
               && forall j :: i < j < |mounts| ==> !ChildAt(s, base, mounts[j], relative);
      assert rest[i] == mounts[i] && forall j :: 0 <= j < |rest| ==> rest[j] == mounts[j];
    }
  }

  ghost predicate SameChildren(s: Snapshot, a: Path, b: Path) {
    forall relative, child :: ChildIs(s, s.mounts, a, relative, child) <==> ChildIs(s, s.mounts, b, relative, child)
  }

  /** Whether every mount below a directory could be inspected. */
  ghost predicate Inspected(s: Snapshot, base: Path) {
    forall m :: m in s.mounts ==> !Uninspected(s, base, m)
  }

  lemma SameSubtree(s: Snapshot, a: Path, b: Path)
    requires Inspected(s, a) && Inspected(s, b)
    ensures Subtree(s, s.mounts, a).Some? && Subtree(s, s.mounts, b).Some?
    ensures Subtree(s, s.mounts, a) == Subtree(s, s.mounts, b) <==> SameChildren(s, a, b)
  {
    SubtreeListsChildren(s, s.mounts, a);
    SubtreeListsChildren(s, s.mounts, b);
    SubtreeIsChildren(s, s.mounts, a);
    SubtreeIsChildren(s, s.mounts, b);
    var x, y := Subtree(s, s.mounts, a).value, Subtree(s, s.mounts, b).value;
    hide Subtree, ChildIs;
    if SameChildren(s, a, b) {
      forall relative ensures relative in x <==> relative in y {
        assert relative in x ==> ChildIs(s, s.mounts, a, relative, x[relative]);
        assert relative in y ==> ChildIs(s, s.mounts, b, relative, y[relative]);
      }
      forall relative | relative in x ensures x[relative] == y[relative] {
        assert ChildIs(s, s.mounts, a, relative, x[relative]);
      }
      assert x == y;
    }
  }

  /** `identity`: go through the mount table once. */
  method ReadIdentity(s: Snapshot, path: PathEvidence) returns (r: Option<Identity>)
    ensures r == IdentityOf(s, path)
  {
    var base := path.canonical;
    var subtree: map<Path, Child> := map[];
    for i := 0 to |s.mounts|
      invariant Subtree(s, s.mounts[..i], base) == Some(subtree)
    {
      var m := s.mounts[i];
      assert s.mounts[..i+1][..i] == s.mounts[..i];
      if Above(base, m.mountPoint) {
        if m.mountPoint in s.pathErrors || m.mountPoint !in s.paths {
          SubtreeListsChildren(s, s.mounts, base);
          assert m in s.mounts && Uninspected(s, base, m);
          return None;
        }
        var probe := s.paths[m.mountPoint];
        if probe.visibleMountId == m.id {
          subtree := subtree[m.mountPoint[|base|..] := Child(probe.dev, probe.ino, m.device, m.root)];
        }
      }
    }
    assert s.mounts[..|s.mounts|] == s.mounts;
    r := Some(Identity(base, path.dev, path.ino, subtree));
  }

  predicate ProbeOk(s: Snapshot, probe: PathEvidence, name: string, system: Path) {
    && probe.isDir && (probe.canonical == [name] || probe.canonical == system + [name])
    && VisibleMount(s.mounts, probe).Some?
  }

  /** Where in its filesystem a directory is. */
  function FsRoot(m: MountEntry, canonical: Path): Path
    requires m.mountPoint <= canonical
  {
    m.root + canonical[|m.mountPoint|..]
  }

  function ChooseRoot(s: Snapshot, name: string, system: Path): Option<PathEvidence> {
    var top, nested := [name], ["system", name];
    var a := if top in s.paths then Some(s.paths[top]) else None;
    var b := if nested in s.paths then Some(s.paths[nested]) else None;
    if top in s.pathErrors || nested in s.pathErrors then None
    else if a.Some? && !ProbeOk(s, a.value, name, system) then None
    else if b.Some? && !ProbeOk(s, b.value, name, system) then None
    else if a.Some? && b.Some? then
      var am, bm := VisibleMount(s.mounts, a.value).value, VisibleMount(s.mounts, b.value).value;
      if (a.value.dev, a.value.ino) != (b.value.dev, b.value.ino) then None
      else if a.value.canonical == b.value.canonical then a
      else if am.device != bm.device || FsRoot(am, a.value.canonical) != FsRoot(bm, b.value.canonical)
              || Subtree(s, s.mounts, a.value.canonical).None? || Subtree(s, s.mounts, b.value.canonical).None?
              || Subtree(s, s.mounts, a.value.canonical) != Subtree(s, s.mounts, b.value.canonical) then None
      else if am.mountPoint == a.value.canonical then a else b
    else if b.Some? then b
    else if a.Some? && VisibleMount(s.mounts, a.value).value.mountPoint == a.value.canonical then a
    else None
  }

  // What discovery owes a partition, in terms of the snapshot alone.

  predicate Carries(m: MountEntry, probe: PathEvidence) {
    m.id == probe.visibleMountId && m.mountPoint <= probe.canonical
  }

  /** The mount that a directory is seen through: the first one that carries it. */
  ghost predicate SeenThrough(mounts: seq<MountEntry>, probe: PathEvidence, m: MountEntry) {
    exists i :: 0 <= i < |mounts| && mounts[i] == m && Carries(m, probe)
                && forall j :: 0 <= j < i ==> !Carries(mounts[j], probe)
  }

  lemma {:induction false} VisibleIsSeen(mounts: seq<MountEntry>, probe: PathEvidence)
    ensures forall m :: SeenThrough(mounts, probe, m) <==> VisibleMount(mounts, probe) == Some(m)
  {
    if mounts != [] {
      VisibleIsSeen(mounts[1..], probe);
      forall m ensures SeenThrough(mounts, probe, m) <==> VisibleMount(mounts, probe) == Some(m) {
        if Carries(mounts[0], probe) {
          if m == mounts[0] { assert mounts[0] == m; }
        } else {
          if SeenThrough(mounts[1..], probe, m) {
            var i :| 0 <= i < |mounts[1..]| && mounts[1..][i] == m && Carries(m, probe)
                     && forall j :: 0 <= j < i ==> !Carries(mounts[1..][j], probe);
            assert mounts[i+1] == m;
            forall j | 0 <= j < i + 1 ensures !Carries(mounts[j], probe) {
              if j > 0 { assert mounts[1..][j-1] == mounts[j]; }
            }
          }
          if SeenThrough(mounts, probe, m) {
            var i :| 0 <= i < |mounts| && mounts[i] == m && Carries(m, probe)
                     && forall j :: 0 <= j < i ==> !Carries(mounts[j], probe);
            assert mounts[1..][i-1] == m;
            forall j | 0 <= j < i - 1 ensures !Carries(mounts[1..][j], probe) {
              assert mounts[1..][j] == mounts[j+1];
            }
          }
        }
      }
    }
  }

  /** A directory at one of the two allowed places, seen through some mount. */
  ghost predicate Candidate(s: Snapshot, probe: PathEvidence, name: string, system: Path) {
    && probe.isDir && (probe.canonical == [name] || probe.canonical == system + [name])
    && exists m :: SeenThrough(s.mounts, probe, m)
  }

  /** Two places that are one directory tree although neither leads to the other. */
  ghost predicate BindAliases(s: Snapshot, a: PathEvidence, b: PathEvidence, am: MountEntry, bm: MountEntry) {
    && SeenThrough(s.mounts, a, am) && SeenThrough(s.mounts, b, bm)
    && am.device == bm.device
    && am.root + a.canonical[|am.mountPoint|..] == bm.root + b.canonical[|bm.mountPoint|..]
    && Inspected(s, a.canonical) && Inspected(s, b.canonical) && SameChildren(s, a.canonical, b.canonical)
  }

  /** The directory that stands for a partition, if any does: what is seen at its
      top-level place `a` and at its place `b` below /system decides. */
  ghost predicate StandsFor(s: Snapshot, name: string, system: Path, root: PathEvidence) {
    var top, nested := [name], ["system", name];
    && top !in s.pathErrors && nested !in s.pathErrors
    && (top in s.paths ==> Candidate(s, s.paths[top], name, system))
    && (nested in s.paths ==> Candidate(s, s.paths[nested], name, system))
    && if top in s.paths && nested in s.paths then
         var a, b := s.paths[top], s.paths[nested];
         && a.dev == b.dev && a.ino == b.ino
         && if a.canonical == b.canonical then root == a
            else exists am, bm :: BindAliases(s, a, b, am, bm)
                                  && root == if am.mountPoint == a.canonical then a else b
       else if nested in s.paths then root == s.paths[nested]
       else top in s.paths && root == s.paths[top]
            && exists m :: SeenThrough(s.mounts, root, m) && m.mountPoint == root.canonical
  }

  /** The choice is the directory that stands for the partition. */
  lemma ChosenStandsFor(s: Snapshot, name: string, system: Path, root: PathEvidence)
    ensures StandsFor(s, name, system, root) <==> ChooseRoot(s, name, system) == Some(root)
  {
    var top, nested := [name], ["system", name];
    forall probe | probe in s.paths.Values
      ensures Candidate(s, probe, name, system) <==> ProbeOk(s, probe, name, system)
      ensures forall m :: SeenThrough(s.mounts, probe, m) <==> VisibleMount(s.mounts, probe) == Some(m)
    {
      VisibleIsSeen(s.mounts, probe);
      if ProbeOk(s, probe, name, system) {
        assert SeenThrough(s.mounts, probe, VisibleMount(s.mounts, probe).value);
      }
    }
    assert top in s.paths ==> s.paths[top] in s.paths.Values;
    assert nested in s.paths ==> s.paths[nested] in s.paths.Values;
    if top in s.paths && nested in s.paths && VisibleMount(s.mounts, s.paths[top]).Some?
       && VisibleMount(s.mounts, s.paths[nested]).Some? {
      AliasesAgree(s, s.paths[top], s.paths[nested]);
    }
    hide Candidate, ProbeOk, BindAliases, SeenThrough, VisibleMount, Subtree, SameChildren, Inspected;
  }

  lemma AliasesAgree(s: Snapshot, a: PathEvidence, b: PathEvidence)
    requires VisibleMount(s.mounts, a).Some? && VisibleMount(s.mounts, b).Some?
    ensures var am, bm := VisibleMount(s.mounts, a).value, VisibleMount(s.mounts, b).value;
            BindAliases(s, a, b, am, bm) <==>
            !(am.device != bm.device || FsRoot(am, a.canonical) != FsRoot(bm, b.canonical)
              || Subtree(s, s.mounts, a.canonical).None? || Subtree(s, s.mounts, b.canonical).None?
              || Subtree(s, s.mounts, a.canonical) != Subtree(s, s.mounts, b.canonical))
    ensures forall am, bm :: BindAliases(s, a, b, am, bm) ==>
              VisibleMount(s.mounts, a) == Some(am) && VisibleMount(s.mounts, b) == Some(bm)
  {
    VisibleIsSeen(s.mounts, a);
    VisibleIsSeen(s.mounts, b);
    SubtreeListsChildren(s, s.mounts, a.canonical);
    SubtreeListsChildren(s, s.mounts, b.canonical);
    if Inspected(s, a.canonical) && Inspected(s, b.canonical) { SameSubtree(s, a.canonical, b.canonical); }
    hide SeenThrough, Subtree, SameChildren;
  }

  /** A chosen root is a visible directory at one of the two places a partition may
      be, and where both places can be seen they are one directory tree. A top-level
      one is a mount point itself, unless /system leads to it. */
  lemma ChosenRoot(s: Snapshot, name: string, system: Path)
    requires ChooseRoot(s, name, system).Some?
    ensures var c := ChooseRoot(s, name, system).value;
            && (c.canonical == [name] || c.canonical == system + [name])
            && c.isDir && VisibleMount(s.mounts, c).Some?
            && [name] !in s.pathErrors && ["system", name] !in s.pathErrors
            && (forall p :: p in {[name], ["system", name]} && p in s.paths ==>
                  s.paths[p].dev == c.dev && s.paths[p].ino == c.ino)
            && (c.canonical == [name] ==>
                  (["system", name] in s.paths && s.paths[["system", name]].canonical == [name])
                  || exists m :: m in s.mounts && m.mountPoint == [name] && m.id == c.visibleMountId)
  {
    var a := if [name] in s.paths then Some(s.paths[[name]]) else None;
    if a.Some? && ProbeOk(s, a.value, name, system) {
      var m := VisibleMount(s.mounts, a.value).value;
      assert m in s.mounts;
    }
  }

  function MissingOr(s: Snapshot, name: string): Code {
    if [name] !in s.paths && [name] !in s.pathErrors && ["system", name] !in s.paths
       && ["system", name] !in s.pathErrors
    then PartitionMissing else LayoutUnavailable
  }

  /** What discovery owes a managed partition, whatever becomes of the others: the
      directory that stands for it is its root, if all mounts below it could be
      inspected, and otherwise it is missing or unusable. */
  ghost predicate Discovered(s: Snapshot, layout: Layout, name: string, system: Path) {
    && (forall root :: StandsFor(s, name, system, root) && Inspected(s, root.canonical) ==>
          name in layout.roots && name !in layout.errors && layout.roots[name] == root.canonical
          && Identified(s, layout, name, root))
    && ((forall root :: StandsFor(s, name, system, root) ==> !Inspected(s, root.canonical)) ==>
          name !in layout.roots && name in layout.errors
          && (layout.errors[name] == PartitionMissing <==>
              && [name] !in s.paths && [name] !in s.pathErrors
              && ["system", name] !in s.paths && ["system", name] !in s.pathErrors))
  }

  /** The recorded identity of a root. */
  ghost predicate Identified(s: Snapshot, layout: Layout, name: string, root: PathEvidence) {
    && name in layout.identities
    && var id := layout.identities[name];
       && id.canonical == root.canonical && id.dev == root.dev && id.ino == root.ino
       && forall relative, child :: ChildIs(s, s.mounts, root.canonical, relative, child) <==>
                                    relative in id.subtree && id.subtree[relative] == child
  }

  lemma IdentityMeans(s: Snapshot, probe: PathEvidence)
    ensures IdentityOf(s, probe).Some? <==> Inspected(s, probe.canonical)
    ensures IdentityOf(s, probe).Some? ==>
              var id := IdentityOf(s, probe).value;
              && id.canonical == probe.canonical && id.dev == probe.dev && id.ino == probe.ino
              && forall relative, child :: ChildIs(s, s.mounts, probe.canonical, relative, child) <==>
                                           relative in id.subtree && id.subtree[relative] == child
  {
    SubtreeListsChildren(s, s.mounts, probe.canonical);
    if Subtree(s, s.mounts, probe.canonical).Some? { SubtreeIsChildren(s, s.mounts, probe.canonical); }
    hide ChildIs, Subtree;
  }

  ghost predicate SystemFound(s: Snapshot) {
    ["system"] in s.paths && s.paths[["system"]].isDir && Inspected(s, s.paths[["system"]].canonical)
  }

  function SystemRoot(s: Snapshot): Path {
    if ["system"] in s.paths then s.paths[["system"]].canonical else ["system"]
  }

  /** Every managed partition is found or failed on its own. */
  method DiscoverLayout(s: Snapshot, managed: seq<string>, extras: seq<string>) returns (layout: Layout)
    ensures "system" in layout.roots
    ensures "system" !in managed && "system" !in extras ==>
              && (["system"] in s.paths ==> layout.roots["system"] == s.paths[["system"]].canonical)
              && (["system"] !in s.paths ==> layout.roots["system"] == ["system"])
              && ("system" in layout.errors <==> !SystemFound(s))
              && (!SystemFound(s) ==> layout.errors["system"] == LayoutUnavailable)
              && (SystemFound(s) ==> Identified(s, layout, "system", s.paths[["system"]]))
    ensures forall name :: name in managed && name != "system" && name !in extras && "system" !in managed ==>
              "system" !in extras ==> Discovered(s, layout, name, layout.roots["system"])
    ensures forall name :: name in managed && name != "system" && name !in extras ==>
              Discovered(s, layout, name, SystemRoot(s))
    ensures forall name :: name in extras ==> ExtraFound(s, layout, name)
    ensures forall name :: name in extras && name !in managed && name != "system" ==> OnlyExtra(s, layout, name)
    ensures forall name :: name !in managed && name !in extras && name != "system" ==> Absent(layout, name)
    ensures StandardInput(s, managed, extras) ==> StandardRoots(layout)
    ensures forall p :: p in layout.mountPoints <==>
                        exists m :: m in s.mounts && m.mountPoint == p && p in s.paths
                            && s.paths[p].visibleMountId == m.id
  {
    var system := SystemRoot(s);
    var found := DiscoverSystem(s, system);
    var some := DiscoverManaged(s, managed, system, found);
    layout := DiscoverExtras(s, managed, extras, system, some);
    ghost var all := layout;
    layout := layout.(mountPoints := set m | m in s.mounts && m.mountPoint in s.paths
                                               && s.paths[m.mountPoint].visibleMountId == m.id :: m.mountPoint);
    hide Discovered, ExtraFound, OnlyExtra, SystemFound;
    forall n ensures AgreeOn(all, layout, n) {}
    forall n | n in managed && n != "system" && n !in extras ensures Discovered(s, layout, n, system) {
      StillDiscovered(s, some, layout, n, system);
    }
    forall n | n in extras
      ensures ExtraFound(s, layout, n) && (n !in managed && n != "system" ==> OnlyExtra(s, layout, n))
    {
      StillExtra(s, all, layout, n);
    }
  }

  /** `/system` is a directory of its own, and no extra partition is a link elsewhere. */
  predicate StandardInput(s: Snapshot, managed: seq<string>, extras: seq<string>) {
    SystemRoot(s) == ["system"] && "system" !in managed && "system" !in extras
    && forall e :: e in extras && [e] in s.paths ==> s.paths[[e]].canonical == [e]
  }

  method DiscoverSystem(s: Snapshot, system: Path) returns (layout: Layout)
    ensures layout.roots == map["system" := system]
    ensures layout.errors == if SystemFound(s) then map[] else map["system" := LayoutUnavailable]
    ensures layout.identities.Keys <= {"system"}
    ensures SystemFound(s) ==> Identified(s, layout, "system", s.paths[["system"]])
  {
    if ["system"] in s.paths { IdentityMeans(s, s.paths[["system"]]); }
    hide Inspected;
    layout := Layout(map["system" := system], map[], map[], {});
    var id: Option<Identity> := None;
    if ["system"] in s.paths && s.paths[["system"]].isDir { id := ReadIdentity(s, s.paths[["system"]]); }
    if id.Some? {
      layout := layout.(identities := layout.identities["system" := id.value]);
    } else {
      layout := layout.(errors := layout.errors["system" := LayoutUnavailable]);
    }
  }

  /** Two layouts say the same of a partition. */
  predicate AgreeOn(a: Layout, b: Layout, name: string) {
    && (name in a.roots <==> name in b.roots) && (name in a.roots && name in b.roots ==> a.roots[name] == b.roots[name])
    && (name in a.errors <==> name in b.errors)
    && (name in a.errors && name in b.errors ==> a.errors[name] == b.errors[name])
    && (name in a.identities <==> name in b.identities)
    && (name in a.identities && name in b.identities ==> a.identities[name] == b.identities[name])
  }

  predicate Absent(layout: Layout, name: string) {
    name !in layout.roots && name !in layout.errors && name !in layout.identities
  }

  lemma StillDiscovered(s: Snapshot, a: Layout, b: Layout, name: string, system: Path)
    requires AgreeOn(a, b, name) && Discovered(s, a, name, system)
    ensures Discovered(s, b, name, system)
  {
    hide StandsFor, Inspected, ChildIs;
  }

  method DiscoverManaged(s: Snapshot, managed: seq<string>, system: Path, start: Layout) returns (layout: Layout)
    requires start.roots == map["system" := system] && start.errors.Keys <= {"system"}
    requires start.identities.Keys <= {"system"}
    ensures "system" in layout.roots
    ensures "system" !in managed ==> AgreeOn(start, layout, "system")
    ensures forall name :: name in managed && name != "system" ==> Discovered(s, layout, name, system)
    ensures forall name :: name !in managed && name != "system" ==> Absent(layout, name)
    ensures system == ["system"] && "system" !in managed ==> StandardRoots(layout)
  {
    layout := start;
    for i := 0 to |managed|
      invariant "system" in layout.roots
      invariant "system" !in managed[..i] ==> AgreeOn(start, layout, "system")
      invariant forall name :: name in managed[..i] && name != "system" ==> Discovered(s, layout, name, system)
      invariant forall name :: name != "system" && name !in managed[..i] ==> Absent(layout, name)
      invariant system == ["system"] && "system" !in managed[..i] ==> StandardRoots(layout)
    {
      hide Discovered, StandardRoots;
      var name := managed[i];
      assert managed[..i+1] == managed[..i] + [name];
      ghost var before := layout;
      layout := DiscoverOne(s, name, system, layout);
      if "system" !in managed[..i+1] {
        assert name in managed[..i+1] && "system" !in managed[..i];
        assert AgreeOn(before, layout, "system");
      }
      forall n | n in managed[..i+1] && n != "system" ensures Discovered(s, layout, n, system) {
        if n != name { StillDiscovered(s, before, layout, n, system); }
      }
      forall n | n != "system" && n !in managed[..i+1] ensures Absent(layout, n) {
        assert Absent(before, n) && AgreeOn(before, layout, n);
      }
    }
    assert managed[..|managed|] == managed;
  }

  method DiscoverOne(s: Snapshot, name: string, system: Path, start: Layout) returns (layout: Layout)
    requires "system" in start.roots
    requires name != "system" ==> Absent(start, name) || Discovered(s, start, name, system)
    ensures name != "system" ==> Discovered(s, layout, name, system)
    ensures "system" in layout.roots
    ensures forall n :: n != name ==> AgreeOn(start, layout, n)
    ensures StandardRoots(start) && system == ["system"] && name != "system" ==> StandardRoots(layout)
  {
    layout := start;
    var chosen := ChooseRoot(s, name, system);
    var id: Option<Identity> := None;
    if chosen.Some? {
      ChosenRoot(s, name, system);
      id := ReadIdentity(s, chosen.value);
    }
    if id.Some? {
      layout := layout.(roots := layout.roots[name := id.value.canonical],
                        identities := layout.identities[name := id.value]);
    } else {
      layout := layout.(errors := layout.errors[name := MissingOr(s, name)]);
    }
    if name != "system" { DiscoveredOne(s, name, system, start, layout, chosen, id); }
  }

  lemma DiscoveredOne(s: Snapshot, name: string, system: Path, start: Layout, layout: Layout,
                      chosen: Option<PathEvidence>, id: Option<Identity>)
    requires Absent(start, name) || Discovered(s, start, name, system)
    requires chosen == ChooseRoot(s, name, system) && (chosen.None? ==> id.None?)
    requires chosen.Some? ==> id == IdentityOf(s, chosen.value)
    requires layout == if id.Some?
                       then start.(roots := start.roots[name := id.value.canonical],
                                   identities := start.identities[name := id.value])
                       else start.(errors := start.errors[name := MissingOr(s, name)])
    ensures Discovered(s, layout, name, system)
  {
    forall root ensures StandsFor(s, name, system, root) <==> chosen == Some(root) {
      ChosenStandsFor(s, name, system, root);
    }
    if chosen.Some? { IdentityMeans(s, chosen.value); }
    hide StandsFor, ChooseRoot, Inspected, ChildIs, IdentityOf;
    if id.Some? {
      assert Identified(s, layout, name, chosen.value);
      hide Identified;
    } else {
      assert name !in layout.roots;
      hide Identified;
    }
  }

  /** What discovery makes of an extra partition: what is seen at its top-level place,
      whatever it is, as long as all mounts below it could be inspected. */
  ghost predicate ExtraFound(s: Snapshot, layout: Layout, name: string) {
    && ([name] in s.paths && Inspected(s, s.paths[[name]].canonical) ==>
          && name in layout.roots && layout.roots[name] == s.paths[[name]].canonical
          && Identified(s, layout, name, s.paths[[name]]))
    && ([name] in s.paths && !Inspected(s, s.paths[[name]].canonical) ==>
          name in layout.errors && layout.errors[name] == LayoutUnavailable)
  }

  /** With nothing known of it before, that is all there is of an extra partition. */
  ghost predicate OnlyExtra(s: Snapshot, layout: Layout, name: string) {
    && (name in layout.roots <==> [name] in s.paths && Inspected(s, s.paths[[name]].canonical))
    && (name in layout.errors <==> [name] in s.paths && !Inspected(s, s.paths[[name]].canonical))
  }

  lemma ExtraOne(s: Snapshot, name: string, before: Layout, layout: Layout, isNew: bool)
    requires isNew ==> Absent(before, name) || OnlyExtra(s, before, name)
    requires layout ==
             if [name] !in s.paths then before
             else
               var id := IdentityOf(s, s.paths[[name]]);
               if id.Some?
               then before.(roots := before.roots[name := id.value.canonical],
                            identities := before.identities[name := id.value])
               else before.(errors := before.errors[name := LayoutUnavailable])
    ensures ExtraFound(s, layout, name) && (isNew ==> OnlyExtra(s, layout, name))
    ensures forall n :: n != name ==> AgreeOn(before, layout, n)
    ensures "system" in before.roots ==> "system" in layout.roots
  {
    if [name] in s.paths { IdentityMeans(s, s.paths[[name]]); }
    hide Inspected, ChildIs, IdentityOf;
  }

  lemma StillExtra(s: Snapshot, a: Layout, b: Layout, name: string)
    requires AgreeOn(a, b, name)
    ensures ExtraFound(s, a, name) ==> ExtraFound(s, b, name)
    ensures OnlyExtra(s, a, name) ==> OnlyExtra(s, b, name)
  {
    hide Inspected, ChildIs;
  }

  method DiscoverExtras(s: Snapshot, ghost managed: seq<string>, extras: seq<string>, system: Path, start: Layout)
    returns (layout: Layout)
    requires "system" in start.roots
    requires forall name :: name !in managed && name != "system" ==> Absent(start, name)
    ensures "system" in layout.roots
    ensures forall n :: n !in extras ==> AgreeOn(start, layout, n)
    ensures forall n :: n in extras ==> ExtraFound(s, layout, n)
    ensures forall n :: n in extras && n !in managed && n != "system" ==> OnlyExtra(s, layout, n)
    ensures StandardRoots(start) && StandardInput(s, managed, extras) ==> StandardRoots(layout)
  {
    layout := start;
    for i := 0 to |extras|
      invariant "system" in layout.roots
      invariant forall n :: n !in extras[..i] ==> AgreeOn(start, layout, n)
      invariant forall n :: n in extras[..i] ==> ExtraFound(s, layout, n)
      invariant forall n :: n in extras[..i] && n !in managed && n != "system" ==> OnlyExtra(s, layout, n)
      invariant StandardRoots(start) && StandardInput(s, managed, extras) ==> StandardRoots(layout)
    {
      var name := extras[i];
      assert extras[..i+1] == extras[..i] + [name] && name in extras;
      ghost var before := layout;
      if [name] in s.paths {
        var id := ReadIdentity(s, s.paths[[name]]);
        if id.Some? {
          layout := layout.(roots := layout.roots[name := id.value.canonical],
                            identities := layout.identities[name := id.value]);
        } else {
          layout := layout.(errors := layout.errors[name := LayoutUnavailable]);
        }
      }
      hide ExtraFound, OnlyExtra;
      ghost var isNew := name !in managed && name != "system";
      ExtraOne(s, name, before, layout, isNew) by {
        if isNew && name !in extras[..i] { assert AgreeOn(start, before, name) && Absent(start, name); }
      }
      forall n | n in extras[..i+1] && n != name
        ensures ExtraFound(s, layout, n) && (n !in managed && n != "system" ==> OnlyExtra(s, layout, n))
      {
        StillExtra(s, before, layout, n);
      }
    }
    assert extras[..|extras|] == extras;
  }
}
