/// Plan-time conflicts (src/plan/mod.rs): the allocation table and the four tree
/// walkers find exactly the pairs of contributions that cannot be served together.
module PlanConflicts {
  import opened FileTrees
  import opened MountTrees
  import opened Wrappers

  /** A kept module entry and the target it is about. */
  datatype Contribution = Contribution(target: Path, source: MountSource)

  /** A reported conflict. */
  datatype Conflict = Conflict(target: Path, first: MountSource, second: MountSource)

  // --- Which pairs conflict -----------------------------------------------

  predicate Active(s: MountSource) { s.backend != Ignore }

  predicate PlainDirectory(s: MountSource) { s.fileType.Directory? && !s.replace }

  datatype Kind = ReplacedOverlay | ShadowedVfs | OpaqueVfs | Removed

  /** Whether a contribution claims what lies below its target, in the way of a kind. */
  predicate Owns(kind: Kind, s: MountSource) {
    match kind
    case ReplacedOverlay => s.backend.Magic? && s.replace
    case ShadowedVfs => (s.backend.Overlay? || s.backend.Magic?) && (s.fileType.Directory? || s.replace)
    case OpaqueVfs => s.backend.Vfs? && s.replace
    case Removed => s.fileType.Whiteout? && Active(s)
  }

  /** Whether a contribution strictly below such a claim conflicts with it. */
  predicate HitBelow(kind: Kind, s: MountSource) {
    match kind
    case ReplacedOverlay => s.backend.Overlay?
    case ShadowedVfs => s.backend.Vfs?
    case OpaqueVfs => !s.backend.Vfs?
    case Removed => Active(s)
  }

  /** Whether a contribution on the same target conflicts with it. */
  predicate HitHere(kind: Kind, s: MountSource) {
    match kind
    case ReplacedOverlay => false
    case ShadowedVfs => false
    case OpaqueVfs => !s.backend.Vfs?
    case Removed => Active(s) && !s.fileType.Whiteout?
  }

  predicate Clash(kind: Kind, p: Path, a: MountSource, q: Path, b: MountSource) {
    Owns(kind, a) && ((Above(p, q) && HitBelow(kind, b)) || (p == q && HitHere(kind, b)))
  }

  /** Two active contributions of different backends share a target only as plain
      directories. */
  predicate Unshareable(a: MountSource, b: MountSource) {
    Active(a) && Active(b) && a.backend != b.backend && !(PlainDirectory(a) && PlainDirectory(b))
  }

  /** The pairs that make a plan fail: one target for two backends, other than as plain
      directories; an overlay source in what magic replaces; a VFS source in a directory
      or a replacement that is mounted; anything but VFS in what VFS replaces, ignored
      sources included; anything in what is removed, or beside the removal. */
  predicate Conflicting(a: Contribution, b: Contribution) {
    var s, t, inside := a.source, b.source, a.target <= b.target && a.target != b.target;
    || (a.target == b.target && s.backend != Ignore && t.backend != Ignore && s.backend != t.backend
        && (s.fileType != Directory || s.replace || t.fileType != Directory || t.replace))
    || (inside && s.backend == Magic && s.replace && t.backend == Overlay)
    || (inside && (s.backend == Magic || s.backend == Overlay) && (s.fileType == Directory || s.replace)
        && t.backend == Vfs)
    || ((inside || a.target == b.target) && s.backend == Vfs && s.replace && t.backend != Vfs)
    || (s.fileType == Whiteout && s.backend != Ignore && t.backend != Ignore
        && (inside || (a.target == b.target && t.fileType != Whiteout)))
  }

  /** That is a target that cannot be shared, or a clash of one of four kinds. */
  lemma ConflictKinds()
    ensures forall a, b :: Conflicting(a, b) <==>
                           || (a.target == b.target && Unshareable(a.source, b.source))
                           || exists kind :: Clash(kind, a.target, a.source, b.target, b.source)
  {
    forall a: Contribution, b: Contribution
      ensures Conflicting(a, b) <==>
              || (a.target == b.target && Unshareable(a.source, b.source))
              || exists kind :: Clash(kind, a.target, a.source, b.target, b.source)
    {
      var p, s, q, t := a.target, a.source, b.target, b.source;
      assert (exists kind :: Clash(kind, p, s, q, t)) <==>
        (Clash(ReplacedOverlay, p, s, q, t) || Clash(ShadowedVfs, p, s, q, t) || Clash(OpaqueVfs, p, s, q, t)
         || Clash(Removed, p, s, q, t));
    }
  }

  // --- Clashes in a tree, node by node ------------------------------------

  ghost predicate NoClash(kind: Kind, node: MountNode) {
    forall p, a, q, b :: Occurs(node, p, a) && Occurs(node, q, b) ==> !Clash(kind, p, a, q, b)
  }

  /** Nothing at or below a node conflicts with a claim made strictly above it. */
  ghost predicate NoHit(kind: Kind, node: MountNode) {
    forall q, b :: Occurs(node, q, b) ==> !HitBelow(kind, b)
  }

  /** Nothing at or below a node conflicts with a claim made at it. */
  ghost predicate Clean(kind: Kind, node: MountNode) {
    forall q, b :: Occurs(node, q, b) ==> if q == [] then !HitHere(kind, b) else !HitBelow(kind, b)
  }

  lemma OccursBelow(node: MountNode, n: string, p: Path, s: MountSource)
    requires n in node.children
    ensures Occurs(node, [n] + p, s) <==> Occurs(node.children[n], p, s)
  {
    assert ([n] + p)[1..] == p;
  }

  lemma ClashBelow(kind: Kind, n: string, p: Path, a: MountSource, q: Path, b: MountSource)
    ensures Clash(kind, [n] + p, a, [n] + q, b) <==> Clash(kind, p, a, q, b)
  {
    if [n] + p <= [n] + q { assert p == ([n] + p)[1..] == ([n] + q)[1..][..|p|] == q[..|p|]; }
    if p <= q { assert [n] + p == ([n] + q)[..|p|+1]; }
    assert p == ([n] + p)[1..] && q == ([n] + q)[1..];
  }

  /** A tree has no clash exactly when its children have none and no claim at the
      node itself is hit. */
  lemma NoClashByNode(kind: Kind, node: MountNode)
    requires forall n :: n in node.children ==> NoClash(kind, node.children[n])
    requires (exists a :: a in node.sources && Owns(kind, a)) ==> Clean(kind, node)
    ensures NoClash(kind, node)
  {
    forall p, a, q, b | Occurs(node, p, a) && Occurs(node, q, b) ensures !Clash(kind, p, a, q, b) {
      if p == [] {
        assert Owns(kind, a) ==> Clean(kind, node);
      } else if q != [] && q[0] == p[0] {
        var n := p[0];
        assert p == [n] + p[1..] && q == [n] + q[1..];
        OccursBelow(node, n, p[1..], a);
        OccursBelow(node, n, q[1..], b);
        ClashBelow(kind, n, p[1..], a, q[1..], b);
      }
    }
  }

  lemma NoHitByNode(kind: Kind, node: MountNode)
    requires forall n :: n in node.children ==> NoHit(kind, node.children[n])
    requires forall b :: b in node.sources ==> !HitBelow(kind, b)
    ensures NoHit(kind, node)
  {
    forall q, b | Occurs(node, q, b) ensures !HitBelow(kind, b) {
      if q != [] {
        assert q == [q[0]] + q[1..];
        OccursBelow(node, q[0], q[1..], b);
      }
    }
  }

  lemma CleanByNode(kind: Kind, node: MountNode)
    requires forall n :: n in node.children ==> NoHit(kind, node.children[n])
    requires forall b :: b in node.sources ==> !HitHere(kind, b)
    ensures Clean(kind, node)
  {
    forall q, b | Occurs(node, q, b) && q != [] ensures !HitBelow(kind, b) {
      assert q == [q[0]] + q[1..];
      OccursBelow(node, q[0], q[1..], b);
    }
  }

  /** The report of a walker names two contributions that really clash. */
  ghost predicate Found(kind: Kind, node: MountNode, p: Path, a: MountSource, q: Path, b: MountSource) {
    Occurs(node, p, a) && Occurs(node, q, b) && Clash(kind, p, a, q, b)
  }

  lemma FoundBelow(kind: Kind, node: MountNode, n: string, p: Path, a: MountSource, q: Path, b: MountSource)
    requires n in node.children && Found(kind, node.children[n], p, a, q, b)
    ensures Found(kind, node, [n] + p, a, [n] + q, b)
  {
    OccursBelow(node, n, p, a);
    OccursBelow(node, n, q, b);
    ClashBelow(kind, n, p, a, q, b);
  }

  // --- The walkers --------------------------------------------------------

  function FirstOwner(kind: Kind, sources: seq<MountSource>): (r: Option<MountSource>)
    ensures r.Some? ==> r.value in sources && Owns(kind, r.value)
    ensures r.None? ==> forall s :: s in sources ==> !Owns(kind, s)
  {
    if sources == [] then None
    else if Owns(kind, sources[0]) then Some(sources[0])
    else
      assert sources == [sources[0]] + sources[1..];
      FirstOwner(kind, sources[1..])
  }

  function FirstHit(kind: Kind, here: bool, sources: seq<MountSource>): (r: Option<MountSource>)
    ensures r.Some? ==> r.value in sources && (if here then HitHere(kind, r.value) else HitBelow(kind, r.value))
    ensures r.None? ==> forall s :: s in sources ==> !(if here then HitHere(kind, s) else HitBelow(kind, s))
  {
    if sources == [] then None
    else if (if here then HitHere(kind, sources[0]) else HitBelow(kind, sources[0])) then Some(sources[0])
    else
      assert sources == [sources[0]] + sources[1..];
      FirstHit(kind, here, sources[1..])
  }

  /** A contribution of a backend strictly below a node, if there is one. */
  method FirstDescendantSource(node: MountNode, backend: Mode) returns (r: Option<MountSource>, ghost at: Path)
    ensures r.Some? ==> at != [] && Occurs(node, at, r.value) && r.value.backend == backend
    ensures r.None? ==> forall q, b :: Occurs(node, q, b) && q != [] ==> b.backend != backend
    decreases node
  {
    var todo := node.children.Keys;
    at := [];
    while todo != {}
      invariant todo <= node.children.Keys
      invariant forall n, q, b :: n in node.children && n !in todo && Occurs(node.children[n], q, b) ==>
                b.backend != backend
      decreases todo
    {
      var n :| n in todo;
      var child := node.children[n];
      r := SourceFor(child, backend);
      if r.Some? {
        at := [n];
        OccursBelow(node, n, [], r.value);
        assert [n] + [] == [n];
        return;
      }
      r, at := FirstDescendantSource(child, backend);
      if r.Some? {
        OccursBelow(node, n, at, r.value);
        at := [n] + at;
        return;
      }
      forall q, b | Occurs(child, q, b) ensures b.backend != backend {}
      todo := todo - {n};
    }
    forall q, b | Occurs(node, q, b) && q != [] ensures b.backend != backend {
      assert q == [q[0]] + q[1..];
      OccursBelow(node, q[0], q[1..], b);
    }
    r := None;
  }

  method EnsureReplaceBackendConsistency(node: MountNode, target: Path)
    returns (r: Option<Conflict>, ghost p: Path, ghost q: Path)
    ensures r.None? ==> NoClash(ReplacedOverlay, node)
    ensures r.Some? ==>
              Found(ReplacedOverlay, node, p, r.value.first, q, r.value.second) && r.value.target == target + p
    decreases node
  {
    var owner := FirstOwner(ReplacedOverlay, node.sources);
    if owner.Some? {
      var other, at := FirstDescendantSource(node, Overlay);
      if other.Some? {
        p, q := [], at;
        assert target + [] == target;
        return Some(Conflict(target, owner.value, other.value)), p, q;
      }
      assert Clean(ReplacedOverlay, node);
    }
    r, p, q := None, [], [];
    var todo := node.children.Keys;
    while todo != {}
      invariant todo <= node.children.Keys
      invariant forall n :: n in node.children && n !in todo ==> NoClash(ReplacedOverlay, node.children[n])
      decreases todo
    {
      var n :| n in todo;
      r, p, q := EnsureReplaceBackendConsistency(node.children[n], target + [n]);
      if r.Some? {
        FoundBelow(ReplacedOverlay, node, n, p, r.value.first, q, r.value.second);
        assert target + [n] + p == target + ([n] + p);
        p, q := [n] + p, [n] + q;
        return;
      }
      todo := todo - {n};
    }
    NoClashByNode(ReplacedOverlay, node);
    r := None;
  }

  /** What a walker that carries a claim from above guarantees. */
  ghost predicate WalkOk(kind: Kind, node: MountNode, above: Option<MountSource>) {
    NoClash(kind, node) && (above.Some? ==> NoHit(kind, node))
  }

  ghost predicate WalkFound(kind: Kind, node: MountNode, above: Option<MountSource>, c: Conflict, p: Path, q: Path) {
    (above == Some(c.first) && Occurs(node, q, c.second) && HitBelow(kind, c.second))
    || Found(kind, node, p, c.first, q, c.second)
  }

  method EnsureVfsNotShadowed(node: MountNode, target: Path, above: Option<MountSource>)
    returns (r: Option<Conflict>, ghost p: Path, ghost q: Path)
    requires above.Some? ==> Owns(ShadowedVfs, above.value)
    ensures r.None? ==> WalkOk(ShadowedVfs, node, above)
    ensures r.Some? ==> WalkFound(ShadowedVfs, node, above, r.value, p, q) && r.value.target == target + q
    decreases node
  {
    p, q := [], [];
    var vfs := FirstHit(ShadowedVfs, false, node.sources);
    if above.Some? && vfs.Some? {
      assert target + [] == target;
      return Some(Conflict(target, above.value, vfs.value)), p, q;
    }
    var own := FirstOwner(ShadowedVfs, node.sources);
    var below := if own.Some? then own else above;
    var todo := node.children.Keys;
    while todo != {}
      invariant todo <= node.children.Keys
      invariant forall n :: n in node.children && n !in todo ==> WalkOk(ShadowedVfs, node.children[n], below)
      decreases todo
    {
      var n :| n in todo;
      r, p, q := EnsureVfsNotShadowed(node.children[n], target + [n], below);
      if r.Some? {
        assert target + [n] + q == target + ([n] + q);
        p := LiftFound(ShadowedVfs, node, n, own, above, r.value, p, q);
        q := [n] + q;
        return;
      }
      todo := todo - {n};
    }
    WalkedNode(ShadowedVfs, node, own, above);
    r := None;
  }

  method EnsureVfsOpaqueExclusive(node: MountNode, target: Path, above: Option<MountSource>)
    returns (r: Option<Conflict>, ghost p: Path, ghost q: Path)
    requires above.Some? ==> Owns(OpaqueVfs, above.value)
    ensures r.None? ==> WalkOk(OpaqueVfs, node, above)
    ensures r.Some? ==> WalkFound(OpaqueVfs, node, above, r.value, p, q) && r.value.target == target + q
    decreases node
  {
    p, q := [], [];
    var own := FirstOwner(OpaqueVfs, node.sources);
    var owner := if own.Some? then own else above;
    var other := FirstHit(OpaqueVfs, true, node.sources);
    if owner.Some? && other.Some? {
      assert target + [] == target;
      return Some(Conflict(target, owner.value, other.value)), p, q;
    }
    var todo := node.children.Keys;
    while todo != {}
      invariant todo <= node.children.Keys
      invariant forall n :: n in node.children && n !in todo ==> WalkOk(OpaqueVfs, node.children[n], owner)
      decreases todo
    {
      var n :| n in todo;
      r, p, q := EnsureVfsOpaqueExclusive(node.children[n], target + [n], owner);
      if r.Some? {
        assert target + [n] + q == target + ([n] + q);
        p := LiftFound(OpaqueVfs, node, n, own, above, r.value, p, q);
        q := [n] + q;
        return;
      }
      todo := todo - {n};
    }
    WalkedNode(OpaqueVfs, node, own, above);
    r := None;
  }

  /** What a walk of the children means for their parent. */
  lemma WalkedNode(kind: Kind, node: MountNode, own: Option<MountSource>, above: Option<MountSource>)
    requires own == FirstOwner(kind, node.sources)
    requires forall n :: n in node.children ==> WalkOk(kind, node.children[n], if own.Some? then own else above)
    requires own.Some? ==> forall b :: b in node.sources ==> !HitHere(kind, b)
    requires above.Some? ==> forall b :: b in node.sources ==> !HitBelow(kind, b)
    ensures WalkOk(kind, node, above)
  {
    if own.Some? { CleanByNode(kind, node); }
    NoClashByNode(kind, node);
    if above.Some? { NoHitByNode(kind, node); }
  }

  /** A conflict found below a child is one of its parent; its first path is returned. */
  lemma LiftFound(kind: Kind, node: MountNode, n: string, own: Option<MountSource>, above: Option<MountSource>,
                  c: Conflict, p: Path, q: Path) returns (lifted: Path)
    requires n in node.children && own == FirstOwner(kind, node.sources)
    requires WalkFound(kind, node.children[n], if own.Some? then own else above, c, p, q)
    ensures WalkFound(kind, node, above, c, lifted, [n] + q)
  {
    lifted := [n] + p;
    if Found(kind, node.children[n], p, c.first, q, c.second) {
      FoundBelow(kind, node, n, p, c.first, q, c.second);
    } else {
      OccursBelow(node, n, q, c.second);
      if own.Some? { lifted := []; }
    }
  }

  method EnsureWhiteoutExclusive(node: MountNode, target: Path)
    returns (r: Option<Conflict>, ghost p: Path, ghost q: Path)
    ensures r.None? ==> NoClash(Removed, node)
    ensures r.Some? ==> Found(Removed, node, p, r.value.first, q, r.value.second) && r.value.target == target + p
    decreases node
  {
    p, q := [], [];
    var removal := FirstOwner(Removed, node.sources);
    if removal.Some? {
      var other := FirstHit(Removed, true, node.sources);
      if other.None? { other, q := FirstDescendantSource(node, Overlay); }
      if other.None? { other, q := FirstDescendantSource(node, Magic); }
      if other.None? { other, q := FirstDescendantSource(node, Vfs); }
      if other.Some? {
        assert target + [] == target;
        return Some(Conflict(target, removal.value, other.value)), p, q;
      }
      assert Clean(Removed, node);
    }
    var todo := node.children.Keys;
    while todo != {}
      invariant todo <= node.children.Keys
      invariant forall n :: n in node.children && n !in todo ==> NoClash(Removed, node.children[n])
      decreases todo
    {
      var n :| n in todo;
      r, p, q := EnsureWhiteoutExclusive(node.children[n], target + [n]);
      if r.Some? {
        FoundBelow(Removed, node, n, p, r.value.first, q, r.value.second);
        assert target + [n] + p == target + ([n] + p);
        p, q := [n] + p, [n] + q;
        return;
      }
      todo := todo - {n};
    }
    NoClashByNode(Removed, node);
    r := None;
  }

  // --- The plan -----------------------------------------------------------

  /** The tree holds the contributions and nothing else. */
  ghost predicate Holds(tree: MountNode, contributions: seq<Contribution>) {
    forall q, s :: Occurs(tree, q, s) <==> Contribution(q, s) in contributions
  }

  ghost predicate ConflictFree(contributions: seq<Contribution>) {
    forall a, b :: a in contributions && b in contributions ==> !Conflicting(a, b)
  }

  ghost predicate Shareable(contributions: seq<Contribution>) {
    forall a, b :: a in contributions && b in contributions && a.target == b.target ==> !Unshareable(a.source, b.source)
  }

  /** A tree without a clash of any kind is one whose contributions have none. */
  lemma TreeConflicts(tree: MountNode, contributions: seq<Contribution>)
    requires Holds(tree, contributions)
    ensures ConflictFree(contributions) <==> Shareable(contributions) && forall kind :: NoClash(kind, tree)
  {
    ConflictKinds();
    hide Conflicting, Clash;
    if Shareable(contributions) && forall kind :: NoClash(kind, tree) {
      forall a, b | a in contributions && b in contributions ensures !Conflicting(a, b) {
        assert a == Contribution(a.target, a.source) && b == Contribution(b.target, b.source);
        assert Occurs(tree, a.target, a.source) && Occurs(tree, b.target, b.source);
        forall kind ensures !Clash(kind, a.target, a.source, b.target, b.source) {
          assert NoClash(kind, tree);
        }
      }
    }
    if ConflictFree(contributions) {
      forall kind, p, a, q, b | Occurs(tree, p, a) && Occurs(tree, q, b) ensures !Clash(kind, p, a, q, b) {
        assert !Conflicting(Contribution(p, a), Contribution(q, b));
      }
      forall a, b | a in contributions && b in contributions && a.target == b.target
        ensures !Unshareable(a.source, b.source)
      {
        assert !Conflicting(a, b);
      }
    }
  }

  /** The report names two contributions that conflict, at the target of one. */
  ghost predicate Reported(c: Conflict, contributions: seq<Contribution>) {
    exists a, b :: a in contributions && b in contributions && Conflicting(a, b)
                   && c.first == a.source && c.second == b.source && (c.target == a.target || c.target == b.target)
  }

  function Given(assignments: map<Path, seq<MountSource>>, target: Path): seq<MountSource> {
    if target in assignments then assignments[target] else []
  }

  class PlanBuilder {
    var tree: MountNode
    /** The active contributions to every target, in the order they came. */
    var assignments: map<Path, seq<MountSource>>
    ghost var contributions: seq<Contribution>

    ghost predicate Valid()
      reads this`tree, this`assignments, this`contributions
    {
      && Holds(tree, contributions) && Shareable(contributions) && SortedTree(tree)
      && forall q, s :: q in assignments && s in assignments[q] <==> Active(s) && Contribution(q, s) in contributions
    }

    constructor ()
      ensures Valid() && contributions == []
    {
      tree, assignments, contributions := NO_NODE, map[], [];
      new;
      forall q, s ensures !Occurs(tree, q, s) {
        if q != [] { assert q[0] !in tree.children; }
      }
    }

    /** Claim a target; the first assignment that cannot share it is the conflict. */
    method Register(target: Path, source: MountSource) returns (r: Option<Conflict>)
      requires Active(source)
      requires target in assignments ==> forall s :: s in assignments[target] ==> Active(s)
      modifies this`assignments
      ensures r.Some? ==> target in old(assignments) && r.value.first in old(assignments)[target]
                          && Unshareable(r.value.first, source) && r.value == Conflict(target, r.value.first, source)
      ensures r.None? ==> target in old(assignments) ==> forall s :: s in old(assignments)[target] ==>
                !Unshareable(s, source)
      ensures r.None? ==> assignments == old(assignments)[target := Given(old(assignments), target) + [source]]
    {
      var given := Given(assignments, target);
      for i := 0 to |given|
        invariant forall j :: 0 <= j < i ==> !Unshareable(given[j], source)
      {
        assert given[i] in given;
        var shareable := PlainDirectory(given[i]) && PlainDirectory(source);
        if given[i].backend != source.backend && !shareable {
          return Some(Conflict(target, given[i], source));
        }
      }
      assignments := assignments[target := given + [source]];
      r := None;
    }

    /** Insert a contribution into the tree and, unless it is ignored, register it. */
    method Contribute(target: Path, source: MountSource) returns (r: Option<Conflict>)
      requires Valid()
      modifies this`tree, this`assignments, this`contributions
      ensures contributions == old(contributions) + [Contribution(target, source)]
      ensures r.None? ==> Valid()
      ensures r.Some? ==> Reported(r.value, contributions)
    {
      forall q, s
        ensures Occurs(InsertSource(tree, target, source), q, s) <==> Occurs(tree, q, s) || (q == target && s == source)
      {
        Inserted(tree, target, source, q, s);
      }
      InsertKeepsOrder(tree, target, source, Offset(target, source));
      tree := InsertSource(tree, target, source);
      contributions := contributions + [Contribution(target, source)];
      r := None;
      if Active(source) {
        r := Register(target, source);
        if r.Some? {
          ConflictKinds();
          assert Conflicting(Contribution(target, r.value.first), Contribution(target, source));
        }
      }
      if r.None? {
        forall a, b | a in contributions && b in contributions && a.target == b.target
          ensures !Unshareable(a.source, b.source)
        {
          assert a == Contribution(a.target, a.source) && b == Contribution(b.target, b.source);
        }
      }
    }

    /** The four walkers, in the order the planner runs them. */
    method CheckTree() returns (r: Option<Conflict>)
      requires Valid()
      ensures r.None? ==> ConflictFree(contributions)
      ensures r.Some? ==> Reported(r.value, contributions)
    {
      ghost var p: Path, q: Path;
      r, p, q := EnsureReplaceBackendConsistency(tree, []);
      if r.Some? { ReportFound(ReplacedOverlay, tree, contributions, r.value, p, q); return; }
      r, p, q := EnsureVfsNotShadowed(tree, [], None);
      if r.Some? { ReportFound(ShadowedVfs, tree, contributions, r.value, p, q); return; }
      r, p, q := EnsureVfsOpaqueExclusive(tree, [], None);
      if r.Some? { ReportFound(OpaqueVfs, tree, contributions, r.value, p, q); return; }
      r, p, q := EnsureWhiteoutExclusive(tree, []);
      if r.Some? { ReportFound(Removed, tree, contributions, r.value, p, q); return; }
      forall kind: Kind ensures NoClash(kind, tree) {
        match kind
        case ReplacedOverlay =>
        case ShadowedVfs =>
        case OpaqueVfs =>
        case Removed =>
      }
      TreeConflicts(tree, contributions);
    }
  }

  lemma ReportFound(kind: Kind, tree: MountNode, contributions: seq<Contribution>, c: Conflict, p: Path, q: Path)
    requires Holds(tree, contributions) && Found(kind, tree, p, c.first, q, c.second)
    requires c.target == [] + p || c.target == [] + q
    ensures Reported(c, contributions)
  {
    assert [] + p == p && [] + q == q;
    ConflictKinds();
    assert Conflicting(Contribution(p, c.first), Contribution(q, c.second));
  }

  /** Insert and register every contribution, then check the tree: the plan fails
      exactly when two contributions conflict, and then names two that do. */
  method Plan(contributions: seq<Contribution>) returns (r: Option<Conflict>)
    ensures r.Some? <==> exists a, b :: a in contributions && b in contributions && Conflicting(a, b)
    ensures r.Some? ==> Reported(r.value, contributions)
  {
    var builder := new PlanBuilder();
    for i := 0 to |contributions|
      invariant builder.Valid() && builder.contributions == contributions[..i]
    {
      r := builder.Contribute(contributions[i].target, contributions[i].source);
      assert contributions[..i+1] == contributions[..i] + [contributions[i]];
      if r.Some? { return; }
    }
    r := builder.CheckTree();
    assert contributions[..|contributions|] == contributions;
  }
}
