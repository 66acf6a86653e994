/// Nested mounts under an overlay (src/overlayfs/overlayfs.rs): the whole view is
/// prepared in staging, every child mount in its place, and published at once.
module OverlayChildren {
  import opened FileTrees
  import opened MountTrees
  import opened OverlayLayers
  import opened Strings
  import opened Wrappers

  /** What is reached where links are followed. */
  function Led(l: Layer): (r: Option<Layer>)
    ensures r.Some? ==> !r.value.Link?
    ensures !l.Link? ==> r == Some(l)
  {
    if !l.Link? then Some(l) else if l.leads.Some? then Led(l.leads.value) else None
  }

  predicate LeadsToDirectory(l: Layer) {
    Led(l).Some? && Led(l).value.Folder?
  }

  predicate Directories(layers: seq<Layer>) {
    forall i :: 0 <= i < |layers| ==> LeadsToDirectory(layers[i])
  }

  /** The layers as the kernel opens them. */
  function Opened(layers: seq<Layer>): (r: seq<Layer>)
    ensures |r| == |layers|
    ensures Directories(layers) ==> Folders(r)
  {
    if layers == [] then []
    else
      var rest := Opened(layers[1..]);
      assert Directories(layers) ==> LeadsToDirectory(layers[0]) && Directories(layers[1..]);
      [if Led(layers[0]).Some? then Led(layers[0]).value else layers[0]] + rest
  }

  /** What a module root has at a relative path: links on the way are followed, the
      last component is not. */
  function Walk(l: Layer, relative: Path): Option<Layer>
    decreases relative
  {
    if relative == [] then Some(l)
    else if LeadsToDirectory(l) && relative[0] in Led(l).value.entries then
      Walk(Led(l).value.entries[relative[0]], relative[1..])
    else None
  }

  /** Whether a path is there below a directory with no link on the way or at its end. */
  predicate Reaches(l: Layer, relative: Path)
    decreases relative
  {
    relative == []
    || (l.Folder? && relative[0] in l.entries && !l.entries[relative[0]].Link?
        && Reaches(l.entries[relative[0]], relative[1..]))
  }

  /** The module roots that have something at a relative path, in their order. */
  function SubLayers(roots: seq<Layer>, relative: Path): seq<Layer> {
    if roots == [] then []
    else
      var top := Walk(roots[0], relative);
      (if top.Some? then [top.value] else []) + SubLayers(roots[1..], relative)
  }

  lemma {:induction false} WalkFurther(l: Layer, a: Path, b: Path)
    ensures Walk(l, a + b) == if Walk(l, a).Some? then Walk(Walk(l, a).value, b) else None
    decreases a
  {
    if a == [] {
      assert a + b == b;
    } else if LeadsToDirectory(l) && a[0] in Led(l).value.entries {
      WalkFurther(Led(l).value.entries[a[0]], a[1..], b);
      assert (a + b)[1..] == a[1..] + b;
    }
  }

  lemma {:induction false} SubLayersFurther(roots: seq<Layer>, a: Path, b: Path)
    ensures SubLayers(SubLayers(roots, a), b) == SubLayers(roots, a + b)
  {
    if roots != [] {
      WalkFurther(roots[0], a, b);
      SubLayersFurther(roots[1..], a, b);
      var first := Walk(roots[0], a);
      if first.Some? {
        assert SubLayers(roots, a)[1..] == SubLayers(roots[1..], a);
      } else {
        assert SubLayers(roots, a) == SubLayers(roots[1..], a);
      }
    }
  }

  lemma {:induction false} SubLayersHere(roots: seq<Layer>)
    ensures SubLayers(roots, []) == roots
  {
    if roots != [] { SubLayersHere(roots[1..]); }
  }

  // --- The child mount points ---------------------------------------------

  predicate PathLeq(a: Path, b: Path) {
    LexLeq(Joined(a), Joined(b))
  }

  function InsertPath(p: Path, paths: seq<Path>): seq<Path> {
    if paths == [] || PathLeq(p, paths[0]) then [p] + paths else [paths[0]] + InsertPath(p, paths[1..])
  }

  /** `collect_child_mount_points`: what is mounted strictly below, sorted and once each. */
  function CollectChildren(mountPoints: seq<Path>, root: Path): seq<Path> {
    if mountPoints == [] then []
    else
      var rest := CollectChildren(mountPoints[1..], root);
      if Above(root, mountPoints[0]) && mountPoints[0] !in rest then InsertPath(mountPoints[0], rest) else rest
  }

  /** No path comes after one below it, and none twice. */
  predicate ParentsFirst(paths: seq<Path>) {
    forall i, j :: 0 <= i < j < |paths| ==> !(paths[j] <= paths[i])
  }

  predicate SortedPaths(paths: seq<Path>) {
    forall i, j :: 0 <= i < j < |paths| ==> PathLeq(paths[i], paths[j]) && paths[i] != paths[j]
  }

  lemma {:induction false} InsertedPath(p: Path, paths: seq<Path>)
    requires SortedPaths(paths) && p !in paths
    ensures SortedPaths(InsertPath(p, paths))
    ensures forall x :: x in InsertPath(p, paths) <==> x == p || x in paths
  {
    if paths != [] {
      assert paths == [paths[0]] + paths[1..];
      if PathLeq(p, paths[0]) {
        forall j | 0 <= j < |paths| ensures PathLeq(p, paths[j]) {
          if j > 0 { LexTransitive(Joined(p), Joined(paths[0]), Joined(paths[j])); }
        }
      } else {
        InsertedPath(p, paths[1..]);
        var rest := InsertPath(p, paths[1..]);
        LexTotal(Joined(p), Joined(paths[0]));
        forall j | 0 <= j < |rest| ensures PathLeq(paths[0], rest[j]) && paths[0] != rest[j] {
          assert rest[j] in rest;
          if rest[j] != p {
            var k :| 0 <= k < |paths[1..]| && paths[1..][k] == rest[j];
          }
        }
      }
    }
  }

  lemma {:induction false} PrefixJoined(a: Path, b: Path)
    requires a <= b && a != []
    ensures LexLeq(Joined(a), Joined(b))
  {
    if |a| > 1 {
      PrefixJoined(a[1..], b[1..]);
      LexAfter(a[0] + "/", Joined(a[1..]), Joined(b[1..]));
    } else if |b| > 1 {
      PrefixIsLeq(a[0], a[0] + ("/" + Joined(b[1..])));
      assert Joined(b) == a[0] + ("/" + Joined(b[1..]));
    } else {
      LexTotal(Joined(a), Joined(a));
    }
  }

  /** The sorted child list puts parents first and lists exactly what is mounted
      strictly below the root. */
  lemma {:induction false} CollectedChildren(mountPoints: seq<Path>, root: Path)
    ensures SortedPaths(CollectChildren(mountPoints, root)) && ParentsFirst(CollectChildren(mountPoints, root))
    ensures forall p :: p in CollectChildren(mountPoints, root) <==> p in mountPoints && Above(root, p)
  {
    if mountPoints != [] {
      CollectedChildren(mountPoints[1..], root);
      var rest := CollectChildren(mountPoints[1..], root);
      if mountPoints[0] !in rest { InsertedPath(mountPoints[0], rest); }
      assert mountPoints == [mountPoints[0]] + mountPoints[1..];
    }
    var all := CollectChildren(mountPoints, root);
    forall i, j | 0 <= i < j < |all| && all[j] <= all[i] ensures false {
      assert all[i] in all && all[j] in all;
      PrefixJoined(all[j], all[i]);
      LexAntisymmetric(Joined(all[j]), Joined(all[i]));
      PrefixIsShorter(all[j], all[i]);
    }
  }

  // --- The prepared view --------------------------------------------------

  /** What was put at a place of the prepared view: a recursive clone of a native
      mount, an overlay, or a module file bound over a file mount. */
  datatype Action =
    | Clone(child: Path, at: Path)
    | Overlaid(child: Path, at: Path, tree: Layer)
    | Bound(child: Path, at: Path, item: Layer)

  /** Whether an action brings a mount point back: a clone carries those below it. */
  predicate Establishes(a: Action, mountPoint: Path) {
    if a.Clone? then a.child <= mountPoint else a.child == mountPoint
  }

  predicate Once(actions: seq<Action>, mountPoint: Path) {
    exists i :: 0 <= i < |actions| && Establishes(actions[i], mountPoint)
                && forall j :: 0 <= j < |actions| && j != i ==> !Establishes(actions[j], mountPoint)
  }

  /** An action at its own place that shows the right thing there: the module layers
      of that place over its original mount, or the original mount alone. */
  predicate Fits(a: Action, destination: Path, root: Path, roots: seq<Layer>, stock: map<Path, Layer>) {
    && root <= a.child && a.child in stock && a.at == destination + a.child[|root|..]
    && var layers := SubLayers(roots, a.child[|root|..]);
    match a
    case Clone(_, _) => layers == []
    case Overlaid(_, _, tree) =>
      stock[a.child].Folder? && Directories(layers) && Mount(Opened(layers) + [stock[a.child]]) == Some(tree)
    case Bound(_, _, item) => !stock[a.child].Folder? && layers != [] && item == layers[0] && item.Item?
  }

  predicate AtOrBelow(children: seq<Path>, root: Path, c: Path) {
    root <= c && (c == root || c in children)
  }

  /** A complete view: every mount point at or below the root is back exactly once. */
  predicate Complete(actions: seq<Action>, destination: Path, root: Path, roots: seq<Layer>, children: seq<Path>,
                     stock: map<Path, Layer>)
  {
    && (forall i :: 0 <= i < |actions| ==>
          Fits(actions[i], destination, root, roots, stock) && AtOrBelow(children, root, actions[i].child))
    && Once(actions, root) && forall c :: c in children && root <= c ==> Once(actions, c)
  }

  /** Whether the module changes no kind of mount: only directories, or links to some,
      over a directory, and a file on top over anything else. */
  predicate Preservable(roots: seq<Layer>, root: Path, c: Path, stock: map<Path, Layer>)
    requires root <= c && c in stock
  {
    var layers := SubLayers(roots, c[|root|..]);
    layers == [] || (if stock[c].Folder? then Directories(layers) else layers[0].Item?)
  }

  predicate AllPreservable(roots: seq<Layer>, root: Path, children: seq<Path>, stock: map<Path, Layer>)
    requires forall c :: c in children && Above(root, c) ==> c in stock
  {
    forall c :: c in children && Above(root, c) ==> Preservable(roots, root, c, stock)
  }

  /** What is preservable below a root is so below any place on the way. */
  lemma PreservableBelow(roots: seq<Layer>, root: Path, child: Path, children: seq<Path>, stock: map<Path, Layer>)
    requires Above(root, child) && child in children && (forall c :: c in children ==> c in stock)
    requires AllPreservable(roots, root, children, stock)
    ensures AllPreservable(SubLayers(roots, child[|root|..]), child, children, stock)
  {
    forall c | c in children && Above(child, c)
      ensures Preservable(SubLayers(roots, child[|root|..]), child, c, stock)
    {
      assert c[|root|..] == child[|root|..] + c[|child|..];
      SubLayersFurther(roots, child[|root|..], c[|child|..]);
      assert Preservable(roots, root, c, stock);
    }
  }

  // --- The place of a child in the mounted tree ---------------------------

  /** The tree that an overlay of a place shows. */
  function TreeAt(roots: seq<Layer>, root: Path, p: Path, stock: map<Path, Layer>): Option<Layer>
    requires root <= p && p in stock
  {
    Mount(Opened(SubLayers(roots, p[|root|..])) + [stock[p]])
  }

  /** The topmost mounts below a place. */
  predicate DirectlyBelow(children: seq<Path>, p: Path, c: Path) {
    c in children && Above(p, c) && forall x :: x in children && Above(p, x) ==> !Above(x, c)
  }

  predicate PlacedAt(roots: seq<Layer>, root: Path, p: Path, c: Path, stock: map<Path, Layer>)
    requires root <= p && p in stock
  {
    p <= c && TreeAt(roots, root, p, stock).Some? && Reaches(TreeAt(roots, root, p, stock).value, c[|p|..])
  }

  /** Whether a place gets an overlay of its own. */
  predicate Carries(roots: seq<Layer>, root: Path, children: seq<Path>, p: Path) {
    root <= p && (p == root || (p in children && SubLayers(roots, p[|root|..]) != []))
  }

  /** Whether every overlay still has the places of the mounts directly below it. */
  ghost predicate AllPlaced(roots: seq<Layer>, root: Path, children: seq<Path>, stock: map<Path, Layer>)
    requires root in stock && forall c :: c in children ==> c in stock
  {
    forall p, c :: Carries(roots, root, children, p) && DirectlyBelow(children, p, c) ==>
      PlacedAt(roots, root, p, c, stock)
  }

  /** The same for the overlays at or below one direct child, and for its own place. */
  ghost predicate PlacedFrom(roots: seq<Layer>, root: Path, children: seq<Path>, stock: map<Path, Layer>, d: Path)
    requires root in stock && (forall c :: c in children ==> c in stock)
  {
    && PlacedAt(roots, root, root, d, stock)
    && forall p, c :: p in children && root <= p && d <= p ==>
         Carries(roots, root, children, p) && DirectlyBelow(children, p, c) ==> PlacedAt(roots, root, p, c, stock)
  }

  lemma SamePlace(roots: seq<Layer>, root: Path, d: Path, p: Path, c: Path, stock: map<Path, Layer>)
    requires root <= d && d <= p && p in stock
    ensures PlacedAt(SubLayers(roots, d[|root|..]), d, p, c, stock) <==> PlacedAt(roots, root, p, c, stock)
    ensures SubLayers(SubLayers(roots, d[|root|..]), p[|d|..]) == SubLayers(roots, p[|root|..])
  {
    assert p[|root|..] == d[|root|..] + p[|d|..];
    SubLayersFurther(roots, d[|root|..], p[|d|..]);
  }

  /** What is placed below a root is so below any overlay on the way. */
  lemma PlacedBelow(roots: seq<Layer>, root: Path, d: Path, children: seq<Path>, stock: map<Path, Layer>)
    requires root in stock && d in children && Above(root, d) && (forall c :: c in children ==> c in stock)
    requires SubLayers(roots, d[|root|..]) != [] && AllPlaced(roots, root, children, stock)
    ensures AllPlaced(SubLayers(roots, d[|root|..]), d, children, stock)
  {
    var sub := SubLayers(roots, d[|root|..]);
    forall p, c | Carries(sub, d, children, p) && DirectlyBelow(children, p, c) ensures PlacedAt(sub, d, p, c, stock) {
      SamePlace(roots, root, d, p, c, stock);
      assert Carries(roots, root, children, p);
    }
  }

  lemma PlacedFromNested(roots: seq<Layer>, root: Path, d: Path, children: seq<Path>, stock: map<Path, Layer>)
    requires root in stock && d in children && Above(root, d) && (forall c :: c in children ==> c in stock)
    requires PlacedAt(roots, root, root, d, stock)
    requires AllPlaced(SubLayers(roots, d[|root|..]), d, children, stock)
    ensures PlacedFrom(roots, root, children, stock, d)
  {
    var sub := SubLayers(roots, d[|root|..]);
    forall p, c | p in children && root <= p && d <= p && Carries(roots, root, children, p)
                  && DirectlyBelow(children, p, c)
      ensures PlacedAt(roots, root, p, c, stock)
    {
      SamePlace(roots, root, d, p, c, stock);
      assert Carries(sub, d, children, p);
    }
  }

  /** Below a mount that no layer touches, and below a file, there is no further overlay. */
  lemma PlacedFromLeaf(roots: seq<Layer>, root: Path, d: Path, children: seq<Path>, stock: map<Path, Layer>)
    requires root in stock && d in children && Above(root, d) && (forall c :: c in children ==> c in stock)
    requires PlacedAt(roots, root, root, d, stock) && FilesAreLeaves(children, stock)
    requires SubLayers(roots, d[|root|..]) == [] || !stock[d].Folder?
    ensures PlacedFrom(roots, root, children, stock, d)
  {
    forall p, c | p in children && root <= p && d <= p && Carries(roots, root, children, p)
                  && DirectlyBelow(children, p, c)
      ensures false
    {
      SamePlace(roots, root, d, p, c, stock);
      assert SubLayers([], p[|d|..]) == [];
      assert Above(d, c);
    }
  }

  /** With every topmost child placed, all are. */
  lemma PlacedTogether(roots: seq<Layer>, root: Path, children: seq<Path>, stock: map<Path, Layer>, direct: seq<Path>)
    requires root in stock && (forall c :: c in children ==> c in stock)
    requires DirectSoFar(children, root, direct, |children|) && Topmost(children, root, direct)
    requires forall d :: d in direct ==> PlacedFrom(roots, root, children, stock, d)
    ensures AllPlaced(roots, root, children, stock)
  {
    forall p, c | Carries(roots, root, children, p) && DirectlyBelow(children, p, c)
      ensures PlacedAt(roots, root, p, c, stock)
    {
      if p == root {
        assert c in direct;
      } else {
        var i :| 0 <= i < |children| && children[i] == p;
        var d :| 0 <= d < |direct| && direct[d] <= p;
        assert direct[d] in direct;
      }
    }
  }

  lemma {:induction false} NamedIsPrefix(stack: seq<Layer>, n: string)
    ensures Named(Merged(stack), n) <= SubLayers(stack, [n])
  {
    if stack != [] && stack[0].Folder? {
      NamedIsPrefix(stack[1..], n);
      var e := stack[0].entries;
      assert Walk(stack[0], [n]) == if n in e then Walk(e[n], []) else None;
      assert Merged(stack)[1..] == if stack[0].opaq then [] else Merged(stack[1..]);
      var rest := Named(if stack[0].opaq then [] else Merged(stack[1..]), n);
      assert rest <= SubLayers(stack[1..], [n]);
      assert Named(Merged(stack), n) == (if n in e then [e[n]] else []) + rest;
    }
  }

  lemma {:induction false} SubLayersOfPrefix(a: seq<Layer>, b: seq<Layer>, relative: Path)
    requires a <= b
    ensures SubLayers(a, relative) <= SubLayers(b, relative)
  {
    if a != [] {
      assert a[1..] <= b[1..] && a[0] == b[0];
      SubLayersOfPrefix(a[1..], b[1..], relative);
    }
  }

  /** A place that is reached shows the topmost thing that any layer has there. */
  lemma {:induction false} PlaceIsTop(stack: seq<Layer>, relative: Path)
    requires Mount(stack).Some? && Reaches(Mount(stack).value, relative)
    ensures SubLayers(stack, relative) != [] && Walk(Mount(stack).value, relative).Some?
    ensures var top, place := SubLayers(stack, relative)[0], Walk(Mount(stack).value, relative).value;
            (place.Folder? <==> top.Folder?) && (place.Link? <==> top.Link?)
    decreases relative
  {
    if relative == [] {
      SubLayersHere(stack);
    } else {
      var n, rest := relative[0], relative[1..];
      var named := Named(Merged(stack), n);
      NamedMount(stack, n);
      PlaceIsTop(named, rest);
      NamedIsPrefix(stack, n);
      SubLayersOfPrefix(named, SubLayers(stack, [n]), rest);
      SubLayersFurther(stack, [n], rest);
      assert [n] + rest == relative;
    }
  }

  lemma OpenedWalk(l: Layer, led: Layer, relative: Path)
    requires led == (if Led(l).Some? then Led(l).value else l) && relative != []
    ensures Walk(led, relative) == Walk(l, relative)
  {
  }

  lemma {:induction false} SubLayersOpened(roots: seq<Layer>, lowest: Layer, relative: Path)
    requires relative != []
    ensures SubLayers(Opened(roots) + [lowest], relative) ==
            SubLayers(roots, relative) + (if Walk(lowest, relative).Some? then [Walk(lowest, relative).value] else [])
  {
    if roots == [] {
      assert Opened(roots) + [lowest] == [lowest] && [lowest][1..] == [];
    } else {
      SubLayersOpened(roots[1..], lowest, relative);
      var all := Opened(roots) + [lowest];
      assert all[1..] == Opened(roots[1..]) + [lowest];
      OpenedWalk(roots[0], all[0], relative);
    }
  }

  predicate MountedOn(lower: Layer, relative: Path, mount: Layer) {
    && Reaches(lower, relative) && Walk(lower, relative).Some?
    && (Walk(lower, relative).value.Folder? <==> mount.Folder?)
  }

  /** Every mount point is there, in its kind, in the tree it is mounted on. */
  ghost predicate OnTheirKind(root: Path, children: seq<Path>, stock: map<Path, Layer>)
    requires root in stock && forall c :: c in children ==> c in stock
  {
    forall p, c :: (p == root || p in children) && DirectlyBelow(children, p, c) ==>
      MountedOn(stock[p], c[|p|..], stock[c])
  }

  /** Then nothing is ever mounted on a place of another kind. */
  lemma PlaceKeepsKind(roots: seq<Layer>, root: Path, c: Path, children: seq<Path>, stock: map<Path, Layer>)
    requires root in stock && (forall x :: x in children ==> x in stock) && OnTheirKind(root, children, stock)
    requires DirectlyBelow(children, root, c) && PlacedAt(roots, root, root, c, stock)
    requires Preservable(roots, root, c, stock)
    ensures Walk(TreeAt(roots, root, root, stock).value, c[|root|..]).Some?
    ensures Walk(TreeAt(roots, root, root, stock).value, c[|root|..]).value.Folder? <==> stock[c].Folder?
  {
    var relative := c[|root|..];
    var layers := SubLayers(roots, relative);
    SubLayersHere(roots);
    assert root[|root|..] == [] && relative != [];
    PlaceIsTop(Opened(roots) + [stock[root]], relative);
    SubLayersOpened(roots, stock[root], relative);
    PlaceIsNoLink(TreeAt(roots, root, root, stock).value, relative);
    if layers != [] {
      assert SubLayers(Opened(roots) + [stock[root]], relative)[0] == layers[0];
      if stock[c].Folder? { assert LeadsToDirectory(layers[0]); }
    }
  }

  lemma {:induction false} PlaceIsNoLink(l: Layer, relative: Path)
    requires Reaches(l, relative) && relative != []
    ensures Walk(l, relative).Some? && !Walk(l, relative).value.Link?
    decreases relative
  {
    if |relative| > 1 { PlaceIsNoLink(l.entries[relative[0]], relative[1..]); }
  }

  /** Whether nothing stands in the way of a complete view. */
  ghost predicate Clear(roots: seq<Layer>, root: Path, children: seq<Path>, stock: map<Path, Layer>)
    requires root in stock && forall c :: c in children ==> c in stock
  {
    && AllPreservable(roots, root, children, stock) && AllPlaced(roots, root, children, stock)
    && OnTheirKind(root, children, stock)
  }

  /** What that means for one direct child, and for the overlay it may get. */
  lemma ChildIsClear(roots: seq<Layer>, root: Path, children: seq<Path>, stock: map<Path, Layer>, child: Path)
    requires root in stock && (forall c :: c in children ==> c in stock) && DirectlyBelow(children, root, child)
    requires TreeAt(roots, root, root, stock).Some?
    ensures PlacedAt(roots, root, root, child, stock) <==>
            Reaches(TreeAt(roots, root, root, stock).value, child[|root|..])
    ensures Clear(roots, root, children, stock) ==>
              && Preservable(roots, root, child, stock) && PlacedAt(roots, root, root, child, stock)
              && Walk(TreeAt(roots, root, root, stock).value, child[|root|..]).Some?
              && (Walk(TreeAt(roots, root, root, stock).value, child[|root|..]).value.Folder? <==> stock[child].Folder?)
              && (SubLayers(roots, child[|root|..]) != [] ==>
                    Clear(SubLayers(roots, child[|root|..]), child, children, stock))
  {
    if Clear(roots, root, children, stock) {
      assert Carries(roots, root, children, root);
      PlaceKeepsKind(roots, root, child, children, stock);
      PreservableBelow(roots, root, child, children, stock);
      if SubLayers(roots, child[|root|..]) != [] { PlacedBelow(roots, root, child, children, stock); }
    }
  }

  lemma FileOnTop(top: Layer, lower: seq<Layer>, n: string)
    requires top.Folder? && n in top.entries && top.entries[n].Item?
    ensures Mount([top] + lower).Some? && Mount([top] + lower).value.Folder?
    ensures Entry(Mount([top] + lower).value.entries, n) == Some(top.entries[n])
  {
    assert ([top] + lower)[1..] == lower;
    var base := Base(top.opaq, Mount(lower));
    assert OverAt(top, base, n) == Over(top.entries[n], Entry(base, n)) == Some(top.entries[n]);
    assert Entry(Mount([top] + lower).value.entries, n) == OverAt(top, base, n);
  }

  lemma OnlyChild(roots: seq<Layer>, root: Path, c: Path, stock: map<Path, Layer>)
    requires root in stock && c in stock && Above(root, c)
    ensures Preservable(roots, root, c, stock) ==> AllPreservable(roots, root, [c], stock)
    ensures MountedOn(stock[root], c[|root|..], stock[c]) ==> OnTheirKind(root, [c], stock)
    ensures AllPlaced(roots, root, [c], stock) ==> PlacedAt(roots, root, root, c, stock)
  {
    assert Carries(roots, root, [c], root) && DirectlyBelow([c], root, c);
  }

  lemma TwoDown(l: Layer, a: string, b: string)
    requires l.Folder?
    ensures Reaches(l, [a, b]) <==>
            && a in l.entries && l.entries[a].Folder?
            && b in l.entries[a].entries && !l.entries[a].entries[b].Link?
    ensures a in l.entries && l.entries[a].Folder? && b in l.entries[a].entries ==>
              Walk(l, [a, b]) == Some(l.entries[a].entries[b])
    ensures a in l.entries && l.entries[a].Item? ==> Walk(l, [a, b]).None?
  {
    assert [a, b][1..] == [b] && [b][1..] == [];
    if a in l.entries {
      assert Walk(l, [a, b]) == Walk(l.entries[a], [b]);
      assert l.entries[a].Folder? && b in l.entries[a].entries ==>
               Walk(l.entries[a], [b]) == Walk(l.entries[a].entries[b], []);
      assert Reaches(l.entries[a], [b]) <==>
               l.entries[a].Folder? && b in l.entries[a].entries && !l.entries[a].entries[b].Link?
               && Reaches(l.entries[a].entries[b], []);
    }
  }

  /** A module file over a stock directory takes the place of a mount below it away:
      no layer touches the mount itself, but the overlay cannot be made. */
  lemma FileOverDirectoryLosesPlace()
    returns (roots: seq<Layer>, root: Path, children: seq<Path>, stock: map<Path, Layer>)
    ensures Folders(roots) && root in stock && (forall c :: c in children ==> c in stock)
    ensures AllPreservable(roots, root, children, stock) && OnTheirKind(root, children, stock)
    ensures !AllPlaced(roots, root, children, stock)
  {
    var empty := Folder(false, map[]);
    var system := Folder(false, map["a" := Folder(false, map["b" := empty])]);
    var top := Folder(false, map["a" := Item(["m", "a"])]);
    var child := ["system", "a", "b"];
    roots, root, children := [top], ["system"], [child];
    stock := map[root := system, child := empty];
    assert child[|root|..] == ["a", "b"] && root[|root|..] == [] && roots[1..] == [];
    TwoDown(top, "a", "b");
    TwoDown(system, "a", "b");
    FileOnTop(top, [system], "a");
    SubLayersHere(roots);
    assert Opened(roots) == [top];
    var tree := Mount([top] + [system]).value;
    TwoDown(tree, "a", "b");
    hide Walk, Reaches, Mount;
    assert SubLayers(roots, ["a", "b"]) == [] by { assert SubLayers([], ["a", "b"]) == []; }
    assert TreeAt(roots, root, root, stock) == Some(tree);
    hide SubLayers, Opened, TreeAt;
    assert !PlacedAt(roots, root, root, child, stock);
    OnlyChild(roots, root, child, stock);
  }

  /** A complete view exists only where every child could be preserved. */
  lemma CompleteIsPreservable(actions: seq<Action>, destination: Path, root: Path, roots: seq<Layer>,
                              children: seq<Path>,
                              stock: map<Path, Layer>)
    requires Complete(actions, destination, root, roots, children, stock)
    requires forall c :: c in children && Above(root, c) ==> c in stock
    ensures AllPreservable(roots, root, children, stock)
  {
    forall c | c in children && Above(root, c) ensures Preservable(roots, root, c, stock) {
      assert Once(actions, c);
      hide Fits, Preservable, Establishes;
      var i :| 0 <= i < |actions| && Establishes(actions[i], c);
      EstablishedIsPreservable(actions[i], destination, root, roots, stock, c);
    }
  }

  lemma EstablishedIsPreservable(a: Action, destination: Path, root: Path, roots: seq<Layer>, stock: map<Path, Layer>,
                                 c: Path)
    requires Fits(a, destination, root, roots, stock) && Establishes(a, c) && Above(root, c) && c in stock
    ensures Preservable(roots, root, c, stock)
  {
    if a.Clone? {
      assert c[|root|..] == a.child[|root|..] + c[|a.child|..];
      SubLayersFurther(roots, a.child[|root|..], c[|a.child|..]);
    }
  }

  /** The child mounts below a root. */
  function Below(children: seq<Path>, root: Path): set<Path> {
    set c | c in children && Above(root, c)
  }

  lemma FewerBelow(children: seq<Path>, root: Path, child: Path)
    requires child in children && Above(root, child)
    ensures |Below(children, child)| < |Below(children, root)|
  {
    assert Below(children, child) <= Below(children, root) - {child};
    Smaller(Below(children, child), Below(children, root) - {child});
  }

  lemma {:induction false} Smaller(a: set<Path>, b: set<Path>)
    requires a <= b
    ensures |a| <= |b|
  {
    if x :| x in a {
      Smaller(a - {x}, b - {x});
    }
  }

  /** A mount point that is not a directory has none below it. */
  predicate FilesAreLeaves(children: seq<Path>, stock: map<Path, Layer>) {
    forall a, b :: a in children && b in children && Above(a, b) ==> a in stock && stock[a].Folder?
  }

  lemma FitsFurther(a: Action, destination: Path, root: Path, roots: seq<Layer>, stock: map<Path, Layer>, child: Path)
    requires root <= child && child <= a.child
    requires Fits(a, destination + child[|root|..], child, SubLayers(roots, child[|root|..]), stock)
    ensures Fits(a, destination, root, roots, stock)
  {
    assert a.child[|root|..] == child[|root|..] + a.child[|child|..];
    SubLayersFurther(roots, child[|root|..], a.child[|child|..]);
    assert destination + child[|root|..] + a.child[|child|..] == destination + a.child[|root|..];
  }

  lemma CompleteFurther(actions: seq<Action>, destination: Path, root: Path, roots: seq<Layer>, children: seq<Path>,
                        stock: map<Path, Layer>, child: Path)
    requires root <= child && child in children
    requires Complete(actions, destination + child[|root|..], child, SubLayers(roots, child[|root|..]), children, stock)
    ensures Batch(actions, destination, root, roots, children, stock, child)
  {
    forall i | 0 <= i < |actions|
      ensures Fits(actions[i], destination, root, roots, stock) && child <= actions[i].child
              && actions[i].child in children
    {
      FitsFurther(actions[i], destination, root, roots, stock, child);
    }
  }

  /** The actions for one direct child and everything below it. */
  predicate Batch(actions: seq<Action>, destination: Path, root: Path, roots: seq<Layer>, children: seq<Path>,
                  stock: map<Path, Layer>, child: Path)
  {
    && (forall i :: 0 <= i < |actions| ==>
          && Fits(actions[i], destination, root, roots, stock)
          && child <= actions[i].child && actions[i].child in children)
    && forall c :: c in children && child <= c ==> Once(actions, c)
  }

  lemma SingleBatch(a: Action, destination: Path, root: Path, roots: seq<Layer>, children: seq<Path>,
                    stock: map<Path, Layer>, child: Path)
    requires a.child == child && child in children && Fits(a, destination, root, roots, stock)
    requires a.Clone? || forall c :: c in children && child <= c ==> c == child
    ensures Batch([a], destination, root, roots, children, stock, child)
  {
    forall c | c in children && child <= c ensures Once([a], c) {
      assert Establishes([a][0], c);
    }
  }

  /** A mount that no layer touches comes with everything below it. */
  lemma CloneBatch(destination: Path, root: Path, roots: seq<Layer>, children: seq<Path>,
                   stock: map<Path, Layer>, child: Path)
    requires child in children && child in stock && root <= child && SubLayers(roots, child[|root|..]) == []
    ensures Batch([Clone(child, destination + child[|root|..])], destination, root, roots, children, stock, child)
  {
    SingleBatch(Clone(child, destination + child[|root|..]), destination, root, roots, children, stock, child);
  }

  /** A mounted file gives way to the topmost file of the module. */
  lemma BoundBatch(destination: Path, root: Path, roots: seq<Layer>, children: seq<Path>,
                   stock: map<Path, Layer>, child: Path)
    requires child in children && child in stock && root <= child && FilesAreLeaves(children, stock)
    requires SubLayers(roots, child[|root|..]) != [] && SubLayers(roots, child[|root|..])[0].Item?
    requires !stock[child].Folder?
    ensures Batch([Bound(child, destination + child[|root|..], SubLayers(roots, child[|root|..])[0])],
                  destination, root, roots, children, stock, child)
  {
    SingleBatch(Bound(child, destination + child[|root|..], SubLayers(roots, child[|root|..])[0]),
                destination, root, roots, children, stock, child);
  }

  // --- Below one root, with some direct children done ----------------------

  predicate IsUnder(direct: seq<Path>, c: Path) {
    exists i :: 0 <= i < |direct| && direct[i] <= c
  }

  predicate Unrelated(direct: seq<Path>) {
    forall i, j :: 0 <= i < j < |direct| ==> !(direct[i] <= direct[j]) && !(direct[j] <= direct[i])
  }

  predicate Underway(actions: seq<Action>, destination: Path, root: Path, roots: seq<Layer>, children: seq<Path>,
                     stock: map<Path, Layer>, direct: seq<Path>)
  {
    && (forall i :: 0 <= i < |actions| ==>
          Fits(actions[i], destination, root, roots, stock) && (i == 0 <==> actions[i].child == root))
    && (forall i :: 0 < i < |actions| ==> actions[i].child in children && IsUnder(direct, actions[i].child))
    && actions != [] && actions[0].Overlaid?
    && forall c :: c in children && IsUnder(direct, c) ==> Once(actions, c)
  }

  lemma OnceMore(before: seq<Action>, batch: seq<Action>, c: Path)
    requires Once(before, c) && forall i :: 0 <= i < |batch| ==> !Establishes(batch[i], c)
    ensures Once(before + batch, c)
  {
    var i :| 0 <= i < |before| && Establishes(before[i], c)
             && forall j :: 0 <= j < |before| && j != i ==> !Establishes(before[j], c);
    var all := before + batch;
    forall j | 0 <= j < |all| && j != i ensures !Establishes(all[j], c) {
      if j < |before| { assert all[j] == before[j]; } else { assert all[j] == batch[j - |before|]; }
    }
    assert all[i] == before[i];
  }

  lemma OnceNew(before: seq<Action>, batch: seq<Action>, c: Path)
    requires Once(batch, c) && forall i :: 0 <= i < |before| ==> !Establishes(before[i], c)
    ensures Once(before + batch, c)
  {
    var i :| 0 <= i < |batch| && Establishes(batch[i], c)
             && forall j :: 0 <= j < |batch| && j != i ==> !Establishes(batch[j], c);
    assert Establishes((before + batch)[|before| + i], c);
    forall j | 0 <= j < |before + batch| && j != |before| + i ensures !Establishes((before + batch)[j], c) {
      if j >= |before| { assert (before + batch)[j] == batch[j - |before|]; }
    }
  }

  lemma NextBatch(before: seq<Action>, batch: seq<Action>, destination: Path, root: Path, roots: seq<Layer>,
                  children: seq<Path>, stock: map<Path, Layer>, direct: seq<Path>, child: Path)
    requires Underway(before, destination, root, roots, children, stock, direct)
    requires Batch(batch, destination, root, roots, children, stock, child)
    requires Above(root, child) && Unrelated(direct + [child])
    ensures Underway(before + batch, destination, root, roots, children, stock, direct + [child])
  {
    var more, all := direct + [child], before + batch;
    hide Fits, Once;
    forall c | IsUnder(more, c) ensures IsUnder(direct, c) || child <= c {
      var i :| 0 <= i < |more| && more[i] <= c;
    }
    forall c | IsUnder(direct, c) ensures IsUnder(more, c) && !(child <= c) {
      var i :| 0 <= i < |direct| && direct[i] <= c;
      assert more[i] == direct[i] && more[|direct|] == child;
      if child <= c { Related(direct[i], child, c); }
    }
    forall i | 0 <= i < |all|
      ensures Fits(all[i], destination, root, roots, stock) && (i == 0 <==> all[i].child == root)
      ensures i > 0 ==> all[i].child in children && IsUnder(more, all[i].child)
    {
      if i >= |before| {
        assert all[i] == batch[i - |before|];
        assert more[|direct|] == child;
      }
    }
    forall c | c in children && IsUnder(more, c) ensures Once(all, c) {
      if child <= c {
        forall i | 0 <= i < |before| ensures !Establishes(before[i], c) {
          NotFromBefore(before, destination, root, roots, children, stock, direct, child, c, i);
        }
        OnceNew(before, batch, c);
      } else {
        forall i | 0 <= i < |batch| ensures !Establishes(batch[i], c) {
          assert child <= batch[i].child;
        }
        OnceMore(before, batch, c);
      }
    }
  }

  lemma NotFromBefore(before: seq<Action>, destination: Path, root: Path, roots: seq<Layer>, children: seq<Path>,
                      stock: map<Path, Layer>, direct: seq<Path>, child: Path, c: Path, i: nat)
    requires Underway(before, destination, root, roots, children, stock, direct)
    requires Above(root, child) && Unrelated(direct + [child]) && child <= c && i < |before|
    ensures !Establishes(before[i], c)
  {
    if i > 0 {
      var d :| 0 <= d < |direct| && direct[d] <= before[i].child;
      var more := direct + [child];
      assert more[d] == direct[d] && more[|direct|] == child;
      if direct[d] <= c { Related(direct[d], child, c); }
    }
  }

  class Preparer {
    const overlays: Overlays
    /** What has been put into prepared views, and what was published on the live root. */
    var actions: seq<Action>
    var live: Option<seq<Action>>

    constructor (works: bool)
      ensures fresh(overlays) && overlays.effects == [] && actions == [] && live == None && overlays.works == works
    {
      overlays := new Overlays(works);
      actions, live := [], None;
    }

    /** A recursive bind of a native mount, or a bind of a module file. The kernel
        mounts a directory on a directory only, and anything else on anything else. */
    method Act(a: Action, place: Layer, directory: bool) returns (ok: bool)
      modifies this`actions
      ensures actions == if ok then old(actions) + [a] else old(actions)
      ensures overlays.works && (place.Folder? <==> directory) ==> ok
    {
      ok := *;
      ok := (ok || overlays.works) && (place.Folder? <==> directory);
      if ok { actions := actions + [a]; }
    }

    /** Put one direct child, and everything below it, into the prepared view, where
        `tree` is what the overlay of its parent shows. */
    method PrepareChild(destination: Path, root: Path, roots: seq<Layer>, children: seq<Path>, stock: map<Path, Layer>,
                        tree: Layer, child: Path) returns (ok: bool)
      requires Directories(roots) && root in stock && (forall c :: c in children ==> c in stock)
      requires ParentsFirst(children) && FilesAreLeaves(children, stock)
      requires DirectlyBelow(children, root, child) && TreeAt(roots, root, root, stock) == Some(tree)
      modifies this`actions, overlays
      ensures old(actions) <= actions && OnlyStaging(old(overlays.effects), overlays.effects)
      ensures ok ==> Batch(actions[|old(actions)|..], destination, root, roots, children, stock, child)
      ensures ok ==> PlacedFrom(roots, root, children, stock, child)
      ensures overlays.works && Clear(roots, root, children, stock) ==> ok
      decreases |Below(children, root)|, 0
    {
      ghost var before := actions;
      var relative := child[|root|..];
      var at := destination + relative;
      var layers := SubLayers(roots, relative);
      ChildIsClear(roots, root, children, stock, child);
      OnlyStagingSame(overlays.effects);
      FewerBelow(children, root, child);
      ok := Reaches(tree, relative);
      if !ok { return; }
      PlaceIsNoLink(tree, relative);
      var place := Walk(tree, relative).value;
      hide Clear, Complete, Fits, Batch, OnlyStaging, ParentsFirst, PlacedFrom, PlacedAt;
      if layers == [] {
        ok := Act(Clone(child, at), place, stock[child].Folder?);
        if ok {
          CloneBatch(destination, root, roots, children, stock, child);
          PlacedFromLeaf(roots, root, child, children, stock);
          assert actions[|before|..] == [Clone(child, at)];
        }
      } else if stock[child].Folder? {
        // An overlay is mounted on a directory only.
        ok := Directories(layers) && place.Folder?;
        if !ok { return; }
        ghost var direct;
        ok, direct := PrepareOverlayView(at, child, layers, children, stock);
        if ok {
          CompleteFurther(actions[|before|..], destination, root, roots, children, stock, child);
          PlacedFromNested(roots, root, child, children, stock);
        }
      } else if layers[0].Item? {
        ok := Act(Bound(child, at, layers[0]), place, false);
        if ok {
          BoundBatch(destination, root, roots, children, stock, child);
          PlacedFromLeaf(roots, root, child, children, stock);
          assert actions[|before|..] == [Bound(child, at, layers[0])];
        }
      } else {
        ok := false;
      }
    }

    /** `prepare_overlay_view`: the overlay of one place and, inside it, every mount
        that was below. `direct` lists the topmost of those. */
    method PrepareOverlayView(destination: Path, root: Path, roots: seq<Layer>, children: seq<Path>,
                              stock: map<Path, Layer>)
      returns (ok: bool, ghost direct: seq<Path>)
      requires Directories(roots) && root in stock && stock[root].Folder? && (forall c :: c in children ==> c in stock)
      requires ParentsFirst(children) && FilesAreLeaves(children, stock)
      modifies this`actions, overlays
      ensures old(actions) <= actions && OnlyStaging(old(overlays.effects), overlays.effects)
      ensures ok ==> Complete(actions[|old(actions)|..], destination, root, roots, children, stock)
      ensures ok ==> Topmost(children, root, direct)
      ensures ok ==> AllPlaced(roots, root, children, stock)
      ensures overlays.works && Clear(roots, root, children, stock) ==> ok
      decreases |Below(children, root)|, 3
    {
      ghost var before := actions;
      direct := [];
      var tree := overlays.MountOverlayfs(Opened(roots), stock[root]);
      ok := tree.Some?;
      if !ok { return; }
      actions := actions + [Overlaid(root, destination, tree.value)];
      RootPlaced(destination, root, roots, children, stock, tree.value);
      assert actions[|before|..] == [Overlaid(root, destination, tree.value)];
      ok, direct := PrepareChildren(destination, root, roots, children, stock, tree.value, before);
      if ok { UnderwayComplete(actions[|before|..], destination, root, roots, children, stock, direct); }
    }

    /** One more direct child. */
    method PrepareNext(destination: Path, root: Path, roots: seq<Layer>, children: seq<Path>, stock: map<Path, Layer>,
                       tree: Layer, child: Path, ghost before: seq<Action>, ghost direct: seq<Path>) returns (ok: bool)
      requires Directories(roots) && root in stock && (forall c :: c in children ==> c in stock)
      requires ParentsFirst(children) && FilesAreLeaves(children, stock)
      requires DirectlyBelow(children, root, child) && TreeAt(roots, root, root, stock) == Some(tree)
      requires Unrelated(direct + [child])
      requires before <= actions && Underway(actions[|before|..], destination, root, roots, children, stock, direct)
      modifies this`actions, overlays
      ensures old(actions) <= actions && OnlyStaging(old(overlays.effects), overlays.effects)
      ensures ok ==> Underway(actions[|before|..], destination, root, roots, children, stock, direct + [child])
      ensures ok ==> PlacedFrom(roots, root, children, stock, child)
      ensures overlays.works && Clear(roots, root, children, stock) ==> ok
      decreases |Below(children, root)|, 1
    {
      hide Underway, Batch, ParentsFirst, FilesAreLeaves, PlacedFrom, Clear;
      ghost var at := actions;
      ok := PrepareChild(destination, root, roots, children, stock, tree, child);
      if ok {
        NextBatch(at[|before|..], actions[|at|..], destination, root, roots, children, stock, direct, child);
        assert actions[|before|..] == at[|before|..] + actions[|at|..];
      }
    }

    /** The children of a place, topmost ones only; those below come with them. */
    method PrepareChildren(destination: Path, root: Path, roots: seq<Layer>, children: seq<Path>,
                           stock: map<Path, Layer>, tree: Layer, ghost before: seq<Action>)
      returns (ok: bool, ghost direct: seq<Path>)
      requires Directories(roots) && root in stock && (forall c :: c in children ==> c in stock)
      requires ParentsFirst(children) && FilesAreLeaves(children, stock)
      requires TreeAt(roots, root, root, stock) == Some(tree)
      requires before <= actions && Underway(actions[|before|..], destination, root, roots, children, stock, [])
      modifies this`actions, overlays
      ensures old(actions) <= actions && OnlyStaging(old(overlays.effects), overlays.effects)
      ensures ok ==> Underway(actions[|before|..], destination, root, roots, children, stock, direct)
      ensures ok ==> DirectSoFar(children, root, direct, |children|) && Topmost(children, root, direct)
      ensures ok ==> AllPlaced(roots, root, children, stock)
      ensures overlays.works && Clear(roots, root, children, stock) ==> ok
      decreases |Below(children, root)|, 2
    {
      hide *;
      var found: seq<Path> := [];
      direct := found;
      NoDirect(children, root);
      OnlyStagingSame(overlays.effects);
      for i := 0 to |children|
        invariant old(actions) <= actions && OnlyStaging(old(overlays.effects), overlays.effects)
        invariant DirectSoFar(children, root, found, i)
        invariant Underway(actions[|before|..], destination, root, roots, children, stock, found)
        invariant forall d :: d in found ==> PlacedFrom(roots, root, children, stock, d)
      {
        var child := children[i];
        if Above(root, child) && !IsUnder(found, child) {
          NewDirect(children, root, found, i);
          ghost var effects := overlays.effects;
          ok := PrepareNext(destination, root, roots, children, stock, tree, child, before, found);
          OnlyStagingTwice(old(overlays.effects), effects, overlays.effects);
          if !ok { return; }
          found := found + [child];
        } else {
          OldDirect(children, root, found, i);
        }
      }
      direct := found;
      DirectIsTopmost(children, root, direct);
      PlacedTogether(roots, root, children, stock, direct);
      ok := true;
    }

    /** Without children the overlay goes onto the root itself. */
    method MountDirectly(root: Path, roots: seq<Layer>, stock: map<Path, Layer>) returns (r: Option<seq<Action>>)
      requires Directories(roots) && root in stock && stock[root].Folder?
      modifies overlays
      ensures OnlyStaging(old(overlays.effects), overlays.effects)
      ensures r.Some? ==> Complete(r.value, root, root, roots, [], stock)
      ensures root in stock && AllPlaced(roots, root, [], stock)
      ensures overlays.works ==> r.Some?
    {
      var tree := overlays.MountOverlayfs(Opened(roots), stock[root]);
      if tree.None? { return None; }
      r := Some([Overlaid(root, root, tree.value)]);
      RootPlaced(root, root, roots, [], stock, tree.value);
      UnderwayComplete(r.value, root, root, roots, [], stock, []);
    }

    /** With children the view is prepared elsewhere and attached at once. */
    method MountPrepared(root: Path, roots: seq<Layer>, children: seq<Path>, stock: map<Path, Layer>)
      returns (r: Option<seq<Action>>)
      requires Directories(roots) && root in stock && stock[root].Folder? && (forall c :: c in children ==> c in stock)
      requires ParentsFirst(children) && FilesAreLeaves(children, stock)
      modifies this`actions, overlays
      ensures OnlyStaging(old(overlays.effects), overlays.effects)
      ensures r.Some? ==> Complete(r.value, root, root, roots, children, stock)
      ensures r.Some? ==> AllPlaced(roots, root, children, stock)
      ensures overlays.works && Clear(roots, root, children, stock) ==> r.Some?
    {
      var start := |actions|;
      var prepared: Path := *;
      var made: bool := *;
      if !made && !overlays.works { return None; }
      overlays.effects := overlays.effects + [Staging(prepared)];
      ghost var at := overlays.effects;
      assert OnlyStaging(old(overlays.effects), at);
      hide Complete, OnlyStaging, Clear, AllPlaced;
      ghost var direct;
      var ok: bool;
      ok, direct := PrepareOverlayView(prepared, root, roots, children, stock);
      OnlyStagingTwice(old(overlays.effects), at, overlays.effects);
      if !ok { return None; }
      var attached: bool := *;
      if !attached && !overlays.works { return None; }
      Relocated(actions[start..], prepared, root, roots, children, stock);
      r := Some(Moved(actions[start..]));
    }

    /** `mount_overlay`: only a view that is complete goes live, and only then are
        the targets reported. */
    method MountOverlay(root: Path, roots: seq<Layer>, mountPoints: seq<Path>, stock: map<Path, Layer>)
      returns (ok: bool)
      requires Directories(roots) && root in stock && stock[root].Folder?
      requires forall p :: p in mountPoints && Above(root, p) ==> p in stock
      requires FilesAreLeaves(CollectChildren(mountPoints, root), stock)
      modifies this, overlays
      ensures !ok ==> live == old(live) && OnlyStaging(old(overlays.effects), overlays.effects)
      ensures ok ==> live.Some? && Complete(live.value, root, root, roots, CollectChildren(mountPoints, root), stock)
      ensures ok ==> forall p :: p in mountPoints && Above(root, p) ==> Once(live.value, p)
      ensures ok ==> Reported(old(overlays.effects), overlays.effects, root, CollectChildren(mountPoints, root))
      ensures forall c :: c in CollectChildren(mountPoints, root) ==> c in stock
      ensures ok ==> AllPreservable(roots, root, CollectChildren(mountPoints, root), stock)
      ensures ok ==> AllPlaced(roots, root, CollectChildren(mountPoints, root), stock)
      ensures overlays.works && Clear(roots, root, CollectChildren(mountPoints, root), stock) ==> ok
    {
      var children := CollectChildren(mountPoints, root);
      CollectedChildren(mountPoints, root);
      var view: Option<seq<Action>>;
      if children == [] {
        view := MountDirectly(root, roots, stock);
      } else {
        view := MountPrepared(root, roots, children, stock);
      }
      ok := view.Some?;
      if !ok { return; }
      CompleteIsPreservable(view.value, root, root, roots, children, stock);
      live := view;
      ghost var at := overlays.effects;
      overlays.effects := overlays.effects + [Target(root)] + Targets(children);
      ReportedAfter(old(overlays.effects), at, root, children);
    }
  }

  lemma ReportedAfter(was: seq<Effect>, at: seq<Effect>, root: Path, children: seq<Path>)
    requires OnlyStaging(was, at)
    ensures Reported(was, at + [Target(root)] + Targets(children), root, children)
  {
    var now := at + [Target(root)] + Targets(children);
    assert now == at + ([Target(root)] + Targets(children));
    assert now[..|at|] == at;
  }

  function Targets(children: seq<Path>): (r: seq<Effect>)
    ensures |r| == |children|
  {
    if children == [] then [] else [Target(children[0])] + Targets(children[1..])
  }

  /** The staging effects, and after them the targets: the root and every child once. */
  predicate Reported(was: seq<Effect>, now: seq<Effect>, root: Path, children: seq<Path>) {
    |now| > |children| && now[|now| - |children| - 1..] == [Target(root)] + Targets(children)
    && OnlyStaging(was, now[..|now| - |children| - 1])
  }

  function Placed(a: Action, at: Path): Action {
    match a
    case Clone(c, _) => Clone(c, at)
    case Overlaid(c, _, t) => Overlaid(c, at, t)
    case Bound(c, _, i) => Bound(c, at, i)
  }

  /** The prepared view once it is attached: every action at its own mount point. */
  function Moved(actions: seq<Action>): (r: seq<Action>)
    ensures |r| == |actions| && forall i :: 0 <= i < |r| ==> r[i] == Placed(actions[i], actions[i].child)
  {
    if actions == [] then [] else [Placed(actions[0], actions[0].child)] + Moved(actions[1..])
  }

  lemma MovedEstablishes(actions: seq<Action>, i: nat, c: Path)
    requires i < |actions|
    ensures Establishes(Moved(actions)[i], c) <==> Establishes(actions[i], c)
  {
  }

  lemma MovedOnce(actions: seq<Action>, c: Path)
    requires Once(actions, c)
    ensures Once(Moved(actions), c)
  {
    var i :| 0 <= i < |actions| && Establishes(actions[i], c)
             && forall j :: 0 <= j < |actions| && j != i ==> !Establishes(actions[j], c);
    var moved := Moved(actions);
    hide Moved, Establishes;
    forall j | 0 <= j < |moved| ensures Establishes(moved[j], c) <==> Establishes(actions[j], c) {
      MovedEstablishes(actions, j, c);
    }
    assert Establishes(moved[i], c);
  }

  lemma Relocated(actions: seq<Action>, prepared: Path, root: Path, roots: seq<Layer>, children: seq<Path>,
                  stock: map<Path, Layer>)
    requires Complete(actions, prepared, root, roots, children, stock)
    ensures Complete(Moved(actions), root, root, roots, children, stock)
  {
    var moved := Moved(actions);
    hide Fits, Once, Moved;
    forall i | 0 <= i < |moved|
      ensures Fits(moved[i], root, root, roots, stock) && AtOrBelow(children, root, moved[i].child)
    {
      PlacedFits(actions[i], prepared, root, roots, stock);
    }
    MovedOnce(actions, root);
    forall c | c in children && root <= c ensures Once(moved, c) { MovedOnce(actions, c); }
  }

  lemma PlacedFits(a: Action, prepared: Path, root: Path, roots: seq<Layer>, stock: map<Path, Layer>)
    requires Fits(a, prepared, root, roots, stock)
    ensures Fits(Placed(a, a.child), root, root, roots, stock) && Placed(a, a.child).child == a.child
  {
    assert a.child == root + a.child[|root|..];
  }

  lemma RootPlaced(destination: Path, root: Path, roots: seq<Layer>, children: seq<Path>, stock: map<Path, Layer>,
                   tree: Layer)
    requires Directories(roots) && root in stock && stock[root].Folder?
    requires Mount(Opened(roots) + [stock[root]]) == Some(tree)
    ensures Underway([Overlaid(root, destination, tree)], destination, root, roots, children, stock, [])
  {
    SubLayersHere(roots);
    assert root[|root|..] == [] && destination + [] == destination;
  }

  /** The direct children found among the first `n`. */
  predicate DirectSoFar(children: seq<Path>, root: Path, direct: seq<Path>, n: nat)
    requires n <= |children|
  {
    && Unrelated(direct)
    && (forall d :: d in direct ==> Above(root, d) && d in children[..n])
    && (forall i :: 0 <= i < n && Above(root, children[i]) ==> IsUnder(direct, children[i]))
  }

  /** `direct` lists the topmost children strictly below a root. */
  ghost predicate Topmost(children: seq<Path>, root: Path, direct: seq<Path>) {
    forall d :: d in direct <==>
      d in children && Above(root, d) && forall c :: c in children && Above(root, c) ==> !Above(c, d)
  }

  lemma NoDirect(children: seq<Path>, root: Path)
    ensures DirectSoFar(children, root, [], 0)
  {
  }

  lemma NewDirect(children: seq<Path>, root: Path, direct: seq<Path>, n: nat)
    requires n < |children| && ParentsFirst(children) && DirectSoFar(children, root, direct, n)
    requires Above(root, children[n]) && !IsUnder(direct, children[n])
    ensures DirectSoFar(children, root, direct + [children[n]], n + 1)
    ensures Unrelated(direct + [children[n]]) && DirectlyBelow(children, root, children[n])
  {
    var more := direct + [children[n]];
    assert children[..n+1] == children[..n] + [children[n]];
    forall i | 0 <= i < |direct| ensures !(more[i] <= children[n]) && !(children[n] <= more[i]) {
      assert direct[i] in direct;
      var k :| 0 <= k < n && children[k] == direct[i];
    }
    forall i | 0 <= i < n + 1 && Above(root, children[i]) ensures IsUnder(more, children[i]) {
      if i < n {
        var k :| 0 <= k < |direct| && direct[k] <= children[i];
        assert more[k] == direct[k];
      } else {
        assert more[|direct|] <= children[i];
      }
    }
  }

  lemma OldDirect(children: seq<Path>, root: Path, direct: seq<Path>, n: nat)
    requires n < |children| && DirectSoFar(children, root, direct, n)
    requires Above(root, children[n]) ==> IsUnder(direct, children[n])
    ensures DirectSoFar(children, root, direct, n + 1)
  {
    assert children[..n+1] == children[..n] + [children[n]];
  }

  lemma DirectIsTopmost(children: seq<Path>, root: Path, direct: seq<Path>)
    requires DirectSoFar(children, root, direct, |children|)
    ensures Topmost(children, root, direct)
  {
    assert children[..|children|] == children;
    forall c | c in children && Above(root, c) ensures IsUnder(direct, c) {
      var i :| 0 <= i < |children| && children[i] == c;
    }
    forall d | d in direct ensures forall c :: c in children && Above(root, c) ==> !Above(c, d) {
      forall c | c in children && Above(root, c) ensures !Above(c, d) {
        var i :| 0 <= i < |direct| && direct[i] <= c;
        var j :| 0 <= j < |direct| && direct[j] == d;
      }
    }
    forall d | d in children && Above(root, d) && (forall c :: c in children && Above(root, c) ==> !Above(c, d))
      ensures d in direct
    {
      var i :| 0 <= i < |direct| && direct[i] <= d;
      assert direct[i] in direct;
    }
  }

  lemma UnderwayComplete(actions: seq<Action>, destination: Path, root: Path, roots: seq<Layer>, children: seq<Path>,
                         stock: map<Path, Layer>, direct: seq<Path>)
    requires Underway(actions, destination, root, roots, children, stock, direct)
    requires DirectSoFar(children, root, direct, |children|)
    ensures Complete(actions, destination, root, roots, children, stock)
  {
    forall j | 0 <= j < |actions| && j != 0 ensures !Establishes(actions[j], root) {
      assert root <= actions[j].child;
    }
    assert Establishes(actions[0], root);
    assert Once(actions, root);
    forall c | c in children && root <= c ensures Once(actions, c) {
      if c != root {
        var i :| 0 <= i < |children| && children[i] == c;
        assert IsUnder(direct, c);
      }
    }
  }
}
