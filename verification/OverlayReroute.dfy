/// Overlay targets that do not exist (src/pipeline.rs): their contents are brought
/// in through the nearest existing directory above, and nothing is lost on the way.
module OverlayReroute {
  import opened FileTrees
  import opened MountTrees
  import opened Strings
  import opened Wrappers

  datatype Probe = IsDirectory | NotDirectory | NotFound | Failed

  datatype Route = Existing | Missing(mount: Path, relative: Path)

  /** What looking at an absolute path finds. */
  function At(probes: map<Path, Probe>, path: Path): Probe {
    if path in probes then probes[path] else NotFound
  }

  predicate Is(probes: map<Path, Probe>, path: Path, probe: Probe) {
    path in probes && probes[path] == probe
  }

  /** No directory, and no failure to look, on the way from `target` up to `mount`. */
  predicate NothingBetween(probes: map<Path, Probe>, mount: Path, target: Path)
    requires mount <= target
  {
    forall k :: |mount| < k < |target| ==>
      target[..k] in probes ==> probes[target[..k]].NotFound? || probes[target[..k]].NotDirectory?
  }

  /** The nearest directory above a missing target, never the root itself. */
  predicate Nearest(probes: map<Path, Probe>, mount: Path, target: Path) {
    mount != [] && mount < target && Is(probes, mount, IsDirectory) && NothingBetween(probes, mount, target)
  }

  predicate Routed(probes: map<Path, Probe>, target: Path, r: Route) {
    match r
    case Existing => Is(probes, target, IsDirectory)
    case Missing(mount, relative) =>
      && (target in probes ==> Is(probes, target, NotFound))
      && target == mount + relative && Nearest(probes, mount, target)
  }

  method ResolveOverlayDirectoryTarget(probes: map<Path, Probe>, target: Path) returns (r: Option<Route>)
    ensures r.Some? ==> Routed(probes, target, r.value)
    ensures r.None? ==> forall route :: !Routed(probes, target, route)
  {
    match At(probes, target) {
      case IsDirectory => return Some(Existing);
      case NotDirectory => return None;
      case Failed => return None;
      case NotFound =>
    }
    var n := |target|;
    while n > 1
      invariant 0 <= n <= |target| && (target != [] ==> n >= 1)
      invariant forall k :: 0 < n <= k < |target| ==>
                At(probes, target[..k]).NotFound? || At(probes, target[..k]).NotDirectory?
    {
      n := n - 1;
      var candidate := target[..n];
      match At(probes, candidate) {
        case IsDirectory =>
          assert NothingBetween(probes, candidate, target);
          return Some(Missing(candidate, target[n..]));
        case Failed =>
          forall route ensures !Routed(probes, target, route) { Blocked(probes, target, n, route); }
          return None;
        case NotDirectory =>
        case NotFound =>
      }
    }
    forall route ensures !Routed(probes, target, route) {
      if route.Missing? && route.mount != [] && route.mount < target {
        var k := |route.mount|;
        assert route.mount == target[..k];
        assert At(probes, target[..k]).NotFound? || At(probes, target[..k]).NotDirectory?;
      }
    }
    r := None;
  }

  /** A path that cannot be looked at ends the search. */
  lemma Blocked(probes: map<Path, Probe>, target: Path, n: nat, route: Route)
    requires 0 < n < |target| && At(probes, target).NotFound? && At(probes, target[..n]).Failed?
    requires forall k :: n < k < |target| ==> At(probes, target[..k]).NotFound? || At(probes, target[..k]).NotDirectory?
    ensures !Routed(probes, target, route)
  {
    if route.Missing? && route.mount < target { assert route.mount == target[..|route.mount|]; }
  }

  /** There is at most one way to route a target. */
  lemma RouteIsUnique(probes: map<Path, Probe>, target: Path, a: Route, b: Route)
    requires Routed(probes, target, a) && Routed(probes, target, b)
    ensures a == b
  {
    if a.Missing? && b.Missing? {
      assert a.mount == target[..|a.mount|] && b.mount == target[..|b.mount|];
      assert a.relative == target[|a.mount|..] && b.relative == target[|b.mount|..];
    }
  }

  /** A target that can be reached is mounted on directly, or comes in through exactly
      one mount point. */
  lemma OneRoute(probes: map<Path, Probe>, target: Path, route: Route)
    requires Routed(probes, target, route)
    ensures if Is(probes, target, IsDirectory) then forall m :: !GoesTo(probes, target, false, m)
            else
              && GoesTo(probes, target, false, route.mount)
              && forall m :: GoesTo(probes, target, false, m) ==> m == route.mount
  {
    forall m ensures GoesTo(probes, target, false, m) <==> route.Missing? && m == route.mount {
      GoesToRoute(probes, target, route, false, m);
    }
  }

  // --- The execution plan -------------------------------------------------

  /** The layers of one target, or the single files of one directory. */
  datatype Operation = Operation(target: Path, sources: seq<Path>)

  /** A source brought in below a mount point that is not its own target. */
  datatype Shallow = Shallow(source: Path, destination: Path)

  function FileName(source: Path): string {
    if source == [] then "" else source[|source|-1]
  }

  /** Where each source of an operation goes: a directory onto the target itself, a
      file into it under its own name. */
  function Wanted(op: Operation, files: bool): seq<(Path, Path)>
    decreases |op.sources|
  {
    if op.sources == [] then []
    else
      var s := op.sources[0];
      [(s, if files then op.target + [FileName(s)] else op.target)] + Wanted(op.(sources := op.sources[1..]), files)
  }

  lemma {:induction false} WantedAt(op: Operation, files: bool, k: nat)
    requires k < |op.sources| && op.sources[k] != []
    ensures |Wanted(op, files)| == |op.sources|
    ensures Wanted(op, files)[k] ==
            (op.sources[k], if files then op.target + op.sources[k][|op.sources[k]| - 1..] else op.target)
    decreases |op.sources|
  {
    var rest := op.(sources := op.sources[1..]);
    WantedLength(rest, files);
    if k > 0 {
      WantedAt(rest, files, k - 1);
    } else {
      assert [FileName(op.sources[0])] == op.sources[0][|op.sources[0]| - 1..];
    }
  }

  lemma {:induction false} WantedLength(op: Operation, files: bool)
    ensures |Wanted(op, files)| == |op.sources|
    decreases |op.sources|
  {
    if op.sources != [] { WantedLength(op.(sources := op.sources[1..]), files); }
  }

  /** The same sources as entries below a mount point. */
  function Entries(op: Operation, files: bool, prefix: Path): (r: seq<Shallow>)
    ensures |r| == |op.sources|
    decreases |op.sources|
  {
    if op.sources == [] then []
    else
      var s := op.sources[0];
      var entry := Shallow(s, if files then prefix + [FileName(s)] else prefix);
      [entry] + Entries(op.(sources := op.sources[1..]), files, prefix)
  }

  /** Where a list of entries ends up below its mount point. */
  function Final(mount: Path, entries: seq<Shallow>): seq<(Path, Path)> {
    if entries == [] then [] else [(entries[0].source, mount + entries[0].destination)] + Final(mount, entries[1..])
  }

  /** Rerouted, every source still goes exactly where it was wanted. */
  lemma {:induction false} EntriesLandWhereWanted(op: Operation, files: bool, mount: Path, relative: Path)
    requires op.target == mount + relative
    ensures Final(mount, Entries(op, files, relative)) == Wanted(op, files)
    decreases |op.sources|
  {
    if op.sources != [] {
      EntriesLandWhereWanted(op.(sources := op.sources[1..]), files, mount, relative);
      if files { assert mount + (relative + [FileName(op.sources[0])]) == op.target + [FileName(op.sources[0])]; }
    }
  }

  /** What is rerouted to one mount point, the files before the layers. */
  ghost function ToMount(probes: map<Path, Probe>, ops: seq<Operation>, files: bool, mount: Path): seq<(Path, Path)>
  {
    if ops == [] then []
    else
      var op := ops[|ops|-1];
      var last := if GoesTo(probes, op.target, files, mount) then Wanted(op, files) else [];
      ToMount(probes, ops[..|ops|-1], files, mount) + last
  }

  /** Whether a target is served through a mount point; single files use their own
      directory as one where it exists. */
  ghost predicate GoesTo(probes: map<Path, Probe>, target: Path, files: bool, mount: Path) {
    (files && mount == target && Routed(probes, target, Existing))
    || exists relative :: Routed(probes, target, Missing(mount, relative))
  }

  function EntriesAt(shallow: map<Path, seq<Shallow>>, mount: Path): seq<Shallow> {
    if mount in shallow then shallow[mount] else []
  }

  lemma {:induction false} FinalAppends(mount: Path, a: seq<Shallow>, b: seq<Shallow>)
    ensures Final(mount, a + b) == Final(mount, a) + Final(mount, b)
  {
    if a == [] {
      assert a + b == b;
    } else {
      FinalAppends(mount, a[1..], b);
      assert (a + b)[1..] == a[1..] + b;
    }
  }

  predicate ShallowLeq(a: Shallow, b: Shallow) {
    if a.source != b.source then ComponentsLeq(a.source, b.source) else ComponentsLeq(a.destination, b.destination)
  }

  function InsertEntry(e: Shallow, entries: seq<Shallow>): seq<Shallow> {
    if entries == [] || ShallowLeq(e, entries[0]) then [e] + entries else [entries[0]] + InsertEntry(e, entries[1..])
  }

  function SortEntries(entries: seq<Shallow>): seq<Shallow> {
    if entries == [] then [] else InsertEntry(entries[0], SortEntries(entries[1..]))
  }

  lemma {:induction false} InsertedFinal(mount: Path, e: Shallow, entries: seq<Shallow>)
    ensures multiset(Final(mount, InsertEntry(e, entries))) ==
            multiset{(e.source, mount + e.destination)} + multiset(Final(mount, entries))
  {
    if entries != [] && !ShallowLeq(e, entries[0]) { InsertedFinal(mount, e, entries[1..]); }
  }

  /** Sorting moves no entry. */
  lemma {:induction false} SortedFinal(mount: Path, entries: seq<Shallow>)
    ensures multiset(Final(mount, SortEntries(entries))) == multiset(Final(mount, entries))
  {
    if entries != [] {
      SortedFinal(mount, entries[1..]);
      InsertedFinal(mount, entries[0], SortEntries(entries[1..]));
    }
  }

  lemma ShallowTotal(a: Shallow, b: Shallow)
    ensures ShallowLeq(a, b) || ShallowLeq(b, a)
  {
    ComponentsTotal(a.source, b.source);
    ComponentsTotal(a.destination, b.destination);
  }

  lemma ShallowTransitive(a: Shallow, b: Shallow, c: Shallow)
    requires ShallowLeq(a, b) && ShallowLeq(b, c)
    ensures ShallowLeq(a, c)
  {
    if a.source == b.source == c.source {
      ComponentsTransitive(a.destination, b.destination, c.destination);
    } else if a.source != b.source && b.source != c.source {
      ComponentsTransitive(a.source, b.source, c.source);
      if a.source == c.source { ComponentsAntisymmetric(a.source, b.source); }
    }
  }

  predicate SortedEntries(entries: seq<Shallow>) {
    forall i, j :: 0 <= i < j < |entries| ==> ShallowLeq(entries[i], entries[j])
  }

  lemma {:induction false} InsertedEntries(e: Shallow, entries: seq<Shallow>)
    ensures forall x :: x in InsertEntry(e, entries) <==> x == e || x in entries
  {
    if entries != [] && !ShallowLeq(e, entries[0]) {
      InsertedEntries(e, entries[1..]);
      assert entries == [entries[0]] + entries[1..];
    }
  }

  lemma {:induction false} InsertKeepsSorted(e: Shallow, entries: seq<Shallow>)
    requires SortedEntries(entries)
    ensures SortedEntries(InsertEntry(e, entries))
  {
    hide ShallowLeq;
    if entries == [] {
    } else if ShallowLeq(e, entries[0]) {
      forall j | 0 <= j < |entries| ensures ShallowLeq(e, entries[j]) {
        if j > 0 { ShallowTransitive(e, entries[0], entries[j]); }
      }
    } else {
      var rest := InsertEntry(e, entries[1..]);
      InsertKeepsSorted(e, entries[1..]);
      InsertedEntries(e, entries[1..]);
      ShallowTotal(e, entries[0]);
      forall j | 0 <= j < |rest| ensures ShallowLeq(entries[0], rest[j]) {
        assert rest[j] in rest;
        if rest[j] != e {
          var k :| 0 <= k < |entries[1..]| && entries[1..][k] == rest[j];
        }
      }
    }
  }

  /** The entries of a shallow mount are sorted by source, then by destination. */
  lemma {:induction false} EntriesAreSorted(entries: seq<Shallow>)
    ensures SortedEntries(SortEntries(entries))
  {
    if entries != [] {
      EntriesAreSorted(entries[1..]);
      InsertKeepsSorted(entries[0], SortEntries(entries[1..]));
    }
  }

  predicate AscendingSources(sources: seq<Path>) {
    forall i, j :: 0 <= i < j < |sources| ==> sources[i] != sources[j] && ComponentsLeq(sources[i], sources[j])
  }

  /** Each entry is a layer of its own, the first on top: the sources of an operation
      that were given in order stay so, whatever comes in between. */
  lemma OrderIsKept(entries: seq<Shallow>, sources: seq<Path>, a: nat, b: nat, i: nat, j: nat)
    requires SortedEntries(entries) && AscendingSources(sources) && a < b < |sources|
    requires i < |entries| && entries[i].source == sources[a] && j < |entries| && entries[j].source == sources[b]
    ensures i < j
  {
    if j < i { ComponentsAntisymmetric(sources[a], sources[b]); }
  }

  /** The staged layers of modules, listed by module ID, are in the order of their paths. */
  lemma ModulesAreAscending(base: Path, ids: seq<string>, rests: seq<Path>, sources: seq<Path>)
    requires |ids| == |rests| == |sources|
    requires forall i :: 0 <= i < |ids| ==> sources[i] == base + ([ids[i]] + rests[i])
    requires forall i, j :: 0 <= i < j < |ids| ==> ids[i] != ids[j] && LexLeq(ids[i], ids[j])
    ensures AscendingSources(sources)
  {
    forall i, j | 0 <= i < j < |sources| ensures sources[i] != sources[j] && ComponentsLeq(sources[i], sources[j]) {
      ComponentsAfter(base, [ids[i]] + rests[i], [ids[j]] + rests[j]);
      assert sources[i][|base|] == ids[i] && sources[j][|base|] == ids[j];
    }
  }

  class Execution {
    /** The operations mounted on their own targets, and the entries of every shallow mount. */
    var direct: seq<nat>
    var shallow: map<Path, seq<Shallow>>

    constructor ()
      ensures direct == [] && shallow == map[]
    {
      direct, shallow := [], map[];
    }

    method AddEntries(mount: Path, entries: seq<Shallow>)
      modifies this`shallow
      ensures forall m :: EntriesAt(shallow, m) == EntriesAt(old(shallow), m) + if m == mount then entries else []
    {
      shallow := shallow[mount := EntriesAt(shallow, mount) + entries];
    }

    /** Bring the sources of one operation in below a mount point. */
    method Reroute(probes: map<Path, Probe>, ops: seq<Operation>, files: bool, i: nat, mount: Path, prefix: Path,
                   ghost base: map<Path, seq<Shallow>>)
      requires i < |ops| && ops[i].target == mount + prefix
      requires forall m :: GoesTo(probes, ops[i].target, files, m) <==> m == mount
      requires Collected(probes, base, shallow, ops[..i], files)
      modifies this`shallow
      ensures Collected(probes, base, shallow, ops[..i+1], files)
    {
      ghost var before := shallow;
      AddEntries(mount, Entries(ops[i], files, prefix));
      EntriesLandWhereWanted(ops[i], files, mount, prefix);
      CollectedMore(probes, base, before, shallow, ops, files, i, mount, Entries(ops[i], files, prefix));
    }

    /** Route every directory with single files. */
    method RouteFiles(probes: map<Path, Probe>, files: seq<Operation>) returns (ok: bool)
      modifies this`shallow
      ensures ok <==> forall op :: op in files ==> Reachable(probes, op) && Named(op)
      ensures ok ==> Collected(probes, old(shallow), shallow, files, true)
    {
      NothingYet(probes, shallow, files, true);
      for i := 0 to |files|
        invariant forall j :: 0 <= j < i ==> Reachable(probes, files[j]) && Named(files[j])
        invariant Collected(probes, old(shallow), shallow, files[..i], true)
      {
        var op := files[i];
        var route := ResolveOverlayDirectoryTarget(probes, op.target);
        ok := route.Some? && Named(op);
        if !ok {
          assert op in files;
          return;
        }
        var mount := if route.value.Existing? then op.target else route.value.mount;
        var prefix := if route.value.Existing? then [] else route.value.relative;
        assert op.target + [] == op.target;
        forall m ensures GoesTo(probes, op.target, true, m) <==> m == mount {
          GoesToRoute(probes, op.target, route.value, true, m);
        }
        Reroute(probes, files, true, i, mount, prefix, old(shallow));
      }
      assert files[..|files|] == files;
      ok := true;
    }

    /** Route one overlay operation: onto its own target, or like the files. */
    method RouteLayer(probes: map<Path, Probe>, ops: seq<Operation>, i: nat, ghost base: map<Path, seq<Shallow>>)
      returns (ok: bool)
      requires i < |ops| && Collected(probes, base, shallow, ops[..i], false)
      modifies this`shallow, this`direct
      ensures ok <==> Reachable(probes, ops[i])
      ensures ok ==> Collected(probes, base, shallow, ops[..i+1], false)
      ensures ok ==> direct == old(direct) + if At(probes, ops[i].target).IsDirectory? then [i] else []
    {
      var op := ops[i];
      var route := ResolveOverlayDirectoryTarget(probes, op.target);
      ok := route.Some?;
      if !ok { return; }
      assert ops[..i+1][..i] == ops[..i];
      forall m ensures GoesTo(probes, op.target, false, m) <==> route.value.Missing? && m == route.value.mount {
        GoesToRoute(probes, op.target, route.value, false, m);
      }
      if route.value.Existing? {
        direct := direct + [i];
        assert Collected(probes, base, shallow, ops[..i+1], false);
      } else {
        Reroute(probes, ops, false, i, route.value.mount, route.value.relative, base);
      }
    }

    /** Route every overlay operation. */
    method RouteLayers(probes: map<Path, Probe>, ops: seq<Operation>) returns (ok: bool)
      requires direct == []
      modifies this`shallow, this`direct
      ensures ok <==> forall op :: op in ops ==> Reachable(probes, op)
      ensures ok ==> Collected(probes, old(shallow), shallow, ops, false)
      ensures ok ==> direct == DirectOnes(probes, ops)
    {
      NothingYet(probes, shallow, ops, false);
      hide Collected, Reachable;
      for i := 0 to |ops|
        invariant forall j :: 0 <= j < i ==> Reachable(probes, ops[j])
        invariant Collected(probes, old(shallow), shallow, ops[..i], false)
        invariant direct == DirectOnes(probes, ops[..i])
      {
        assert ops[i] in ops && ops[..i+1][..i] == ops[..i];
        ok := RouteLayer(probes, ops, i, old(shallow));
        if !ok { return; }
      }
      assert ops[..|ops|] == ops;
      ok := true;
    }

    method SortShallow()
      modifies this`shallow
      ensures forall m :: EntriesAt(shallow, m) == SortEntries(EntriesAt(old(shallow), m))
      ensures forall m :: SortedEntries(EntriesAt(shallow, m))
    {
      forall m ensures SortedEntries(SortEntries(EntriesAt(shallow, m))) {
        EntriesAreSorted(EntriesAt(shallow, m));
      }
      shallow := map m | m in shallow :: SortEntries(shallow[m]);
    }

    /** `build_overlay_execution_plan`: every layer is mounted on its own target or
        comes in, like every single file, below exactly one mount point, at the very
        place it was meant for. */
    method BuildExecutionPlan(probes: map<Path, Probe>, ops: seq<Operation>, files: seq<Operation>) returns (ok: bool)
      requires direct == [] && shallow == map[]
      modifies this`shallow, this`direct
      ensures ok <==> (forall op :: op in ops || op in files ==> Reachable(probes, op)) && forall op :: op in files ==>
                Named(op)
      ensures ok ==> direct == DirectOnes(probes, ops)
      ensures ok ==> forall m :: multiset(Final(m, EntriesAt(shallow, m))) ==
                                 multiset(ToMount(probes, files, true, m)) + multiset(ToMount(probes, ops, false, m))
      ensures ok ==> forall m :: SortedEntries(EntriesAt(shallow, m))
    {
      ok := RouteFiles(probes, files);
      if !ok { return; }
      ghost var afterFiles := shallow;
      ok := RouteLayers(probes, ops);
      if !ok { return; }
      ghost var collected := shallow;
      SortShallow();
      forall m ensures multiset(Final(m, EntriesAt(shallow, m))) ==
                       multiset(ToMount(probes, files, true, m)) + multiset(ToMount(probes, ops, false, m))
      {
        assert Final(m, EntriesAt(afterFiles, m)) == [] + ToMount(probes, files, true, m) ==
               ToMount(probes, files, true, m);
        SortedFinal(m, EntriesAt(collected, m));
      }
    }
  }

  /** Every source has a file name. */
  predicate Named(op: Operation) {
    forall s :: s in op.sources ==> s != []
  }

  /** The operations that stay on their own targets. */
  function DirectOnes(probes: map<Path, Probe>, ops: seq<Operation>): seq<nat> {
    if ops == [] then []
    else DirectOnes(probes, ops[..|ops|-1]) + if At(probes, ops[|ops|-1].target).IsDirectory? then [|ops|-1] else []
  }

  /** The shallow entries are those of `base` and those of the operations. */
  ghost predicate Collected(probes: map<Path, Probe>, base: map<Path, seq<Shallow>>, shallow: map<Path, seq<Shallow>>,
                            ops: seq<Operation>, files: bool)
  {
    forall m :: Final(m, EntriesAt(shallow, m)) == Final(m, EntriesAt(base, m)) + ToMount(probes, ops, files, m)
  }

  lemma ToMountNext(probes: map<Path, Probe>, ops: seq<Operation>, files: bool, i: nat, m: Path)
    requires i < |ops|
    ensures ToMount(probes, ops[..i+1], files, m) ==
            ToMount(probes, ops[..i], files, m) + if GoesTo(probes, ops[i].target, files, m) then Wanted(ops[i], files)
                                                  else []
  {
    assert ops[..i+1][..i] == ops[..i] && ops[..i+1][i] == ops[i];
  }

  lemma Regroup<T>(a: seq<T>, b: seq<T>, c: seq<T>)
    ensures (a + b) + c == a + (b + c)
  {
  }

  lemma CollectedMore(probes: map<Path, Probe>, base: map<Path, seq<Shallow>>, before: map<Path, seq<Shallow>>,
                      now: map<Path, seq<Shallow>>, ops: seq<Operation>, files: bool, i: nat, mount: Path,
                      entries: seq<Shallow>)
    requires i < |ops| && Collected(probes, base, before, ops[..i], files)
    requires forall m :: EntriesAt(now, m) == EntriesAt(before, m) + if m == mount then entries else []
    requires forall m :: GoesTo(probes, ops[i].target, files, m) <==> m == mount
    requires Final(mount, entries) == Wanted(ops[i], files)
    ensures Collected(probes, base, now, ops[..i+1], files)
  {
    hide GoesTo, Wanted, ToMount, Final;
    forall m
      ensures Final(m, EntriesAt(now, m)) == Final(m, EntriesAt(base, m)) + ToMount(probes, ops[..i+1], files, m)
    {
      ToMountNext(probes, ops, files, i, m);
      if m == mount {
        FinalAppends(m, EntriesAt(before, m), entries);
        Regroup(Final(m, EntriesAt(base, m)), ToMount(probes, ops[..i], files, m), Wanted(ops[i], files));
      } else {
        assert EntriesAt(now, m) == EntriesAt(before, m);
        assert ToMount(probes, ops[..i+1], files, m) == ToMount(probes, ops[..i], files, m);
      }
    }
  }

  lemma NothingYet(probes: map<Path, Probe>, base: map<Path, seq<Shallow>>, ops: seq<Operation>, files: bool)
    ensures Collected(probes, base, base, ops[..0], files)
  {
    assert ops[..0] == [];
    forall m ensures Final(m, EntriesAt(base, m)) == Final(m, EntriesAt(base, m)) + ToMount(probes, [], files, m) {}
  }

  ghost predicate Reachable(probes: map<Path, Probe>, op: Operation) {
    exists route :: Routed(probes, op.target, route)
  }

  lemma GoesToRoute(probes: map<Path, Probe>, target: Path, route: Route, files: bool, mount: Path)
    requires Routed(probes, target, route)
    ensures GoesTo(probes, target, files, mount) <==>
              if route.Existing? then files && mount == target else mount == route.mount
  {
    if relative :| Routed(probes, target, Missing(mount, relative)) {
      RouteIsUnique(probes, target, route, Missing(mount, relative));
    }
    if route.Missing? && route.mount == mount { assert Routed(probes, target, Missing(mount, route.relative)); }
  }
}
