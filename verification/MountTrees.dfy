/// The shared mount tree: one node per mount target, with every module's
/// contribution to it (src/mount_tree.rs).
module MountTrees {
  import opened FileTrees
  import opened Strings
  import opened Wrappers

  datatype Mode = Overlay | Magic | Vfs | Ignore

  datatype NodeFileType = RegularFile | Directory | Symlink | Whiteout

  datatype MountSource = MountSource(
    moduleId: string, relative: Path, sourcePath: Path,
    fileType: NodeFileType, replace: bool, backend: Mode)

  datatype StructuralSource = StructuralSource(moduleId: string, sourcePath: Path)

  /** A node is named by its key among its parent's children. */
  datatype MountNode = MountNode(
    children: map<string, MountNode>, sources: seq<MountSource>, structural: seq<StructuralSource>)

  /** The first, winning contribution for a backend. */
  function FirstFor(sources: seq<MountSource>, backend: Mode): (r: Option<MountSource>)
    ensures r.Some? ==> r.value in sources && r.value.backend == backend
    ensures r.None? ==> forall s :: s in sources ==> s.backend != backend
  {
    if sources == [] then None
    else if sources[0].backend == backend then Some(sources[0])
    else
      assert sources == [sources[0]] + sources[1..];
      FirstFor(sources[1..], backend)
  }

  function SourceFor(node: MountNode, backend: Mode): Option<MountSource> {
    FirstFor(node.sources, backend)
  }

  predicate HasBackend(node: MountNode, backend: Mode)
    decreases node
  {
    SourceFor(node, backend).Some? || exists n :: n in node.children && HasBackend(node.children[n], backend)
  }

  predicate ChildHasBackend(node: MountNode, backend: Mode) {
    exists n :: n in node.children && HasBackend(node.children[n], backend)
  }

  /** What the executor sees: without a contribution of its own a node that
      carries some for the backend is a structural directory. */
  function FileTypeFor(node: MountNode, backend: Mode): Option<NodeFileType> {
    if SourceFor(node, backend).Some? then Some(SourceFor(node, backend).value.fileType)
    else if ChildHasBackend(node, backend) then Some(Directory)
    else None
  }

  function FirstDirectory(sources: seq<MountSource>): Option<Path> {
    if sources == [] then None
    else if sources[0].fileType.Directory? then Some(sources[0].sourcePath)
    else FirstDirectory(sources[1..])
  }

  function StructuralPath(node: MountNode): Option<Path> {
    if FirstDirectory(node.sources).Some? then FirstDirectory(node.sources)
    else if node.structural != [] then Some(node.structural[0].sourcePath)
    else None
  }

  function ModulePathFor(node: MountNode, backend: Mode): Option<Path> {
    if SourceFor(node, backend).Some? then Some(SourceFor(node, backend).value.sourcePath) else StructuralPath(node)
  }

  predicate ReplaceFor(node: MountNode, backend: Mode) {
    SourceFor(node, backend).Some? && SourceFor(node, backend).value.replace
  }

  // --- Insertion ----------------------------------------------------------

  function Joined(path: Path): string {
    if path == [] then "" else if |path| == 1 then path[0] else path[0] + "/" + Joined(path[1..])
  }

  lemma {:induction false} PrefixIsShorter(a: Path, b: Path)
    requires a <= b && a != b && a != []
    ensures |Joined(a)| < |Joined(b)|
  {
    if |a| > 1 { PrefixIsShorter(a[1..], b[1..]); }
  }

  predicate SourceLeq(a: MountSource, b: MountSource) {
    if a.moduleId != b.moduleId then LexLeq(a.moduleId, b.moduleId) else LexLeq(Joined(a.relative), Joined(b.relative))
  }

  predicate StructuralLeq(a: StructuralSource, b: StructuralSource) {
    if a.moduleId != b.moduleId then LexLeq(a.moduleId, b.moduleId)
    else ComponentsLeq(a.sourcePath, b.sourcePath)
  }

  /** Push at the end of a sorted list, then sort it stably. */
  function PushSource(sources: seq<MountSource>, s: MountSource): (r: seq<MountSource>)
    ensures forall x :: x in r <==> x in sources || x == s
  {
    if sources == [] then [s]
    else
      assert sources == [sources[0]] + sources[1..];
      if SourceLeq(sources[0], s) then [sources[0]] + PushSource(sources[1..], s) else [s] + sources
  }

  function PushStructural(sources: seq<StructuralSource>, s: StructuralSource): (r: seq<StructuralSource>)
    ensures forall x :: x in r <==> x in sources || x == s
  {
    if sources == [] then [s]
    else
      assert sources == [sources[0]] + sources[1..];
      if StructuralLeq(sources[0], s) then [sources[0]] + PushStructural(sources[1..], s) else [s] + sources
  }

  const NO_NODE: MountNode := MountNode(map[], [], [])

  /** The path `n` components up, as far as there are any. */
  function Up(path: Path, n: nat): Path {
    path[..if n <= |path| then |path| - n else 0]
  }

  /** Note on a node on the way that the source's directory stands behind it; `kept`
      of the source's components lead to it. */
  function Pass(node: MountNode, source: MountSource, kept: nat): MountNode {
    if kept < |source.relative| || source.fileType.Directory? then
      var up := Up(source.sourcePath, if kept < |source.relative| then |source.relative| - kept else 0);
      var s := StructuralSource(source.moduleId, up);
      if s in node.structural then node else node.(structural := PushStructural(node.structural, s))
    else node
  }

  /** `insert`: walk down `rest`, creating nodes, and add the source to the last. */
  function InsertBelow(node: MountNode, rest: Path, source: MountSource, kept: nat): MountNode
    decreases rest
  {
    if rest == [] then node.(sources := PushSource(node.sources, source))
    else
      var child := if rest[0] in node.children then node.children[rest[0]] else NO_NODE;
      var grown := InsertBelow(Pass(child, source, kept + 1), rest[1..], source, kept + 1);
      node.(children := node.children[rest[0] := grown])
  }

  /** How many components of the source lead no deeper than the root of the tree. */
  function Offset(target: Path, source: MountSource): nat {
    if |target| <= |source.relative| then |source.relative| - |target| else 0
  }

  function InsertSource(root: MountNode, target: Path, source: MountSource): MountNode {
    InsertBelow(root, target, source, Offset(target, source))
  }

  function NodeAt(node: MountNode, path: Path): Option<MountNode>
    decreases path
  {
    if path == [] then Some(node)
    else if path[0] in node.children then NodeAt(node.children[path[0]], path[1..])
    else None
  }

  /** Whether a contribution stands at a path below a node. */
  predicate Occurs(node: MountNode, path: Path, s: MountSource) {
    NodeAt(node, path).Some? && s in NodeAt(node, path).value.sources
  }

  /** A node carries a backend exactly if some contribution at or below it does. */
  lemma {:induction false} BackendOccurs(node: MountNode, backend: Mode)
    ensures HasBackend(node, backend) <==> exists path, s :: Occurs(node, path, s) && s.backend == backend
    decreases node
  {
    assert NodeAt(node, []) == Some(node);
    forall n | n in node.children
      ensures HasBackend(node.children[n], backend) <==>
              exists path, s :: Occurs(node.children[n], path, s) && s.backend == backend
    {
      BackendOccurs(node.children[n], backend);
    }
    if HasBackend(node, backend) {
      if SourceFor(node, backend).Some? {
        assert Occurs(node, [], SourceFor(node, backend).value);
      } else {
        var n :| n in node.children && HasBackend(node.children[n], backend);
        var path, s :| Occurs(node.children[n], path, s) && s.backend == backend;
        assert ([n] + path)[1..] == path && Occurs(node, [n] + path, s);
      }
    }
    if path, s :| Occurs(node, path, s) && s.backend == backend {
      if path != [] { assert Occurs(node.children[path[0]], path[1..], s); }
    }
  }

  lemma {:induction false} InsertedBelow(node: MountNode, rest: Path, source: MountSource, kept: nat, q: Path,
                                         s: MountSource)
    ensures Occurs(InsertBelow(node, rest, source, kept), q, s) <==> Occurs(node, q, s) || (q == rest && s == source)
    decreases rest
  {
    if rest != [] && q != [] && q[0] == rest[0] {
      var child := if rest[0] in node.children then node.children[rest[0]] else NO_NODE;
      InsertedBelow(Pass(child, source, kept + 1), rest[1..], source, kept + 1, q[1..], s);
      assert q == rest <==> q[1..] == rest[1..] by { assert q == [q[0]] + q[1..] && rest == [rest[0]] + rest[1..]; }
      assert Occurs(Pass(child, source, kept + 1), q[1..], s) <==> Occurs(child, q[1..], s);
    }
  }

  /** Inserting adds the one contribution at its target and moves no other. */
  lemma Inserted(root: MountNode, target: Path, source: MountSource, q: Path, s: MountSource)
    ensures Occurs(InsertSource(root, target, source), q, s) <==> Occurs(root, q, s) || (q == target && s == source)
  {
    InsertedBelow(root, target, source, Offset(target, source), q, s);
  }

  predicate HasStructural(node: MountNode, path: Path, s: StructuralSource) {
    NodeAt(node, path).Some? && s in NodeAt(node, path).value.structural
  }

  /** How many of the source's components are taken to lead to the node at `target[..k]`. */
  function KeptAt(source: MountSource, target: Path, k: nat): nat {
    Offset(target, source) + k
  }

  predicate Records(source: MountSource, kept: nat) {
    kept < |source.relative| || source.fileType.Directory?
  }

  function Recorded(source: MountSource, kept: nat): StructuralSource {
    var up := if kept < |source.relative| then |source.relative| - kept else 0;
    StructuralSource(source.moduleId, Up(source.sourcePath, up))
  }

  lemma {:induction false} StructuralBelow(node: MountNode, rest: Path, source: MountSource, kept: nat,
                                           p: Path, s: StructuralSource)
    ensures HasStructural(InsertBelow(node, rest, source, kept), p, s) <==>
            || HasStructural(node, p, s)
            || (p != [] && p <= rest && Records(source, kept + |p|) && s == Recorded(source, kept + |p|))
    decreases rest
  {
    if rest != [] && p != [] && p[0] == rest[0] {
      var child := if rest[0] in node.children then node.children[rest[0]] else NO_NODE;
      var passed := Pass(child, source, kept + 1);
      StructuralBelow(passed, rest[1..], source, kept + 1, p[1..], s);
      assert p == [p[0]] + p[1..] && rest == [rest[0]] + rest[1..];
      assert p <= rest <==> p[1..] <= rest[1..];
      if p[1..] == [] {
        assert HasStructural(passed, [], s) <==> s in passed.structural;
        assert HasStructural(node, p, s) <==> s in child.structural;
      } else {
        assert HasStructural(passed, p[1..], s) <==> HasStructural(child, p[1..], s);
      }
    }
  }

  /** Inserting notes one module directory on each node of the way, as far as there is
      one to note, and nothing anywhere else. */
  lemma InsertedStructural(root: MountNode, target: Path, source: MountSource, p: Path, s: StructuralSource)
    ensures HasStructural(InsertSource(root, target, source), p, s) <==>
            || HasStructural(root, p, s)
            || (p != [] && p <= target && Records(source, KeptAt(source, target, |p|))
                && s == Recorded(source, KeptAt(source, target, |p|)))
  {
    StructuralBelow(root, target, source, KeptAt(source, target, 0), p, s);
  }

  /** The module directory that stands for the node at `target[..k]`, where the end of
      the target is the module path; above that there is none. */
  function StandsFor(source: MountSource, module_: Path, target: Path, k: nat): Option<Path>
    requires k <= |target|
  {
    if |target| - k <= |source.relative| then Some(module_ + source.relative[..|source.relative| - (|target| - k)])
    else None
  }

  /** What is noted on a node is the directory that stands for it exactly when the
      target has no more components than the module path, or at the target itself. */
  lemma StructuralAligned(target: Path, source: MountSource, module_: Path, k: nat)
    requires source.sourcePath == module_ + source.relative && 0 < k <= |target|
    requires Records(source, KeptAt(source, target, k))
    ensures StandsFor(source, module_, target, k) == Some(Recorded(source, KeptAt(source, target, k)).sourcePath) <==>
            |target| <= |source.relative| || k == |target|
  {
    var n, kept := |source.relative|, KeptAt(source, target, k);
    var noted := if kept < n then kept else n;
    assert Recorded(source, kept).sourcePath == module_ + source.relative[..noted];
    if |target| - k <= n {
      var stands := module_ + source.relative[..n - (|target| - k)];
      assert |stands| == |module_| + n - (|target| - k);
    }
  }

  /** `vendor/etc` on /system/vendor/etc notes the module's `vendor` on /system. */
  lemma PromotedIsMisaligned(source: MountSource)
    requires source.relative == ["vendor", "etc"] && source.sourcePath == ["m", "vendor", "etc"]
    ensures HasStructural(InsertSource(NO_NODE, ["system", "vendor", "etc"], source), ["system"],
                          StructuralSource(source.moduleId, ["m", "vendor"]))
    ensures StandsFor(source, ["m"], ["system", "vendor", "etc"], 1) == Some(["m"])
  {
    InsertedStructural(NO_NODE, ["system", "vendor", "etc"], source, ["system"],
                       StructuralSource(source.moduleId, ["m", "vendor"]));
    assert ["system", "vendor", "etc"][..1] == ["system"];
    assert ["m"] + [] == ["m"];
  }

  // --- Which contribution wins --------------------------------------------

  predicate SortedSources(sources: seq<MountSource>) {
    forall i, j :: 0 <= i < j < |sources| ==> SourceLeq(sources[i], sources[j])
  }

  /** Every node lists its contributions by module and path. */
  predicate SortedTree(node: MountNode)
    decreases node
  {
    SortedSources(node.sources) && forall n :: n in node.children ==> SortedTree(node.children[n])
  }

  lemma SourceTotal(a: MountSource, b: MountSource)
    ensures SourceLeq(a, b) || SourceLeq(b, a)
  {
    LexTotal(a.moduleId, b.moduleId);
    LexTotal(Joined(a.relative), Joined(b.relative));
  }

  lemma SourceTransitive(a: MountSource, b: MountSource, c: MountSource)
    requires SourceLeq(a, b) && SourceLeq(b, c)
    ensures SourceLeq(a, c)
  {
    if a.moduleId == b.moduleId == c.moduleId {
      LexTransitive(Joined(a.relative), Joined(b.relative), Joined(c.relative));
    } else if a.moduleId != b.moduleId && b.moduleId != c.moduleId {
      LexTransitive(a.moduleId, b.moduleId, c.moduleId);
      if a.moduleId == c.moduleId { LexAntisymmetric(a.moduleId, b.moduleId); }
    }
  }

  lemma {:induction false} PushKeepsOrder(sources: seq<MountSource>, s: MountSource)
    requires SortedSources(sources)
    ensures SortedSources(PushSource(sources, s))
  {
    if sources != [] {
      assert sources == [sources[0]] + sources[1..];
      if SourceLeq(sources[0], s) {
        PushKeepsOrder(sources[1..], s);
        var rest := PushSource(sources[1..], s);
        hide SourceLeq;
        forall j | 0 <= j < |rest| ensures SourceLeq(sources[0], rest[j]) {
          assert rest[j] in rest;
          if rest[j] != s {
            var k :| 0 <= k < |sources[1..]| && sources[1..][k] == rest[j];
          }
        }
      } else {
        SourceTotal(sources[0], s);
        forall j | 0 <= j < |sources| ensures SourceLeq(s, sources[j]) {
          if j > 0 { SourceTransitive(s, sources[0], sources[j]); }
        }
      }
    }
  }

  lemma {:induction false} InsertKeepsOrder(node: MountNode, rest: Path, source: MountSource, kept: nat)
    requires SortedTree(node)
    ensures SortedTree(InsertBelow(node, rest, source, kept))
    decreases rest
  {
    if rest == [] {
      PushKeepsOrder(node.sources, source);
    } else {
      var child := if rest[0] in node.children then node.children[rest[0]] else NO_NODE;
      assert SortedTree(Pass(child, source, kept + 1));
      InsertKeepsOrder(Pass(child, source, kept + 1), rest[1..], source, kept + 1);
    }
  }

  /** In a tree built by insertion the contribution that wins for a backend has the
      module ID that sorts first, and of that module the path that does. */
  lemma {:induction false} WinnerIsLeast(node: MountNode, backend: Mode, s: MountSource)
    requires SortedSources(node.sources) && s in node.sources && s.backend == backend
    ensures SourceFor(node, backend).Some?
    ensures var w := SourceFor(node, backend).value;
            || SortsBefore(w.moduleId, s.moduleId)
            || (w.moduleId == s.moduleId
                && (Joined(w.relative) == Joined(s.relative)
                    || SortsBefore(Joined(w.relative), Joined(s.relative))))
  {
    FirstIsLeast(node.sources, backend, s);
    var w := SourceFor(node, backend).value;
    LexMeans(w.moduleId, s.moduleId);
    LexMeans(Joined(w.relative), Joined(s.relative));
  }

  lemma {:induction false} FirstIsLeast(sources: seq<MountSource>, backend: Mode, s: MountSource)
    requires SortedSources(sources) && s in sources && s.backend == backend
    ensures FirstFor(sources, backend).Some? && SourceLeq(FirstFor(sources, backend).value, s)
  {
    assert sources == [sources[0]] + sources[1..];
    if sources[0].backend == backend {
      SourceTotal(s, s);
      var i :| 0 <= i < |sources| && sources[i] == s;
    } else {
      FirstIsLeast(sources[1..], backend, s);
    }
  }
}
