/// The magic mount executor (src/magic_mount/exec.rs): every directory is
/// rebuilt in place or through a tmpfs skeleton, chosen node by node.
module MagicMount {
  import opened FileTrees
  import opened MountTrees
  import opened Wrappers

  // --- What should be visible ---------------------------------------------

  predicate Selected(node: MountNode, name: string) {
    name in node.children && HasBackend(node.children[name], Magic)
  }

  /** The stock tree with the magic contributions of a node laid over it: selected
      files and links win, whiteouts vanish, a replaced directory loses the stock
      entries no contribution names, every other stock entry survives. A plain directory
      takes the place of a stock link and keeps the entries of what the link leads to. */
  function Merge(stock: Option<Tree>, node: MountNode): Option<Tree>
    decreases node, 1
  {
    match FileTypeFor(node, Magic)
    case None => stock
    case Some(RegularFile) => Some(File(ModulePathFor(node, Magic).value))
    case Some(Symlink) => Some(Link(ModulePathFor(node, Magic).value, None))
    case Some(Whiteout) => None
    case Some(Directory) =>
      Some(Dir(map n | n in EntriesOf(stock).Keys + node.children.Keys
               && Outcome(stock, node, n).Some? :: Outcome(stock, node, n).value))
  }

  function Outcome(stock: Option<Tree>, node: MountNode, name: string): Option<Tree>
    decreases node, 0
  {
    if Selected(node, name) then Merge(Entry(EntriesOf(stock), name), node.children[name])
    else if ReplaceFor(node, Magic) then None
    else Entry(EntriesOf(stock), name)
  }

  /** Whether a child cannot be mounted onto what is there. */
  predicate Needs(stock: Option<Tree>, node: MountNode) {
    match FileTypeFor(node, Magic)
    case Some(Symlink) => true
    case Some(Whiteout) => stock.Some?
    case Some(RegularFile) => !(stock.Some? && stock.value.File?)
    case Some(Directory) => !(stock.Some? && stock.value.Dir?)
    case None => true
  }

  predicate IsDirectory(node: MountNode) {
    FileTypeFor(node, Magic) == Some(Directory)
  }

  predicate IsFile(stock: Option<Tree>) {
    Behind(stock).Some? && Behind(stock).value.File?
  }

  /** Whether a contribution can be laid over what is there: a plain directory needs a
      directory there or nothing, none can lie below a stock file, and where nothing is
      there the module must have a directory to borrow the metadata from. */
  predicate Mountable(stock: Option<Tree>, node: MountNode)
    decreases node, 1
  {
    FileTypeFor(node, Magic).Some?
    && (IsDirectory(node) ==>
          (Behind(stock).None? ==> ModulePathFor(node, Magic).Some?) && EntriesMountable(stock, node))
  }

  predicate EntriesMountable(stock: Option<Tree>, node: MountNode)
    decreases node, 0
  {
    && (IsFile(stock) ==> ReplaceFor(node, Magic))
    && forall n :: n in node.children && Selected(node, n) ==>
         Mountable(Entry(EntriesOf(stock), n), node.children[n]) && (IsFile(stock) ==> !IsDirectory(node.children[n]))
  }

  predicate ChildMountable(stock: Option<Tree>, node: MountNode, n: string) {
    && n in node.children
    && Mountable(Entry(EntriesOf(stock), n), node.children[n]) && (IsFile(stock) ==> !IsDirectory(node.children[n]))
  }

  lemma EachMountable(stock: Option<Tree>, node: MountNode)
    ensures EntriesMountable(stock, node) <==>
            && (IsFile(stock) ==> ReplaceFor(node, Magic))
            && forall n :: Selected(node, n) ==> ChildMountable(stock, node, n)
  {
  }

  // --- Where mounts are made ----------------------------------------------

  /** What can be mounted onto what is there: a file onto a file, a directory onto a
      directory; and a removal has nothing to do where there is nothing. */
  predicate Fits(stock: Option<Tree>, node: MountNode) {
    || (FileTypeFor(node, Magic) == Some(RegularFile) && stock.Some? && stock.value.File?)
    || (FileTypeFor(node, Magic) == Some(Directory) && stock.Some? && stock.value.Dir?)
    || (FileTypeFor(node, Magic) == Some(Whiteout) && stock.None?)
  }

  /** Whether a directory is rebuilt as a skeleton: it is replaced and the module has
      it, or some selected child does not fit what is there. */
  ghost predicate Skeletal(stock: Option<Tree>, node: MountNode) {
    && IsDirectory(node)
    && ((ReplaceFor(node, Magic) && ModulePathFor(node, Magic).Some?)
        || exists n :: Selected(node, n) && !Fits(Entry(EntriesOf(stock), n), node.children[n]))
  }

  /** Whether executing a node on what is there makes a mount at a path below it. */
  ghost predicate Mounts(stock: Option<Tree>, node: MountNode, path: Path)
    decreases path
  {
    if FileTypeFor(node, Magic) == Some(RegularFile) || Skeletal(stock, node) then path == []
    else IsDirectory(node) && MountsInside(stock, node, path)
  }

  ghost predicate MountsInside(stock: Option<Tree>, node: MountNode, path: Path)
    decreases path, 0
  {
    path != [] && Selected(node, path[0])
    && Mounts(Entry(EntriesOf(stock), path[0]), node.children[path[0]], path[1..])
  }

  function SelectedAt(node: MountNode, path: Path): Option<MountNode>
    decreases path
  {
    if path == [] then Some(node)
    else if Selected(node, path[0]) then SelectedAt(node.children[path[0]], path[1..]) else None
  }

  ghost predicate KeptInPlace(stock: Option<Tree>, root: MountNode, path: Path) {
    SelectedAt(root, path).Some? && IsDirectory(SelectedAt(root, path).value)
    && !Skeletal(Get(stock, path), SelectedAt(root, path).value)
  }

  /** Where a run mounts something: a regular file or a skeleton that only directories
      kept in place lead to. */
  ghost predicate MountPlace(stock: Option<Tree>, root: MountNode, path: Path) {
    && SelectedAt(root, path).Some?
    && (FileTypeFor(SelectedAt(root, path).value, Magic) == Some(RegularFile)
        || Skeletal(Get(stock, path), SelectedAt(root, path).value))
    && forall k :: 0 <= k < |path| ==> KeptInPlace(stock, root, path[..k])
  }

  lemma {:induction false} MountsAtPlaces(stock: Option<Tree>, root: MountNode, path: Path)
    requires IsDirectory(root) ==> stock.Some? && stock.value.Dir?
    ensures Mounts(stock, root, path) <==> MountPlace(stock, root, path)
    decreases path
  {
    if path == [] {
      assert Get(stock, []) == stock;
    } else if Selected(root, path[0]) && IsDirectory(root) && !Skeletal(stock, root) {
      var n, rest := path[0], path[1..];
      var inner, child := Entry(EntriesOf(stock), n), root.children[n];
      assert Fits(inner, child);
      MountsAtPlaces(inner, child, rest);
      forall k | 0 <= k <= |rest|
        ensures SelectedAt(root, path[..k+1]) == SelectedAt(child, rest[..k])
        ensures Get(stock, path[..k+1]) == Get(inner, rest[..k])
      {
        assert path[..k+1][0] == n && path[..k+1][1..] == rest[..k];
      }
      assert path[..|rest|+1] == path && rest[..|rest|] == rest;
      assert path[..0] == [] && KeptInPlace(stock, root, []);
      if MountPlace(inner, child, rest) {
        forall k | 0 <= k < |path| ensures KeptInPlace(stock, root, path[..k]) {
          if k > 0 { assert KeptInPlace(inner, child, rest[..k-1]); }
        }
      }
      if MountPlace(stock, root, path) {
        forall k | 0 <= k < |rest| ensures KeptInPlace(inner, child, rest[..k]) {
          assert KeptInPlace(stock, root, path[..k+1]);
        }
      }
    } else {
      assert path[..0] == [];
      assert MountPlace(stock, root, path) ==> KeptInPlace(stock, root, path[..0]);
    }
  }

  // --- The merged tree, path by path ---------------------------------------

  datatype Seen = Nothing | SeenFile(origin: Path) | SeenLink(origin: Path) | SeenDir

  function See(t: Option<Tree>): Seen {
    match t
    case None => Nothing
    case Some(File(o)) => SeenFile(o)
    case Some(Link(o, _)) => SeenLink(o)
    case Some(Dir(_)) => SeenDir
  }

  /** What is to be seen at a path below a node: what the deepest contribution on
      the way says, and the stock entry where there is none. */
  function SeenAt(stock: Option<Tree>, node: MountNode, path: Path): Seen
    decreases path
  {
    match FileTypeFor(node, Magic)
    case None => See(Get(stock, path))
    case Some(Whiteout) => Nothing
    case Some(RegularFile) => if path == [] then SeenFile(ModulePathFor(node, Magic).value) else Nothing
    case Some(Symlink) => if path == [] then SeenLink(ModulePathFor(node, Magic).value) else Nothing
    case Some(Directory) =>
      if path == [] then SeenDir
      else if Selected(node, path[0]) then SeenAt(Entry(EntriesOf(stock), path[0]), node.children[path[0]], path[1..])
      else if ReplaceFor(node, Magic) then Nothing
      else See(Get(Entry(EntriesOf(stock), path[0]), path[1..]))
  }

  /** The merge agrees with that at every path. */
  lemma {:induction false} MergeSeen(stock: Option<Tree>, node: MountNode, path: Path)
    ensures See(Get(Merge(stock, node), path)) == SeenAt(stock, node, path)
    decreases path
  {
    if path != [] && FileTypeFor(node, Magic) == Some(Directory) {
      var n := path[0];
      var merged := Merge(stock, node);
      MergedEntry(stock, node, n);
      if Selected(node, n) { MergeSeen(Entry(EntriesOf(stock), n), node.children[n], path[1..]); }
    }
  }

  /** A contributed file is seen at its own path, whatever stock has there, as long as it
      wins there and only directories are contributed on the way. */
  lemma {:induction false} ContributionIsSeen(stock: Option<Tree>, root: MountNode, path: Path)
    requires NodeAt(root, path).Some? && SourceFor(NodeAt(root, path).value, Magic).Some?
    requires SourceFor(NodeAt(root, path).value, Magic).value.fileType == RegularFile
    requires forall k :: 0 <= k < |path| && NodeAt(root, path[..k]).Some? ==>
               SourceFor(NodeAt(root, path[..k]).value, Magic).Some? ==>
               SourceFor(NodeAt(root, path[..k]).value, Magic).value.fileType == Directory
    ensures SeenAt(stock, root, path) == SeenFile(SourceFor(NodeAt(root, path).value, Magic).value.sourcePath)
    decreases path
  {
    if path != [] {
      var n, rest := path[0], path[1..];
      var child, s := root.children[n], SourceFor(NodeAt(root, path).value, Magic).value;
      assert path[..0] == [] && NodeAt(root, []) == Some(root);
      assert Occurs(child, rest, s);
      BackendOccurs(child, Magic);
      forall k | 0 <= k < |rest| ensures NodeAt(root, path[..k+1]) == NodeAt(child, rest[..k]) {
        assert path[..k+1][0] == n && path[..k+1][1..] == rest[..k];
      }
      ContributionIsSeen(Entry(EntriesOf(stock), n), child, rest);
    }
  }

  /** No directory that keeps stock entries meets one of those. */
  predicate KeepsNoStock(stock: Option<Tree>, node: MountNode)
    decreases node
  {
    FileTypeFor(node, Magic) == Some(Directory) ==>
      && (forall n :: n in EntriesOf(stock) ==> Selected(node, n) || ReplaceFor(node, Magic))
      && forall n :: n in node.children && Selected(node, n) ==>
           KeepsNoStock(Entry(EntriesOf(stock), n), node.children[n])
  }

  predicate NameKeepsNoStock(stock: Option<Tree>, node: MountNode, n: string) {
    if Selected(node, n) then KeepsNoStock(Entry(EntriesOf(stock), n), node.children[n])
    else n in EntriesOf(stock) ==> ReplaceFor(node, Magic)
  }

  lemma NameOfKeptStock(stock: Option<Tree>, node: MountNode) returns (n: string)
    requires FileTypeFor(node, Magic) == Some(Directory) && !KeepsNoStock(stock, node)
    ensures !NameKeepsNoStock(stock, node, n)
  {
    if n' :| n' in EntriesOf(stock) && !Selected(node, n') && !ReplaceFor(node, Magic) {
      n := n';
    } else {
      n :| n in node.children && Selected(node, n) && !KeepsNoStock(Entry(EntriesOf(stock), n), node.children[n]);
    }
  }

  /** A `.replace` reaches one level only: a contribution hides all of the stock
      tree exactly when every directory below it that meets stock entries of
      its own replaces them or names them all. */
  lemma {:induction false} ReplaceIsShallow(stock: Option<Tree>, node: MountNode)
    requires HasBackend(node, Magic)
    ensures Merge(stock, node) == Merge(None, node) <==> KeepsNoStock(stock, node)
    decreases node
  {
    if FileTypeFor(node, Magic) == Some(Directory) {
      var a, b := Merge(stock, node).value.entries, Merge(None, node).value.entries;
      forall n | n in node.children && Selected(node, n)
        ensures Outcome(stock, node, n) == Outcome(None, node, n) <==>
                  KeepsNoStock(Entry(EntriesOf(stock), n), node.children[n])
      {
        ReplaceIsShallow(Entry(EntriesOf(stock), n), node.children[n]);
      }
      forall n ensures Entry(a, n) == Entry(b, n) <==> NameKeepsNoStock(stock, node, n) {
        MergedEntry(stock, node, n);
        MergedEntry(None, node, n);
      }
      if KeepsNoStock(stock, node) {
        assert forall n :: NameKeepsNoStock(stock, node, n);
        SameEntries(a, b);
      } else {
        var n := NameOfKeptStock(stock, node);
        assert Entry(a, n) != Entry(b, n);
      }
    }
  }

  lemma MergedEntry(stock: Option<Tree>, node: MountNode, n: string)
    requires FileTypeFor(node, Magic) == Some(Directory)
    ensures Entry(Merge(stock, node).value.entries, n) == Outcome(stock, node, n)
  {
  }

  /** A stock file in a plain contributed directory below a replaced one is visible
      again, unless something contributed stands on its name. */
  lemma StockBelowReplaceSurvives(stock: Option<Tree>, node: MountNode, dir: string, name: string)
    requires FileTypeFor(node, Magic) == Some(Directory) && Selected(node, dir)
    requires FileTypeFor(node.children[dir], Magic) == Some(Directory)
    ensures SeenAt(stock, node, [dir, name]) == See(Through(stock, [dir, name])) || Selected(node.children[dir], name)
            || ReplaceFor(node.children[dir], Magic)
  {
    var inner := Entry(EntriesOf(stock), dir);
    assert [dir, name][1..] == [name] && [name][1..] == [];
    assert Through(stock, [dir, name]) == Through(inner, [name]) == Through(Entry(EntriesOf(inner), name), []);
    assert SeenAt(stock, node, [dir, name]) == SeenAt(inner, node.children[dir], [name]);
  }

  /** A node with a single magic contribution. */
  function MagicNode(children: map<string, MountNode>, fileType: NodeFileType, replace: bool): (node: MountNode)
    ensures HasBackend(node, Magic) && FileTypeFor(node, Magic) == Some(fileType)
    ensures ReplaceFor(node, Magic) <==> replace
  {
    MountNode(children, [MountSource("m", [], ["m"], fileType, replace, Magic)], [])
  }

  /** A replaced directory with a plain one in it, whose stock file stays visible. */
  lemma ReplacedButVisible() returns (stock: Tree, node: MountNode)
    ensures IsDirectory(node) && ReplaceFor(node, Magic)
    ensures Get(Some(stock), ["dir", "file"]) == Some(File(["stock"]))
    ensures SeenAt(Some(stock), node, ["dir", "file"]) == SeenFile(["stock"])
    ensures Merge(Some(stock), node) != Merge(None, node)
  {
    var inner := MagicNode(map[], Directory, false);
    node := MagicNode(map["dir" := inner], Directory, true);
    var dir := Dir(map["file" := File(["stock"])]);
    stock := Dir(map["dir" := dir]);
    assert ["dir", "file"][1..] == ["file"] && ["file"][1..] == [];
    assert Get(Some(dir), ["file"]) == Get(Some(File(["stock"])), []);
    assert Get(Some(stock), ["dir", "file"]) == Get(Some(dir), ["file"]);
    assert Selected(node, "dir") && !Selected(inner, "file");
    assert SeenAt(Some(dir), inner, ["file"]) == See(Get(Some(File(["stock"])), []));
    ReplaceIsShallow(Some(stock), node);
    assert "file" in EntriesOf(Some(dir)) && !KeepsNoStock(Some(dir), inner);
    assert Entry(EntriesOf(Some(stock)), "dir") == Some(dir);
  }

  /** A file in a directory that no module declares, over a stock file of its name. */
  lemma DirectoryOverFile() returns (stock: Tree, root: MountNode)
    ensures stock.Dir? && root.sources == [] && HasBackend(root, Magic)
    ensures !Mountable(Some(stock), root)
  {
    var b := MagicNode(map[], RegularFile, false);
    var a := MountNode(map["b" := b], [], []);
    root := MountNode(map["a" := a], [], []);
    stock := Dir(map["a" := File(["stock"])]);
    assert ChildHasBackend(a, Magic) by { assert "b" in a.children && a.children["b"] == b; }
    assert Selected(root, "a") by { assert root.children["a"] == a; }
    assert IsDirectory(a) && !ReplaceFor(a, Magic);
    assert Entry(EntriesOf(Some(stock)), "a") == Some(File(["stock"])) && IsFile(Some(File(["stock"])));
    assert !Mountable(Some(File(["stock"])), a);
    assert !EntriesMountable(Some(stock), root);
    assert IsDirectory(root);
  }

  // --- A directory half done ----------------------------------------------

  /** The directory that starts as `start` once the names `done` have been handled. */
  function Part(start: map<string, Tree>, stock: Option<Tree>, node: MountNode, done: set<string>): map<string, Tree> {
    map n | n in start.Keys + done && (n in done ==> Outcome(stock, node, n).Some?)
      :: if n in done then Outcome(stock, node, n).value else start[n]
  }

  lemma PartStep(start: map<string, Tree>, stock: Option<Tree>, node: MountNode, done: set<string>, name: string)
    ensures Part(start, stock, node, done + {name}) ==
            With(Part(start, stock, node, done), name, Outcome(stock, node, name))
  {
    var more := Part(start, stock, node, done + {name});
    var with := With(Part(start, stock, node, done), name, Outcome(stock, node, name));
    hide Outcome;
    forall n ensures Entry(more, n) == Entry(with, n) {}
    SameEntries(more, with);
  }

  /** Staged from nothing, a directory is complete once every surviving stock name
      and every selected name is handled. */
  lemma StagedComplete(stock: Option<Tree>, node: MountNode, done: set<string>)
    requires FileTypeFor(node, Magic) == Some(Directory)
    requires forall n :: n in done ==> n in EntriesOf(stock) || n in node.children
    requires !ReplaceFor(node, Magic) ==> EntriesOf(stock).Keys <= done
    requires forall n :: n in node.children && Selected(node, n) ==> n in done
    ensures Merge(stock, node) == Some(Dir(Part(map[], stock, node, done)))
  {
    var whole, part := Merge(stock, node).value.entries, Part(map[], stock, node, done);
    forall n ensures Entry(whole, n) == Entry(part, n) {
      MergedEntry(stock, node, n);
    }
    SameEntries(whole, part);
  }

  /** Edited in place, a directory is complete once every selected name is handled. */
  lemma InPlaceComplete(stock: Option<Tree>, node: MountNode, done: set<string>)
    requires FileTypeFor(node, Magic) == Some(Directory) && !ReplaceFor(node, Magic)
    requires forall n :: n in done ==> n in EntriesOf(stock) || n in node.children
    requires forall n :: n in node.children && Selected(node, n) ==> n in done
    ensures Merge(stock, node) == Some(Dir(Part(EntriesOf(stock), stock, node, done)))
  {
    var whole, part := Merge(stock, node).value.entries, Part(EntriesOf(stock), stock, node, done);
    forall n ensures Entry(whole, n) == Entry(part, n) {
      MergedEntry(stock, node, n);
    }
    SameEntries(whole, part);
  }

  // --- The namespace ------------------------------------------------------

  /** Where a mount was made: on the visible tree, or in the private staging tmpfs. */
  datatype Target = Real(path: Path) | Staging(path: Path)

  datatype Mount = Mount(path: Path, tree: Tree)

  /** What shows through the mounts made on a tree, the last one on top. */
  function Visible(stock: Option<Tree>, mounts: seq<Mount>): Option<Tree> {
    if mounts == [] then stock
    else
      var top := mounts[|mounts|-1];
      Put(Visible(stock, mounts[..|mounts|-1]), top.path, Some(top.tree))
  }

  /** A state of the run. */
  datatype Moment = Moment(
    view: Option<Tree>, staging: Option<Tree>, mounts: seq<Mount>, tried: set<Target>, executed: multiset<Path>)

  // --- What one execution may do ------------------------------------------

  /** Every mount of the new part is at or below `path`, and none is above another. */
  predicate MountsBelow(was: seq<Mount>, now: seq<Mount>, path: Path) {
    && was <= now
    && (forall i :: |was| <= i < |now| ==> path <= now[i].path)
    && Antichain(now[|was|..])
  }

  predicate Antichain(mounts: seq<Mount>) {
    forall i, j :: 0 <= i < j < |mounts| ==> !Comparable(mounts[i].path, mounts[j].path)
  }

  predicate NewMount(was: seq<Mount>, now: seq<Mount>, q: Path) {
    exists i :: |was| <= i < |now| && now[i].path == q
  }

  /** The new mounts are exactly where executing the node makes one. */
  ghost predicate MountedWhere(was: seq<Mount>, now: seq<Mount>, stock: Option<Tree>, node: MountNode, path: Path) {
    forall q :: NewMount(was, now, q) <==> path <= q && Mounts(stock, node, q[|path|..])
  }

  ghost predicate ExecutedBelow(was: multiset<Path>, now: multiset<Path>, path: Path) {
    && (forall q :: path <= q ==> now[q] <= 1)
    && (forall q :: !(path <= q) ==> now[q] == was[q])
  }

  /** What holds of every execution of the node at `path`, failed or not. */
  ghost predicate Frame(was: Moment, now: Moment, path: Path, hasTmpfs: bool) {
    && MountsBelow(was.mounts, now.mounts, path)
    && ExecutedBelow(was.executed, now.executed, path)
    && (hasTmpfs ==> now.mounts == was.mounts && now.view == was.view)
  }

  ghost predicate FreeKept(was: Option<Tree>, now: Option<Tree>, path: Path) {
    forall q :: !Comparable(path, q) && Free(was, q) ==> Free(now, q)
  }

  /** What a successful execution leaves: the merged tree, in staging or in view. */
  ghost predicate Ran(was: Moment, now: Moment, node: MountNode, path: Path, hasTmpfs: bool) {
    && Frame(was, now, path, hasTmpfs) && now.tried == was.tried
    && (if hasTmpfs then now.staging == Put(was.staging, path, Merge(Through(was.view, path), node))
        else
          && now.view == Put(was.view, path, Merge(Through(was.view, path), node))
          && FreeKept(was.staging, now.staging, path)
          && MountedWhere(was.mounts, now.mounts, Through(was.view, path), node, path))
  }

  /** Whether there is a directory or file to take the metadata of a skeleton from. */
  predicate HasModel(view: Option<Tree>, node: MountNode, path: Path) {
    !UnderFile(view, path) && (Behind(Through(view, path)).None? ==> ModulePathFor(node, Magic).Some?)
  }

  /** Where the node at `path` may be executed. */
  ghost predicate Ready(at: Moment, node: MountNode, path: Path, hasTmpfs: bool) {
    && (if hasTmpfs then ParentIsDir(at.staging, path) && Get(at.staging, path) == None
        else ParentIsDir(at.view, path) && Free(at.staging, path) && !Needs(Through(at.view, path), node))
  }

  /** Whether nothing stands in the way of the node at `path`. */
  ghost predicate CanRun(at: Moment, node: MountNode, path: Path) {
    Mountable(Through(at.view, path), node) && (IsDirectory(node) ==> !UnderFile(at.view, path))
  }

  ghost predicate Unexecuted(executed: multiset<Path>, path: Path) {
    forall q :: path <= q ==> executed[q] == 0
  }

  /** The node at `path` counts as executed, nothing below it does. */
  ghost predicate Entered(executed: multiset<Path>, path: Path) {
    executed[path] == 1 && forall q :: path <= q && q != path ==> executed[q] == 0
  }

  // --- A directory whose names `done` have been handled --------------------

  predicate In(path: Path, done: set<string>, q: Path) {
    path <= q && |q| > |path| && q[|path|] in done
  }

  lemma InOne(path: Path, n: string, q: Path)
    ensures path + [n] <= q <==> In(path, {n}, q)
  {
    if path <= q && |q| > |path| { assert q[..|path|+1] == path + [q[|path|]]; }
    if path + [n] <= q {
      assert path == (path + [n])[..|path|] == q[..|path|];
      assert q[|path|] == (path + [n])[|path|];
    }
  }

  lemma Apart(path: Path, done: set<string>, n: string, p: Path, q: Path)
    requires In(path, done, p) && In(path, {n}, q) && n !in done
    ensures !Comparable(p, q)
  {
  }

  ghost predicate ExecutedDone(was: multiset<Path>, now: multiset<Path>, path: Path, done: set<string>) {
    && (forall q :: path <= q ==> now[q] <= 1)
    && (forall q :: !(path <= q) ==> now[q] == was[q])
    && (forall q :: path <= q && q != path && !In(path, done, q) ==> now[q] == 0)
  }

  predicate MountsDone(was: seq<Mount>, now: seq<Mount>, path: Path, done: set<string>) {
    && was <= now
    && (forall i :: |was| <= i < |now| ==> In(path, done, now[i].path))
    && Antichain(now[|was|..])
  }

  /** The new mounts are exactly those that the handled names ask for. */
  ghost predicate MountedDone(was: seq<Mount>, now: seq<Mount>, stock: Option<Tree>, node: MountNode, path: Path,
                              done: set<string>)
  {
    forall q :: NewMount(was, now, q) <==> In(path, done, q) && MountsInside(stock, node, q[|path|..])
  }

  lemma MountedStep(was: seq<Mount>, at: seq<Mount>, now: seq<Mount>, stock: Option<Tree>, node: MountNode, path: Path,
                    done: set<string>, n: string)
    requires was <= at <= now && n !in done && Selected(node, n) && MountedDone(was, at, stock, node, path, done)
    requires MountedWhere(at, now, Entry(EntriesOf(stock), n), node.children[n], path + [n])
    ensures MountedDone(was, now, stock, node, path, done + {n})
  {
    forall q ensures NewMount(was, now, q) <==> In(path, done + {n}, q) && MountsInside(stock, node, q[|path|..]) {
      NewInParts(was, at, now, q);
      InOne(path, n, q);
      assert In(path, done + {n}, q) <==> In(path, done, q) || In(path, {n}, q);
      assert NewMount(at, now, q) <==> In(path, {n}, q) && MountsInside(stock, node, q[|path|..]) by {
        if path + [n] <= q {
          assert q[|path|..][0] == n && q[|path|..][1..] == q[|path + [n]|..];
        }
      }
    }
  }

  lemma NewInParts(was: seq<Mount>, at: seq<Mount>, now: seq<Mount>, q: Path)
    requires was <= at <= now
    ensures NewMount(was, now, q) <==> NewMount(was, at, q) || NewMount(at, now, q)
  {
    if NewMount(was, at, q) {
      var i :| |was| <= i < |at| && at[i].path == q;
      assert now[i].path == q;
    }
    if NewMount(was, now, q) {
      var i :| |was| <= i < |now| && now[i].path == q;
      if i < |at| { assert at[i].path == q; }
    }
  }

  lemma OneMounted(was: seq<Mount>, stock: Option<Tree>, node: MountNode, path: Path, tree: Tree)
    requires FileTypeFor(node, Magic) == Some(RegularFile) || Skeletal(stock, node)
    ensures MountedWhere(was, was + [Mount(path, tree)], stock, node, path)
  {
    var now := was + [Mount(path, tree)];
    assert now[|was|].path == path;
    forall q ensures NewMount(was, now, q) <==> q == path {}
    forall q | path <= q && q[|path|..] == [] ensures q == path {
      assert q == path + q[|path|..];
    }
  }

  lemma AllMounted(was: seq<Mount>, now: seq<Mount>, stock: Option<Tree>, node: MountNode, path: Path,
                   done: set<string>)
    requires IsDirectory(node) && !Skeletal(stock, node) && MountedDone(was, now, stock, node, path, done)
    requires forall n :: Selected(node, n) ==> n in done
    ensures MountedWhere(was, now, stock, node, path)
  {
    forall q ensures NewMount(was, now, q) <==> path <= q && Mounts(stock, node, q[|path|..]) {}
  }

  ghost predicate FreeDone(was: Option<Tree>, now: Option<Tree>, path: Path, done: set<string>) {
    && FreeKept(was, now, path)
    && forall n :: n !in done ==> Free(now, path + [n])
  }

  lemma ExecutedStep(was: multiset<Path>, at: multiset<Path>, now: multiset<Path>, path: Path, done: set<string>,
                     n: string)
    requires ExecutedDone(was, at, path, done) && n !in done
    requires ExecutedBelow(at, now, path + [n])
    ensures ExecutedDone(was, now, path, done + {n})
    ensures forall q :: path + [n] <= q ==> at[q] == 0
  {
    forall q ensures path + [n] <= q <==> In(path, {n}, q) { InOne(path, n, q); }
  }

  lemma MountsStep(was: seq<Mount>, at: seq<Mount>, now: seq<Mount>, path: Path, done: set<string>, n: string)
    requires MountsDone(was, at, path, done) && n !in done
    requires MountsBelow(at, now, path + [n])
    ensures MountsDone(was, now, path, done + {n})
  {
    forall i | |was| <= i < |now| ensures In(path, done + {n}, now[i].path) {
      InOne(path, n, now[i].path);
      if i < |at| { assert now[i] == at[i]; }
    }
    forall i, j | 0 <= i < j < |now| - |was|
      ensures !Comparable(now[|was|..][i].path, now[|was|..][j].path)
    {
      var a, b := |was| + i, |was| + j;
      if b < |at| {
        assert now[a] == at[a] == at[|was|..][i] && now[b] == at[b] == at[|was|..][j];
      } else if a >= |at| {
        assert now[a] == now[|at|..][a - |at|] && now[b] == now[|at|..][b - |at|];
      } else {
        assert now[a] == at[a];
        InOne(path, n, now[b].path);
        Apart(path, done, n, now[a].path, now[b].path);
      }
    }
  }

  lemma FreeStep(was: Option<Tree>, at: Option<Tree>, now: Option<Tree>, path: Path, done: set<string>, n: string)
    requires FreeDone(was, at, path, done) && n !in done
    requires FreeKept(at, now, path + [n])
    ensures FreeDone(was, now, path, done + {n})
  {
    forall q | !Comparable(path, q) && Free(was, q) ensures Free(now, q) {
      if path + [n] <= q { InOne(path, n, q); }
      assert |q| <= |path| ==> (path + [n])[..|q|] == path[..|q|];
      assert |q| == |path| + 1 ==> (path + [n])[..|path|] == path;
    }
    forall m | m !in done + {n} ensures Free(now, path + [m]) {
      InOne(path, m, path + [m]);
      InOne(path, n, path + [n]);
      Apart(path, {m}, n, path + [m], path + [n]);
    }
  }

  /** A directory at `path` being rebuilt from `start`, with the names `done` handled. */
  ghost predicate Building(was: Moment, now: Moment, node: MountNode, path: Path, hasTmpfs: bool,
                           start: map<string, Tree>, done: set<string>)
  {
    && now.tried == was.tried
    && ExecutedDone(was.executed, now.executed, path, done)
    && (if hasTmpfs then
          && now.mounts == was.mounts && now.view == was.view
          && now.staging == Put(was.staging, path, Some(Dir(Part(start, Through(was.view, path), node, done))))
        else
          && MountsDone(was.mounts, now.mounts, path, done)
          && MountedDone(was.mounts, now.mounts, Through(was.view, path), node, path, done)
          && now.view == Put(was.view, path, Some(Dir(Part(start, Through(was.view, path), node, done))))
          && FreeDone(was.staging, now.staging, path, done))
  }

  /** Where a directory can be rebuilt: `start` is what is there to begin with. */
  ghost predicate Open(was: Moment, node: MountNode, path: Path, hasTmpfs: bool, start: map<string, Tree>) {
    && FileTypeFor(node, Magic) == Some(Directory)
    && (if hasTmpfs then ParentIsDir(was.staging, path) && start == map[]
        else
          && ParentIsDir(was.view, path) && Through(was.view, path) == Some(Dir(start)) && !ReplaceFor(node, Magic)
          && forall n :: n in node.children && Selected(node, n) ==> !Needs(Entry(start, n), node.children[n]))
  }

  lemma StartBuilding(was: Moment, node: MountNode, path: Path, hasTmpfs: bool, start: map<string, Tree>)
    requires Open(was, node, path, hasTmpfs, start) && Entered(was.executed, path)
    requires hasTmpfs ==> Get(was.staging, path) == Some(EMPTY_DIR)
    requires !hasTmpfs ==> Free(was.staging, path)
    ensures Building(was, was, node, path, hasTmpfs, start, {})
  {
    assert Part(start, Through(was.view, path), node, {}) == start;
    if hasTmpfs { PutGet(was.staging, path); } else {
      ThroughDirs(was.view, path);
      PutGet(was.view, path);
      forall n { FreeBelow(was.staging, path, n); }
    }
  }

  lemma ChildReady(was: Moment, now: Moment, node: MountNode, path: Path, hasTmpfs: bool, start: map<string, Tree>,
                   done: set<string>, n: string)
    requires Open(was, node, path, hasTmpfs, start) && Building(was, now, node, path, hasTmpfs, start, done)
    requires n !in done && Selected(node, n)
    ensures Ready(now, node.children[n], path + [n], hasTmpfs) && Unexecuted(now.executed, path + [n])
    ensures Through(now.view, path + [n]) == Entry(EntriesOf(Through(was.view, path)), n)
  {
    var part := Part(start, Through(was.view, path), node, done);
    forall q | path + [n] <= q ensures now.executed[q] == 0 { InOne(path, n, q); }
    if hasTmpfs {
      ThroughUnder(was.view, path, n);
      PutUnder(was.staging, path, part, n, None);
    } else {
      PutUnder(was.view, path, part, n, None);
      ThroughDirs(now.view, path + [n]);
    }
  }

  lemma ChildCanRun(was: Moment, now: Moment, node: MountNode, path: Path, hasTmpfs: bool, start: map<string, Tree>,
                    done: set<string>, n: string)
    requires Open(was, node, path, hasTmpfs, start) && Building(was, now, node, path, hasTmpfs, start, done)
    requires n !in done && Selected(node, n) && !UnderFile(was.view, path)
    ensures CanRun(now, node.children[n], path + [n]) <==> ChildMountable(Through(was.view, path), node, n)
  {
    ChildReady(was, now, node, path, hasTmpfs, start, done, n);
    if hasTmpfs {
      ThroughUnder(was.view, path, n);
    } else {
      var part := Part(start, Through(was.view, path), node, done);
      PutUnder(was.view, path, part, n, None);
      ThroughDirs(now.view, path + [n]);
    }
  }

  lemma ChildRan(was: Moment, at: Moment, now: Moment, node: MountNode, path: Path, hasTmpfs: bool,
                 start: map<string, Tree>, done: set<string>, n: string)
    requires Open(was, node, path, hasTmpfs, start) && Building(was, at, node, path, hasTmpfs, start, done)
    requires n !in done && Selected(node, n)
    requires Ran(at, now, node.children[n], path + [n], hasTmpfs)
    ensures Building(was, now, node, path, hasTmpfs, start, done + {n})
  {
    ChildReady(was, at, node, path, hasTmpfs, start, done, n);
    ExecutedStep(was.executed, at.executed, now.executed, path, done, n);
    var stock := Through(was.view, path);
    PartStep(start, stock, node, done, n);
    if hasTmpfs {
      PutUnder(was.staging, path, Part(start, stock, node, done), n, Outcome(stock, node, n));
    } else {
      MountsStep(was.mounts, at.mounts, now.mounts, path, done, n);
      MountedStep(was.mounts, at.mounts, now.mounts, stock, node, path, done, n);
      FreeStep(was.staging, at.staging, now.staging, path, done, n);
      PutUnder(was.view, path, Part(start, stock, node, done), n, Outcome(stock, node, n));
    }
  }

  lemma ChildFramed(was: Moment, at: Moment, now: Moment, node: MountNode, path: Path, hasTmpfs: bool,
                    start: map<string, Tree>, done: set<string>, n: string)
    requires Building(was, at, node, path, hasTmpfs, start, done) && n !in done
    requires Frame(at, now, path + [n], hasTmpfs)
    ensures Frame(was, now, path, hasTmpfs)
  {
    ExecutedStep(was.executed, at.executed, now.executed, path, done, n);
    if !hasTmpfs { MountsStep(was.mounts, at.mounts, now.mounts, path, done, n); }
  }

  lemma BuildingFramed(was: Moment, now: Moment, node: MountNode, path: Path, hasTmpfs: bool,
                       start: map<string, Tree>, done: set<string>)
    requires Building(was, now, node, path, hasTmpfs, start, done)
    ensures Frame(was, now, path, hasTmpfs)
  {
  }

  /** A stock entry no contribution names, mirrored into a skeleton or left alone. */
  lemma Untouched(was: Moment, at: Moment, now: Moment, node: MountNode, path: Path, hasTmpfs: bool,
                  start: map<string, Tree>, done: set<string>, n: string)
    requires Open(was, node, path, hasTmpfs, start) && Building(was, at, node, path, hasTmpfs, start, done)
    requires n !in done && !Selected(node, n) && !ReplaceFor(node, Magic) && n in EntriesOf(Through(was.view, path))
    requires now.mounts == at.mounts && now.view == at.view && now.tried == at.tried && now.executed == at.executed
    requires if hasTmpfs then now.staging == Put(at.staging, path + [n], Through(was.view, path + [n]))
             else now.staging == at.staging
    ensures Building(was, now, node, path, hasTmpfs, start, done + {n})
  {
    var stock := Through(was.view, path);
    PartStep(start, stock, node, done, n);
    if hasTmpfs {
      ThroughUnder(was.view, path, n);
      PutUnder(was.staging, path, Part(start, stock, node, done), n, Outcome(stock, node, n));
    } else {
      assert Part(start, stock, node, done + {n}) == Part(start, stock, node, done);
      forall q | In(path, {n}, q) ensures !MountsInside(stock, node, q[|path|..]) {}
    }
  }

  /** At most one mount at the node's own path. */
  lemma EntersFramed(was: Moment, now: Moment, path: Path, hasTmpfs: bool, tree: Tree)
    requires ExecutedBelow(was.executed, now.executed, path)
    requires now.mounts == was.mounts || (!hasTmpfs && now.mounts == was.mounts + [Mount(path, tree)])
    requires hasTmpfs ==> now.view == was.view
    ensures Frame(was, now, path, hasTmpfs)
  {
  }

  lemma OneMountFramed(was: Moment, now: Moment, path: Path, hasTmpfs: bool, tree: Tree)
    requires Entered(was.executed, path) && now.executed == was.executed
    requires now.mounts == was.mounts || (!hasTmpfs && now.mounts == was.mounts + [Mount(path, tree)])
    requires hasTmpfs ==> now.view == was.view
    ensures Frame(was, now, path, hasTmpfs)
  {
    EntersFramed(was, now, path, hasTmpfs, tree);
  }

  lemma UndoneOrNot(was: seq<Mount>, at: seq<Mount>, now: seq<Mount>, path: Path, tree: Tree)
    requires at == was || at == was + [Mount(path, tree)]
    requires now == at || (at == was + [Mount(path, tree)] && now == at[..|at|-1])
    ensures now == was || now == was + [Mount(path, tree)]
  {
  }

  /** What is mounted was placed, what was placed was passed on or its undo tried,
      and what was passed on is owned. */
  ghost predicate Accounted(mounts: seq<Mount>, placed: set<Target>, handed: set<Target>, tried: set<Target>,
                            owned: set<Path>)
  {
    && (forall i :: 0 <= i < |mounts| ==> Real(mounts[i].path) in placed)
    && placed <= handed + tried && handed <= placed
    && (forall t :: t in handed ==> t.path in owned)
    && (forall q :: q in owned ==> Real(q) in handed || Staging(q) in handed)
  }

  lemma AccountedHanded(was: seq<Mount>, now: seq<Mount>, placed: set<Target>, handed: set<Target>, tried: set<Target>,
                        owned: set<Path>, t: Target, tree: Tree)
    requires Accounted(was, placed, handed, tried, owned)
    requires now == was || (t.Real? && now == was + [Mount(t.path, tree)])
    ensures Accounted(now, placed + {t}, handed + {t}, tried, owned + {t.path})
  {
  }

  lemma AccountedTried(was: seq<Mount>, now: seq<Mount>, placed: set<Target>, handed: set<Target>, tried: set<Target>,
                       owned: set<Path>, t: Target, tree: Tree)
    requires Accounted(was, placed, handed, tried, owned)
    requires now == was || (t.Real? && now == was + [Mount(t.path, tree)])
    ensures Accounted(now, placed + {t}, handed, tried + {t}, owned)
  {
  }

  class Namespace {
    /** The visible tree without the mounts of this run, and those mounts. */
    const stock: Tree
    var mounts: seq<Mount>
    var staging: Option<Tree>
    /** Every bind and move that took effect, those passed to `on_mount`, those
        whose undo was attempted, and the final paths recorded as owned. The
        self-bind of a skeleton is not one: it never reaches a real path. */
    var placed: set<Target>
    var handed: set<Target>
    var tried: set<Target>
    var owned: set<Path>
    /** How often each node was executed. */
    var executed: multiset<Path>
    /** Whether system calls succeed wherever they can. */
    const works: bool

    constructor (stock: Tree, works: bool)
      ensures this.stock == stock && this.works == works && mounts == [] && staging == None
      ensures placed == {} && handed == {} && tried == {} && owned == {} && executed == multiset{}
      ensures Valid()
    {
      this.stock, this.works := stock, works;
      mounts, staging := [], None;
      placed, handed, tried, owned := {}, {}, {}, {};
      executed := multiset{};
    }

    function View(): Option<Tree>
      reads this`mounts
    {
      Visible(Some(stock), mounts)
    }

    ghost function Now(): Moment
      reads this
    {
      Moment(View(), staging, mounts, tried, executed)
    }

    /** Nothing placed is ever out of sight of the caller. */
    ghost predicate Valid()
      reads this`mounts, this`placed, this`handed, this`tried, this`owned
    {
      Accounted(mounts, placed, handed, tried, owned)
    }

    // --- System calls, each of which may fail -----------------------------

    method MountOver(path: Path, tree: Tree) returns (ok: bool)
      modifies this`mounts, this`placed
      ensures ok ==> mounts == old(mounts) + [Mount(path, tree)] && placed == old(placed) + {Real(path)}
      ensures ok ==> View() == Put(old(View()), path, Some(tree))
      ensures !ok ==> mounts == old(mounts) && placed == old(placed)
      ensures works && Get(View(), path).Some? && (Get(View(), path).value.Dir? <==> tree.Dir?) ==> ok
    {
      ok := *;
      var under := Get(View(), path);
      ok := (ok || works) && under.Some? && (under.value.Dir? <==> tree.Dir?);
      if ok {
        mounts := mounts + [Mount(path, tree)];
        assert mounts[..|mounts|-1] == old(mounts);
        placed := placed + {Real(path)};
      }
    }

    method Stage(path: Path, tree: Tree) returns (ok: bool)
      requires ParentIsDir(staging, path)
      modifies this`staging
      ensures staging == if ok then Put(old(staging), path, Some(tree)) else old(staging)
      ensures works ==> ok
    {
      ok := *;
      ok := ok || works;
      if ok { staging := Put(staging, path, Some(tree)); }
    }

    /** Bind a file over one just created in staging. */
    method StageBind(path: Path, origin: Path) returns (ok: bool)
      requires ParentIsDir(staging, path)
      modifies this`staging, this`placed
      ensures ok ==> staging == Put(old(staging), path, Some(File(origin))) && placed == old(placed) + {Staging(path)}
      ensures !ok ==> placed == old(placed)
      ensures works ==> ok
    {
      GetPut(staging, path, Some(File([])));
      PutPut(staging, path, Some(File([])), Some(File(origin)));
      ok := Stage(path, File([]));
      if !ok { return; }
      ok := Stage(path, File(origin));
      if ok { placed := placed + {Staging(path)}; }
    }

    /** Bind a native mount over a directory just created in staging. */
    method StageClone(path: Path, tree: Tree) returns (ok: bool)
      requires ParentIsDir(staging, path)
      modifies this`staging, this`placed
      ensures ok ==> staging == Put(old(staging), path, Some(tree)) && placed == old(placed) + {Staging(path)}
      ensures !ok ==> staging == old(staging) && placed == old(placed)
      ensures works ==> ok
    {
      ok := Stage(path, tree);
      if ok { placed := placed + {Staging(path)}; }
    }

    /** A remount to read-only; what is visible stays the same. */
    method Remount() returns (ok: bool)
      ensures works ==> ok
    {
      ok := *;
      ok := ok || works;
    }

    /** Try to unmount what was last mounted on `target`. */
    method Undo(target: Target)
      modifies this`mounts, this`tried
      ensures tried == old(tried) + {target}
      ensures mounts == old(mounts)
              || (old(mounts) != [] && target == Real(old(mounts)[|old(mounts)|-1].path)
                  && mounts == old(mounts)[..|old(mounts)|-1])
    {
      tried := tried + {target};
      var works: bool := *;
      if works && mounts != [] && target == Real(mounts[|mounts|-1].path) {
        mounts := mounts[..|mounts|-1];
      }
    }

    /** `record_mount_target`, and the same two steps for a mirrored file. */
    method Record(target: Target)
      requires target in placed
      modifies this`handed, this`owned
      ensures handed == old(handed) + {target} && owned == old(owned) + {target.path}
    {
      owned := owned + {target.path};
      handed := handed + {target};
    }

    // --- The executor -----------------------------------------------------

    method MountSymlink(node: MountNode, path: Path) returns (ok: bool)
      requires Valid() && Ready(Now(), node, path, true) && Entered(executed, path)
      requires FileTypeFor(node, Magic) == Some(Symlink)
      modifies this`staging
      ensures Valid() && Frame(old(Now()), Now(), path, true)
      ensures ok ==> Ran(old(Now()), Now(), node, path, true)
      ensures works ==> ok
    {
      ok := Stage(path, Link(ModulePathFor(node, Magic).value, None));
    }

    /** Bind a module file where it belongs. */
    method BindFile(node: MountNode, path: Path, hasTmpfs: bool, origin: Path) returns (ok: bool)
      requires Valid() && Ready(Now(), node, path, hasTmpfs) && Entered(executed, path)
      requires FileTypeFor(node, Magic) == Some(RegularFile) && origin == ModulePathFor(node, Magic).value
      modifies this`mounts, this`staging, this`placed
      ensures Frame(old(Now()), Now(), path, hasTmpfs)
      ensures ok ==> Ran(old(Now()), Now(), node, path, hasTmpfs)
      ensures mounts == if ok && !hasTmpfs then old(mounts) + [Mount(path, File(origin))] else old(mounts)
      ensures placed == if ok then old(placed) + {if hasTmpfs then Staging(path) else Real(path)} else old(placed)
      ensures works ==> ok
    {
      ghost var was := Now();
      if !hasTmpfs { ThroughDirs(View(), path); }
      if hasTmpfs {
        ok := StageBind(path, origin);
      } else {
        ok := MountOver(path, File(origin));
      }
      OneMountFramed(was, Now(), path, hasTmpfs, File(origin));
      OneMounted(was.mounts, Through(was.view, path), node, path, File(origin));
    }

    /** Take back the bind just made, as far as the kernel lets it. */
    method UndoFile(path: Path, hasTmpfs: bool, origin: Path, ghost was: Moment)
      requires Entered(was.executed, path) && executed == was.executed
      requires hasTmpfs ==> mounts == was.mounts && View() == was.view
      requires !hasTmpfs ==> mounts == was.mounts + [Mount(path, File(origin))]
      modifies this`mounts, this`tried
      ensures tried == old(tried) + {if hasTmpfs then Staging(path) else Real(path)}
      ensures Frame(was, Now(), path, hasTmpfs)
      ensures mounts == was.mounts || (!hasTmpfs && mounts == was.mounts + [Mount(path, File(origin))])
    {
      ghost var at := mounts;
      Undo(if hasTmpfs then Staging(path) else Real(path));
      UndoneOrNot(was.mounts, at, mounts, path, File(origin));
      OneMountFramed(was, Now(), path, hasTmpfs, File(origin));
    }

    /** Bind a module file and make it read-only; where that fails, undo the bind. */
    method MountRegularFile(node: MountNode, path: Path, hasTmpfs: bool) returns (ok: bool)
      requires Valid() && Ready(Now(), node, path, hasTmpfs) && Entered(executed, path)
      requires FileTypeFor(node, Magic) == Some(RegularFile)
      modifies this`mounts, this`staging, this`placed, this`handed, this`tried, this`owned
      ensures Valid() && Frame(old(Now()), Now(), path, hasTmpfs)
      ensures ok ==> Ran(old(Now()), Now(), node, path, hasTmpfs)
      ensures works ==> ok
    {
      ghost var was := Now();
      var origin := ModulePathFor(node, Magic).value;
      var target := if hasTmpfs then Staging(path) else Real(path);
      ghost var placed0 := placed;
      hide Ready, Visible, Frame, Ran, Entered, FileTypeFor, Accounted;
      ok := BindFile(node, path, hasTmpfs, origin);
      if !ok { return; }
      ok := Remount();
      if ok {
        AccountedHanded(was.mounts, mounts, placed0, handed, tried, owned, target, File(origin));
        Record(target);
      } else {
        ghost var tried0 := tried;
        UndoFile(path, hasTmpfs, origin, was);
        AccountedTried(was.mounts, mounts, placed0, handed, tried0, owned, target, File(origin));
      }
    }

    /** Mirror one stock entry into staging. */
    method Mirror(path: Path, tree: Tree) returns (ok: bool)
      requires Valid() && Through(View(), path) == Some(tree)
      requires ParentIsDir(staging, path) && Get(staging, path) == None
      modifies this`staging, this`placed, this`handed, this`owned
      ensures Valid()
      ensures ok ==> staging == Put(old(staging), path, Some(tree))
      ensures works ==> ok
      decreases tree, 1
    {
      hide Accounted, Visible;
      match tree
      case File(origin) =>
        ghost var placed0 := placed;
        ok := StageBind(path, origin);
        if ok {
          AccountedHanded(mounts, mounts, placed0, handed, tried, owned, Staging(path), tree);
          Record(Staging(path));
        }
      case Link(_, _) =>
        ok := Stage(path, tree);
      case Dir(entries) =>
        GetPut(staging, path, Some(EMPTY_DIR));
        PutPut(staging, path, Some(EMPTY_DIR), Some(tree));
        ok := Stage(path, EMPTY_DIR);
        if !ok { return; }
        var isMountPoint: bool := *;
        if isMountPoint {
          // A native mount is carried over whole, with everything mounted below it.
          ghost var placed0 := placed;
          ok := StageClone(path, tree);
          if ok {
            AccountedHanded(mounts, mounts, placed0, handed, tried, owned, Staging(path), tree);
            Record(Staging(path));
          }
        } else {
          ok := MirrorEntries(path, entries);
        }
    }

    /** Mirror the entries of a stock directory one by one. */
    method MirrorEntries(path: Path, entries: map<string, Tree>) returns (ok: bool)
      requires Valid() && Through(View(), path) == Some(Dir(entries))
      requires ParentIsDir(staging, path) && Get(staging, path) == Some(EMPTY_DIR)
      modifies this`staging, this`placed, this`handed, this`owned
      ensures Valid()
      ensures ok ==> staging == Put(old(staging), path, Some(Dir(entries)))
      ensures works ==> ok
      decreases Dir(entries), 0
    {
      ghost var before := staging;
      hide Accounted, Visible;
      PutGet(before, path);
      var todo := entries.Keys;
      assert (map n | n in entries && n !in todo :: entries[n]) == map[];
      while todo != {}
        invariant todo <= entries.Keys && Valid()
        invariant staging == Put(before, path, Some(Dir(map n | n in entries && n !in todo :: entries[n])))
        decreases todo
      {
        var n :| n in todo;
        ghost var part := map m | m in entries && m !in todo :: entries[m];
        PutUnder(before, path, part, n, Some(entries[n]));
        ThroughUnder(View(), path, n);
        ok := Mirror(path + [n], entries[n]);
        if !ok { return; }
        todo := todo - {n};
        assert (map m | m in entries && m !in todo :: entries[m]) == With(part, n, Some(entries[n]));
      }
      assert (map n | n in entries && n !in todo :: entries[n]) == entries;
      ok := true;
    }

    /** `do_mount`: execute the node at `path`. */
    method DoMount(node: MountNode, path: Path, hasTmpfs: bool) returns (ok: bool)
      requires Valid() && Ready(Now(), node, path, hasTmpfs) && Unexecuted(executed, path)
      modifies this
      ensures Valid() && Frame(old(Now()), Now(), path, hasTmpfs)
      ensures ok ==> Ran(old(Now()), Now(), node, path, hasTmpfs)
      ensures ok ==> CanRun(old(Now()), node, path)
      ensures works && CanRun(old(Now()), node, path) ==> ok
      decreases node, 6
    {
      ghost var was := Now();
      executed := executed + multiset{path};
      ok := *;
      ok := ok || works;
      if !ok { return; }
      match FileTypeFor(node, Magic)
      case None =>
        ok := false;
      case Some(Symlink) =>
        ok := MountSymlink(node, path);
      case Some(RegularFile) =>
        ok := MountRegularFile(node, path, hasTmpfs);
      case Some(Directory) =>
        ok := MountDirectory(node, path, hasTmpfs);
      case Some(Whiteout) =>
        // Recorded only: the name is left out of the skeleton, or was never there.
        if hasTmpfs {
          PutGet(staging, path);
        } else {
          ThroughDirs(View(), path);
          PutGet(View(), path);
        }
    }

    /** Execute one child of a directory being rebuilt. */
    method MountChild(node: MountNode, path: Path, hasTmpfs: bool, n: string, ghost was: Moment,
                      ghost start: map<string, Tree>, ghost done: set<string>) returns (ok: bool)
      requires Valid() && Open(was, node, path, hasTmpfs, start)
               && Building(was, Now(), node, path, hasTmpfs, start, done)
      requires n !in done && Selected(node, n)
      modifies this
      ensures Valid() && Frame(was, Now(), path, hasTmpfs)
      ensures ok ==> Building(was, Now(), node, path, hasTmpfs, start, done + {n})
      ensures ok && !UnderFile(was.view, path) ==> ChildMountable(Through(was.view, path), node, n)
      ensures works && !UnderFile(was.view, path) && ChildMountable(Through(was.view, path), node, n) ==> ok
      decreases node, 0
    {
      ghost var at := Now();
      if !UnderFile(was.view, path) { ChildCanRun(was, at, node, path, hasTmpfs, start, done, n); }
      ChildReady(was, at, node, path, hasTmpfs, start, done, n);
      ok := DoMount(node.children[n], path + [n], hasTmpfs);
      ChildFramed(was, at, Now(), node, path, hasTmpfs, start, done, n);
      if ok { ChildRan(was, at, Now(), node, path, hasTmpfs, start, done, n); }
    }

    /** Handle one entry the visible directory already has. */
    method MountEntry(node: MountNode, path: Path, hasTmpfs: bool, n: string, entry: Tree, ghost was: Moment,
                      ghost start: map<string, Tree>, ghost done: set<string>) returns (ok: bool)
      requires Valid() && Open(was, node, path, hasTmpfs, start)
               && Building(was, Now(), node, path, hasTmpfs, start, done)
      requires !ReplaceFor(node, Magic) && n !in done
      requires Entry(EntriesOf(Through(was.view, path)), n) == Some(entry)
      modifies this
      ensures Valid() && Frame(was, Now(), path, hasTmpfs)
      ensures ok ==> Building(was, Now(), node, path, hasTmpfs, start, done + {n})
      ensures ok && !UnderFile(was.view, path) && Selected(node, n) ==> ChildMountable(Through(was.view, path), node, n)
      ensures works && !UnderFile(was.view, path) ==>
                (Selected(node, n) ==> ChildMountable(Through(was.view, path), node, n)) ==> ok
      decreases node, 1
    {
      if Selected(node, n) {
        ok := MountChild(node, path, hasTmpfs, n, was, start, done);
        return;
      }
      ghost var at := Now();
      BuildingFramed(was, at, node, path, hasTmpfs, start, done);
      ok := true;
      if hasTmpfs {
        ThroughUnder(was.view, path, n);
        PutUnder(was.staging, path, Part(start, Through(was.view, path), node, done), n, None);
        ok := Mirror(path + [n], entry);
      }
      if ok { Untouched(was, at, Now(), node, path, hasTmpfs, start, done, n); }
    }

    /** Handle the entries the visible directory already has. */
    method MountPath(node: MountNode, path: Path, hasTmpfs: bool, ghost was: Moment, ghost start: map<string, Tree>)
      returns (ok: bool, processed: set<string>, ghost done: set<string>)
      requires Valid() && Open(was, node, path, hasTmpfs, start)
               && Building(was, Now(), node, path, hasTmpfs, start, {})
      requires !ReplaceFor(node, Magic)
      modifies this
      ensures Valid() && Frame(was, Now(), path, hasTmpfs)
      ensures ok ==> Building(was, Now(), node, path, hasTmpfs, start, done)
      ensures ok ==> done == EntriesOf(Through(was.view, path)).Keys
      ensures ok ==> forall n :: n in processed <==> n in done && Selected(node, n)
      ensures ok ==> !IsFile(Through(was.view, path))
      ensures ok && !UnderFile(was.view, path) ==>
                forall n :: n in processed ==> Selected(node, n) && ChildMountable(Through(was.view, path), node, n)
      ensures works && !UnderFile(was.view, path) && Behind(Through(was.view, path)).Some? ==>
                EntriesMountable(Through(was.view, path), node) ==> ok
      decreases node, 2
    {
      hide Building, Frame, Open, Selected, ReplaceFor, Visible, Valid, Mountable;
      processed, done := {}, {};
      BuildingFramed(was, Now(), node, path, hasTmpfs, start, {});
      var here := Behind(Through(View(), path));
      ViewAtStart(was, Now(), node, path, hasTmpfs, start);
      EachMountable(Through(was.view, path), node);
      hide EntriesMountable, ChildMountable;
      ok := here.Some? && here.value.Dir?;
      if !ok { return; }
      var entries := here.value.entries;
      var todo := entries.Keys;
      while todo != {}
        invariant todo <= entries.Keys && done == entries.Keys - todo
        invariant Valid() && Building(was, Now(), node, path, hasTmpfs, start, done)
        invariant Frame(was, Now(), path, hasTmpfs)
        invariant forall n :: n in processed <==> n in done && Selected(node, n)
        invariant !UnderFile(was.view, path) ==>
                    forall n :: n in processed ==> Selected(node, n) && ChildMountable(Through(was.view, path), node, n)
        decreases todo
      {
        var n :| n in todo;
        ok := MountEntry(node, path, hasTmpfs, n, entries[n], was, start, done);
        if !ok { return; }
        if Selected(node, n) { processed := processed + {n}; }
        todo, done := todo - {n}, done + {n};
      }
      ok := true;
    }

    /** Whether some child of a directory in place cannot be mounted onto what is there. */
    method NeedsTmpfs(node: MountNode, path: Path) returns (r: Option<bool>)
      ensures r.None? ==> Behind(Through(View(), path)).None? && ModulePathFor(node, Magic).None?
      ensures r.Some? ==> (r.value <==> exists n :: n in node.children && Selected(node, n) &&
                                          Needs(Entry(EntriesOf(Through(View(), path)), n), node.children[n]))
    {
      var todo := node.children.Keys;
      while todo != {}
        invariant forall n :: n in node.children && n !in todo && Selected(node, n) ==>
                    !Needs(Entry(EntriesOf(Through(View(), path)), n), node.children[n])
        decreases todo
      {
        var n :| n in todo;
        ThroughUnder(View(), path, n);
        if n in node.children && Selected(node, n) && Needs(Through(View(), path + [n]), node.children[n]) {
          if ModulePathFor(node, Magic).None? && Behind(Through(View(), path)).None? { return None; }
          return Some(true);
        }
        todo := todo - {n};
      }
      r := Some(false);
    }

    /** Create the directory in staging; its metadata comes from the visible
        directory or else from the module's. */
    method Skeleton(node: MountNode, path: Path) returns (ok: bool)
      requires Free(staging, path)
      modifies this`staging
      ensures ok ==> staging == Some(MakeDirs(old(staging), path))
      ensures ok ==> HasModel(View(), node, path)
      ensures works && HasModel(View(), node, path) ==> ok
    {
      ok := *;
      ok := ok || works;
      if !ok { return; }
      staging := Some(MakeDirs(staging, path));
      ok := *;
      ok := (ok || works) && HasModel(View(), node, path);
    }

    /** Execute the children of a directory over what is already there, then the new ones. */
    method Rebuild(node: MountNode, path: Path, hasTmpfs: bool, ghost start: map<string, Tree>) returns (ok: bool)
      requires Valid() && Open(Now(), node, path, hasTmpfs, start) && Entered(executed, path)
      requires hasTmpfs ==> Get(staging, path) == Some(EMPTY_DIR)
      requires !hasTmpfs ==> Free(staging, path)
      modifies this
      ensures Valid() && Frame(old(Now()), Now(), path, hasTmpfs)
      ensures ok ==> Ran(old(Now()), Now(), node, path, hasTmpfs)
      ensures ok && !UnderFile(old(View()), path) ==> EntriesMountable(Through(old(View()), path), node)
      ensures works && !UnderFile(old(View()), path) && EntriesMountable(Through(old(View()), path), node) ==> ok
      decreases node, 3
    {
      ghost var was := Now();
      var processed: set<string> := {};
      ghost var done: set<string> := {};
      StartBuilding(was, node, path, hasTmpfs, start);
      BuildingFramed(was, was, node, path, hasTmpfs, start, {});
      ok := true;
      var present := Behind(Through(View(), path)).Some?;
      if present && !ReplaceFor(node, Magic) {
        ok, processed, done := MountPath(node, path, hasTmpfs, was, start);
        if !ok { return; }
      }
      ok, done := MountRest(node, path, hasTmpfs, processed, was, start, done);
      if ok { Rebuilt(was, Now(), node, path, hasTmpfs, start, done); }
    }

    /** Execute the selected children that were not already there. */
    method MountRest(node: MountNode, path: Path, hasTmpfs: bool, processed: set<string>, ghost was: Moment,
                     ghost start: map<string, Tree>, ghost before: set<string>)
      returns (ok: bool, ghost done: set<string>)
      requires Valid() && Open(was, node, path, hasTmpfs, start)
               && Building(was, Now(), node, path, hasTmpfs, start, before)
      requires Frame(was, Now(), path, hasTmpfs)
      requires forall n :: n in processed <==> n in before && Selected(node, n)
      modifies this
      ensures Valid() && Frame(was, Now(), path, hasTmpfs)
      ensures ok ==> Building(was, Now(), node, path, hasTmpfs, start, done)
      ensures ok ==> before <= done && (forall n :: n in done ==> n in before || n in node.children)
      ensures ok ==> forall n :: n in node.children && Selected(node, n) ==> n in done
      ensures ok && !UnderFile(was.view, path) ==>
                forall n :: n in node.children && Selected(node, n) && n !in processed ==>
                  ChildMountable(Through(was.view, path), node, n)
      ensures works && !UnderFile(was.view, path) && EntriesMountable(Through(was.view, path), node) ==> ok
      decreases node, 2
    {
      hide Building, Frame, Open, Selected, Visible, Valid, Mountable;
      done := before;
      var todo := node.children.Keys;
      while todo != {}
        invariant todo <= node.children.Keys && before <= done <= before + node.children.Keys
        invariant Valid() && Building(was, Now(), node, path, hasTmpfs, start, done)
                  && Frame(was, Now(), path, hasTmpfs)
        invariant forall n :: n in todo && Selected(node, n) && n in done ==> n in processed
        invariant forall n :: n in node.children && n !in todo && Selected(node, n) ==> n in done
        invariant !UnderFile(was.view, path) ==>
                    forall n :: n in node.children && n !in todo && Selected(node, n) && n !in processed ==>
                      ChildMountable(Through(was.view, path), node, n)
        decreases todo
      {
        var n :| n in todo;
        if Selected(node, n) && n !in processed {
          ok := MountChild(node, path, hasTmpfs, n, was, start, done);
          if !ok { return; }
          done := done + {n};
        }
        todo := todo - {n};
      }
      ok := true;
    }

    method MountDirectory(node: MountNode, path: Path, hasTmpfs: bool) returns (ok: bool)
      requires Valid() && Ready(Now(), node, path, hasTmpfs) && Entered(executed, path)
      requires FileTypeFor(node, Magic) == Some(Directory)
      modifies this
      ensures Valid() && Frame(old(Now()), Now(), path, hasTmpfs)
      ensures ok ==> Ran(old(Now()), Now(), node, path, hasTmpfs)
      ensures ok ==> CanRun(old(Now()), node, path)
      ensures works && CanRun(old(Now()), node, path) ==> ok
      decreases node, 5
    {
      if !hasTmpfs { ThroughDirs(View(), path); }
      if hasTmpfs {
        ok := FillSkeleton(node, path);
        return;
      }
      var tmpfs := ReplaceFor(node, Magic) && ModulePathFor(node, Magic).Some?;
      if !tmpfs {
        var needed := NeedsTmpfs(node, path);
        ok := needed.Some?;
        if !ok { return; }
        tmpfs := needed.value;
      }
      if tmpfs {
        ok := ReplaceDirectory(node, path);
      } else {
        ok := Rebuild(node, path, false, EntriesOf(Through(View(), path)));
      }
    }

    /** A directory inside a skeleton that is already being built. */
    method FillSkeleton(node: MountNode, path: Path) returns (ok: bool)
      requires Valid() && Ready(Now(), node, path, true) && Entered(executed, path)
      requires FileTypeFor(node, Magic) == Some(Directory)
      modifies this
      ensures Valid() && Frame(old(Now()), Now(), path, true)
      ensures ok ==> Ran(old(Now()), Now(), node, path, true)
      ensures ok ==> CanRun(old(Now()), node, path)
      ensures works && CanRun(old(Now()), node, path) ==> ok
      decreases node, 4
    {
      ghost var was := Now();
      AbsentIsFree(staging, path);
      MakeDirsMakes(staging, path);
      ok := Skeleton(node, path);
      if !ok { return; }
      ok := Rebuild(node, path, true, map[]);
      if ok { PutPut(was.staging, path, Some(EMPTY_DIR), Merge(Through(was.view, path), node)); }
    }

    /** Make a finished skeleton read-only and move it onto the visible directory. */
    method MoveSkeleton(path: Path) returns (ok: bool, ghost residue: Tree)
      requires Valid() && ParentIsDir(staging, path) && Get(staging, path).Some?
      modifies this`mounts, this`staging, this`placed, this`handed, this`tried, this`owned
      ensures Valid()
      ensures !ok ==> mounts == old(mounts) && Staging(path) in tried
      ensures ok ==> mounts == old(mounts) + [Mount(path, Get(old(staging), path).value)] && tried == old(tried)
      ensures ok ==> View() == Put(old(View()), path, Get(old(staging), path))
      ensures ok ==> staging == Put(old(staging), path, Some(residue))
      ensures works && Get(old(View()), path).Some? && Get(old(View()), path).value.Dir? ==>
                Get(old(staging), path).value.Dir? ==> ok
    {
      residue := EMPTY_DIR;
      ok := Remount();
      if !ok {
        Undo(Staging(path));
        return;
      }
      ok := MountOver(path, Get(staging, path).value);
      if !ok {
        Undo(Staging(path));
        return;
      }
      // The path in staging shows again what lies under the self-bind.
      var under: Tree := *;
      residue := under;
      staging := Put(staging, path, Some(under));
      Record(Real(path));
    }

    /** Build a skeleton, then move it onto the visible directory. */
    method ReplaceDirectory(node: MountNode, path: Path) returns (ok: bool)
      requires Valid() && Ready(Now(), node, path, false) && Entered(executed, path)
      requires FileTypeFor(node, Magic) == Some(Directory) && Skeletal(Through(View(), path), node)
      modifies this
      ensures Valid() && Frame(old(Now()), Now(), path, false)
      ensures ok ==> Ran(old(Now()), Now(), node, path, false)
      ensures ok ==> CanRun(old(Now()), node, path)
      ensures works && CanRun(old(Now()), node, path) ==> ok
      decreases node, 4
    {
      ThroughDirs(View(), path);
      ghost var was := Now();
      MakeDirsMakes(staging, path);
      ok := Skeleton(node, path);
      if !ok { return; }
      ghost var made := Now();
      // The skeleton is bound onto itself, so that it can be moved later.
      ok := *;
      ok := ok || works;
      if !ok { return; }
      ok := Rebuild(node, path, true, map[]);
      if !ok { return; }
      ghost var tree := Merge(Through(was.view, path), node);
      GetPut(made.staging, path, tree);
      ghost var residue;
      ok, residue := MoveSkeleton(path);
      EntersFramed(was, Now(), path, false, tree.value);
      if ok {
        StillFree(was.staging, path, tree, Some(residue));
        OneMounted(was.mounts, Through(was.view, path), node, path, tree.value);
      }
    }

    /** `magic_mount`: the whole run. On success the merged tree is visible and
        every mount was passed on; on any outcome the mounts are at pairwise
        unrelated paths, each was passed on or its undo was tried, and no node
        ran twice. */
    method Execute(root: MountNode) returns (ok: bool)
      requires Valid() && mounts == [] && tried == {} && executed == multiset{}
      requires stock.Dir? && root.sources == []
      modifies this
      ensures Antichain(mounts) && forall i :: 0 <= i < |mounts| ==> Real(mounts[i].path) in handed + tried
      ensures forall q :: executed[q] <= 1
      ensures forall t :: t in handed ==> t.path in owned
      ensures ok ==> placed <= handed
      ensures ok ==> View() == if HasBackend(root, Magic) then Merge(Some(stock), root) else Some(stock)
      ensures ok ==> HasBackend(root, Magic) ==> Mountable(Some(stock), root)
      ensures ok ==> forall q :: NewMount([], mounts, q) <==>
                                 HasBackend(root, Magic) && MountPlace(Some(stock), root, q)
      ensures works && (HasBackend(root, Magic) ==> Mountable(Some(stock), root)) ==> ok
    {
      ok := !HasBackend(root, Magic);
      if ok { return; }
      ok := *;
      ok := ok || works;
      if !ok { return; }
      staging := Some(EMPTY_DIR);
      assert IsDirectory(root) && !Needs(Some(stock), root);
      ok := DoMount(root, [], false);
      assert mounts[0..] == mounts;
      forall q ensures Mounts(Some(stock), root, q) <==> MountPlace(Some(stock), root, q) {
        MountsAtPlaces(Some(stock), root, q);
      }
    }
  }

  /** Every name handled, the directory is the merged one. */
  lemma Rebuilt(was: Moment, now: Moment, node: MountNode, path: Path, hasTmpfs: bool,
                start: map<string, Tree>, done: set<string>)
    requires Open(was, node, path, hasTmpfs, start) && Building(was, now, node, path, hasTmpfs, start, done)
    requires Frame(was, now, path, hasTmpfs)
    requires forall n :: n in done ==> n in EntriesOf(Through(was.view, path)) || n in node.children
    requires !ReplaceFor(node, Magic) ==> EntriesOf(Through(was.view, path)).Keys <= done
    requires forall n :: n in node.children && Selected(node, n) ==> n in done
    ensures Ran(was, now, node, path, hasTmpfs)
  {
    if hasTmpfs {
      StagedComplete(Through(was.view, path), node, done);
    } else {
      InPlaceComplete(Through(was.view, path), node, done);
      AllMounted(was.mounts, now.mounts, Through(was.view, path), node, path, done);
    }
  }

  lemma StillFree(staging: Option<Tree>, path: Path, tree: Option<Tree>, residue: Option<Tree>)
    requires Free(staging, path)
    ensures FreeKept(staging, Put(Put(Some(MakeDirs(staging, path)), path, tree), path, residue), path)
  {
    var made := Some(MakeDirs(staging, path));
    MakeDirsMakes(staging, path);
    GetPut(made, path, tree);
    forall q | !Comparable(path, q) && Free(staging, q)
      ensures Free(Put(Put(made, path, tree), path, residue), q)
    {
      MakeDirsKeepsFree(staging, path, q);
      PutKeepsFree(made, path, tree, q);
      PutKeepsFree(Put(made, path, tree), path, residue, q);
    }
  }

  lemma ViewAtStart(was: Moment, now: Moment, node: MountNode, path: Path, hasTmpfs: bool, start: map<string, Tree>)
    requires Open(was, node, path, hasTmpfs, start) && Building(was, now, node, path, hasTmpfs, start, {})
    ensures Through(now.view, path) == Through(was.view, path)
  {
    if !hasTmpfs {
      assert Part(start, Through(was.view, path), node, {}) == start;
      ThroughDirs(was.view, path);
      PutGet(was.view, path);
    }
  }
}
