/// OverlayFS layering (src/overlayfs/overlayfs.rs): any number of layers is
/// collapsed to what one mount can hold, and shows the same tree.
module OverlayLayers {
  import opened FileTrees
  import opened Wrappers

  /** What a layer has at a path: a whiteout, a file, a link with what it leads to, or
      a directory, which may be opaque. */
  datatype Layer =
    | Gone
    | Item(origin: Path)
    | Link(origin: Path, leads: Option<Layer>)
    | Folder(opaq: bool, entries: map<string, Layer>)

  // --- What a mount shows -------------------------------------------------

  datatype Seen = Nothing | SeenItem(origin: Path) | SeenLink(origin: Path) | SeenFolder

  /** The directories merged at the head of a stack of layers: down to the first
      opaque one, or the first that is not a directory. */
  function Merged(stack: seq<Layer>): seq<map<string, Layer>> {
    if stack == [] || !stack[0].Folder? then []
    else [stack[0].entries] + if stack[0].opaq then [] else Merged(stack[1..])
  }

  function Named(dirs: seq<map<string, Layer>>, name: string): seq<Layer> {
    if dirs == [] then []
    else (if name in dirs[0] then [dirs[0][name]] else []) + Named(dirs[1..], name)
  }

  /** Look a path up through a stack of layers, the upper ones first. */
  function Lookup(stack: seq<Layer>, path: Path): Seen
    decreases path
  {
    if stack == [] || stack[0].Gone? then Nothing
    else if stack[0].Item? then (if path == [] then SeenItem(stack[0].origin) else Nothing)
    else if stack[0].Link? then (if path == [] then SeenLink(stack[0].origin) else Nothing)
    else if path == [] then SeenFolder
    else Lookup(Named(Merged(stack), path[0]), path[1..])
  }

  // --- The mounted tree ---------------------------------------------------

  /** One layer over what is mounted from the lower ones. */
  function Over(upper: Layer, lower: Option<Layer>): Option<Layer>
    decreases upper, 1
  {
    match upper
    case Gone => None
    case Item(_) => Some(upper)
    case Link(_, _) => Some(upper)
    case Folder(opaq, e) =>
      var base := Base(opaq, lower);
      Some(Folder(false, map n | n in e.Keys + base.Keys
                  && OverAt(upper, base, n).Some? :: OverAt(upper, base, n).value))
  }

  function OverAt(upper: Layer, base: map<string, Layer>, n: string): Option<Layer>
    requires upper.Folder?
    decreases upper, 0
  {
    if n in upper.entries then Over(upper.entries[n], Entry(base, n)) else Entry(base, n)
  }

  function Base(opaq: bool, lower: Option<Layer>): map<string, Layer> {
    if opaq || lower.None? || !lower.value.Folder? then map[] else lower.value.entries
  }

  /** The tree an overlay mount of these layers holds. */
  function Mount(layers: seq<Layer>): Option<Layer> {
    if layers == [] then None else Over(layers[0], Mount(layers[1..]))
  }

  /** A tree without whiteouts and opaque marks, as every mount shows it. */
  predicate Plain(l: Layer) {
    match l
    case Gone => false
    case Item(_) => true
    case Link(_, _) => true
    case Folder(opaq, e) => !opaq && forall n :: n in e ==> Plain(e[n])
  }

  lemma {:induction false} OverIsPlain(upper: Layer, lower: Option<Layer>)
    requires lower.Some? ==> Plain(lower.value)
    ensures Over(upper, lower).Some? ==> Plain(Over(upper, lower).value)
    decreases upper
  {
    if upper.Folder? {
      var base := Base(upper.opaq, lower);
      forall n | n in upper.entries ensures OverAt(upper, base, n).Some? ==> Plain(OverAt(upper, base, n).value) {
        OverIsPlain(upper.entries[n], Entry(base, n));
      }
    }
  }

  lemma {:induction false} MountIsPlain(layers: seq<Layer>)
    ensures Mount(layers).Some? ==> Plain(Mount(layers).value)
  {
    if layers != [] {
      MountIsPlain(layers[1..]);
      OverIsPlain(layers[0], Mount(layers[1..]));
    }
  }

  /** Mounted alone, a plain tree shows as itself. */
  lemma {:induction false} PlainAlone(l: Layer)
    requires Plain(l)
    ensures Over(l, None) == Some(l)
    decreases l
  {
    if l.Folder? {
      forall n ensures Entry(Over(l, None).value.entries, n) == Entry(l.entries, n) {
        if n in l.entries { PlainAlone(l.entries[n]); }
      }
      SameEntries(Over(l, None).value.entries, l.entries);
    }
  }

  /** What a path component resolves to in a mounted directory is what the merged
      directories have under that name, mounted. */
  lemma {:induction false} NamedMount(stack: seq<Layer>, n: string)
    requires stack != [] && stack[0].Folder?
    ensures Mount(stack).value.Folder?
    ensures Entry(Mount(stack).value.entries, n) == Mount(Named(Merged(stack), n))
  {
    var top, rest := stack[0], stack[1..];
    var base := Base(top.opaq, Mount(rest));
    var lower := Named(if top.opaq then [] else Merged(rest), n);
    assert Merged(stack) == [top.entries] + if top.opaq then [] else Merged(rest);
    assert Merged(stack)[1..] == if top.opaq then [] else Merged(rest);
    if !top.opaq && rest != [] && rest[0].Folder? {
      NamedMount(rest, n);
    } else if !top.opaq && rest != [] {
      assert Mount(rest).None? || !Mount(rest).value.Folder?;
    }
    assert Entry(base, n) == Mount(lower);
    assert Entry(Mount(stack).value.entries, n) == OverAt(top, base, n);
    if n in top.entries {
      var named := Named(Merged(stack), n);
      assert named == [top.entries[n]] + lower;
      assert named[1..] == lower;
    } else {
      assert Named(Merged(stack), n) == lower;
    }
  }

  /** A mount shows at every path what looking it up through its layers finds. */
  lemma {:induction false} MountShowsLookup(stack: seq<Layer>, path: Path)
    ensures Lookup(stack, path) == (if Mount(stack).None? then Nothing else Lookup([Mount(stack).value], path))
    decreases path
  {
    if stack != [] && stack[0].Folder? && path != [] {
      var n := path[0];
      NamedMount(stack, n);
      MountShowsLookup(Named(Merged(stack), n), path[1..]);
      var e := Mount(stack).value.entries;
      assert !Mount(stack).value.opaq;
      assert Merged([Mount(stack).value]) == [e];
      assert Named([e], n) == if n in e then [e[n]] else [];
    }
  }

  // --- Collapsing ---------------------------------------------------------

  lemma {:induction false} MountOfSplit(upper: seq<Layer>, lower: seq<Layer>, staged: Layer)
    requires Mount(lower) == Some(staged)
    ensures Mount(upper + [staged]) == Mount(upper + lower)
  {
    if upper == [] {
      MountIsPlain(lower);
      PlainAlone(staged);
      assert [] + [staged] == [staged] && [] + lower == lower && [staged][1..] == [];
    } else {
      MountOfSplit(upper[1..], lower, staged);
      assert (upper + [staged])[1..] == upper[1..] + [staged];
      assert (upper + lower)[1..] == upper[1..] + lower;
    }
  }

  const MAX_LAYERS: nat := 64

  /** How many staging mounts `n` layers take. */
  function Steps(n: nat): nat {
    if n <= MAX_LAYERS then 0 else (n - MAX_LAYERS + 61) / 62
  }

  predicate Folders(layers: seq<Layer>) {
    forall i :: 0 <= i < |layers| ==> layers[i].Folder?
  }

  datatype Effect = Target(path: Path) | Staging(path: Path)

  class Overlays {
    /** The layers of every staging mount, and the effects reported to the caller. */
    var batches: seq<seq<Layer>>
    var effects: seq<Effect>
    /** Whether calls succeed. */
    const works: bool

    constructor (works: bool)
      ensures batches == [] && effects == [] && this.works == works
    {
      batches, effects := [], [];
      this.works := works;
    }

    /** Mount a batch of layers on a fresh staging directory. */
    method CreateStagingLayer(batch: seq<Layer>) returns (r: Option<Layer>)
      requires |batch| <= MAX_LAYERS && Mount(batch).Some?
      modifies this
      ensures r.Some? ==> r == Mount(batch) && batches == old(batches) + [batch] && |effects| == |old(effects)| + 1
      ensures OnlyStaging(old(effects), effects)
      ensures r.None? ==> batches == old(batches) && effects == old(effects)
      ensures works ==> r.Some?
    {
      var fails: bool := *;
      if fails && !works { return None; }
      var directory: Path := *;
      batches := batches + [batch];
      effects := effects + [Staging(directory)];
      r := Mount(batch);
    }

    /** Collapse low-priority tails until one mount can hold the result. */
    method CollapseStagingLayers(layers: seq<Layer>) returns (r: Option<seq<Layer>>)
      requires layers != [] && Folders(layers)
      modifies this
      ensures r.Some? ==> 0 < |r.value| <= MAX_LAYERS && Folders(r.value)
      ensures r.Some? ==> forall path :: Lookup(r.value, path) == Lookup(layers, path)
      ensures r.Some? ==> Mount(r.value) == Mount(layers)
      ensures r.Some? ==> |batches| == |old(batches)| + Steps(|layers|)
      ensures r.Some? ==> r.value == layers || (r.value[..|r.value|-1] <= layers && |layers| > MAX_LAYERS)
      ensures old(batches) <= batches && forall i :: |old(batches)| <= i < |batches| ==> |batches[i]| == MAX_LAYERS - 1
      ensures OnlyStaging(old(effects), effects)
      ensures works ==> r.Some?
    {
      var current := layers;
      while |current| > MAX_LAYERS
        invariant current != [] && Folders(current) && Mount(current) == Mount(layers)
        invariant |batches| + Steps(|current|) == |old(batches)| + Steps(|layers|)
        invariant current == layers || (current[..|current|-1] <= layers && |layers| > MAX_LAYERS)
        invariant old(batches) <= batches && forall i :: |old(batches)| <= i < |batches| ==>
                  |batches[i]| == MAX_LAYERS - 1
        invariant OnlyStaging(old(effects), effects)
        decreases |current|
      {
        var split := |current| - (MAX_LAYERS - 1);
        var upper, tail := current[..split], current[split..];
        assert current == upper + tail;
        assert tail[0].Folder?;
        var staged := CreateStagingLayer(tail);
        if staged.None? { return None; }
        MountOfSplit(upper, tail, staged.value);
        assert Steps(|current|) == Steps(|current| - 62) + 1;
        current := upper + [staged.value];
        assert current[..|current|-1] == upper;
      }
      forall path ensures Lookup(current, path) == Lookup(layers, path) {
        MountShowsLookup(current, path);
        MountShowsLookup(layers, path);
      }
      r := Some(current);
    }

    /** `mount_overlayfs`: the tree that is mounted. */
    method MountOverlayfs(lowerDirs: seq<Layer>, lowest: Layer) returns (r: Option<Layer>)
      requires Folders(lowerDirs) && lowest.Folder?
      modifies this
      ensures r.Some? ==> r == Mount(lowerDirs + [lowest])
      ensures OnlyStaging(old(effects), effects)
      ensures works ==> r.Some?
    {
      var layers := CollapseStagingLayers(lowerDirs + [lowest]);
      if layers.None? { return None; }
      var fails: bool := *;
      r := if fails && !works then None else Mount(layers.value);
    }
  }

  /** Only staging mounts were reported in between. */
  predicate OnlyStaging(was: seq<Effect>, now: seq<Effect>) {
    was <= now && forall i :: |was| <= i < |now| ==> now[i].Staging?
  }

  lemma OnlyStagingSame(a: seq<Effect>)
    ensures OnlyStaging(a, a)
  {
  }

  lemma OnlyStagingTwice(a: seq<Effect>, b: seq<Effect>, c: seq<Effect>)
    requires OnlyStaging(a, b) && OnlyStaging(b, c)
    ensures OnlyStaging(a, c)
  {
  }

  /** Why the tail must reach the bottom: staged without it, a whiteout is lost and
      the entry it hides shows again. */
  lemma MiddleBatchLosesWhiteouts()
    ensures exists top: Layer, middle: Layer, bottom: Layer ::
      top.Folder? && middle.Folder? && bottom.Folder? && Mount([top, middle]).Some?
      && Lookup([Mount([top, middle]).value, bottom], ["x"]) != Lookup([top, middle, bottom], ["x"])
  {
    var top := Folder(false, map[]);
    var middle := Folder(false, map["x" := Gone]);
    var bottom := Folder(false, map["x" := Item(["x"])]);
    var staged := Mount([top, middle]).value;
    NamedMount([top, middle], "x");
    var two := [top, middle];
    assert two[1..] == [middle];
    assert Merged([middle]) == [middle.entries] + Merged([middle][1..]);
    assert Merged(two) == [top.entries] + Merged([middle]);
    assert Named(Merged([middle]), "x") == [Gone];
    assert Named(Merged(two), "x") == [Gone] by { assert Merged(two)[1..] == Merged([middle]); }
    assert "x" !in staged.entries;
    var a := [staged, bottom];
    assert a[1..] == [bottom] && [bottom][1..] == [];
    assert Merged([bottom]) == [bottom.entries];
    assert Named([bottom.entries], "x") == [Item(["x"])];
    assert Merged(a) == [staged.entries] + Merged([bottom]);
    assert Merged(a)[1..] == Merged([bottom]);
    assert Named(Merged(a), "x") == [Item(["x"])];
    assert ["x"][1..] == [];
    assert Lookup(a, ["x"]) == SeenItem(["x"]);
    var b := [top, middle, bottom];
    assert b[1..] == [middle, bottom] && b[1..][1..] == [bottom];
    assert Merged(b[1..]) == [middle.entries] + Merged([bottom]);
    assert Merged(b)[1..] == Merged(b[1..]) && Merged(b[1..])[1..] == Merged([bottom]);
    assert Named(Merged(b), "x") == Named(Merged(b[1..]), "x") == [Gone] + Named(Merged([bottom]), "x");
    assert Lookup(b, ["x"]) == Nothing;
  }
}
