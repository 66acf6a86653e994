/// The size of the ext4 staging image (src/storage/ext4.rs), in saturating 64-bit
/// arithmetic, against the exact numbers it stands for.
module Ext4Sizing {
  const U64_MAX: int := 0xFFFF_FFFF_FFFF_FFFF

  type U64 = x: int | 0 <= x <= U64_MAX

  const MIN_IMAGE: U64 := 0x400_0000
  const HEADROOM: U64 := 0x100_0000
  const GROWTH_NUMERATOR: U64 := 5
  const GROWTH_DENOMINATOR: U64 := 4
  const SMALL_BLOCK: U64 := 1024
  const LARGE_BLOCK: U64 := 4096
  const BLOCKS_PER_GROUP_FACTOR: U64 := 8
  const MAX_SMALL_GROUPS: U64 := 32
  const ALIGNMENT: U64 := 0x40_0000
  const BYTES_PER_INODE: U64 := 4096

  function Saturate(x: nat): U64 {
    if x <= U64_MAX then x else U64_MAX
  }

  function Max(a: int, b: int): int {
    if a < b then b else a
  }

  function RoundUp(value: U64, alignment: U64): U64 {
    if alignment == 0 || value % alignment == 0 then value else Saturate(value + (alignment - value % alignment))
  }

  function MultiplyRatioCeil(value: U64, numerator: U64, denominator: U64): U64 {
    if denominator == 0 then U64_MAX
    else
      var whole := Saturating(value / denominator, numerator);
      var fractional := Saturate(Saturating(value % denominator, numerator) + (denominator - 1)) / denominator;
      Saturate(whole + fractional)
  }

  function Saturating(a: nat, b: nat): U64 {
    assert a * b >= 0;
    Saturate(a * b)
  }

  function PlannedImageSize(data: U64, entries: U64): U64 {
    var dataNeed := Saturate(MultiplyRatioCeil(data, GROWTH_NUMERATOR, GROWTH_DENOMINATOR) + HEADROOM);
    var inodeNeed := Saturating(MultiplyRatioCeil(entries, GROWTH_NUMERATOR, GROWTH_DENOMINATOR), BYTES_PER_INODE);
    RoundUp(Max(Max(dataNeed, inodeNeed), MIN_IMAGE), ALIGNMENT)
  }

  // --- The exact demand ---------------------------------------------------

  /** `x` is five quarters of `n`, rounded up. */
  predicate Grown(n: nat, x: int) {
    4 * x >= 5 * n && 4 * (x - 1) < 5 * n
  }

  function FiveQuarters(n: nat): (x: nat)
    ensures Grown(n, x)
  {
    (5 * n + 3) / 4
  }

  /** What the staged data and inodes need, without any limit. */
  function Demand(data: nat, entries: nat): nat {
    Max(Max(FiveQuarters(data) + HEADROOM, 4096 * FiveQuarters(entries)), MIN_IMAGE)
  }

  /** The least multiple of the alignment that is enough. */
  predicate LeastAligned(need: nat, size: int) {
    size % ALIGNMENT == 0 && size >= need && size - ALIGNMENT < need
  }

  lemma LeastAlignedIsLeast(need: nat, size: int, other: int)
    requires LeastAligned(need, size) && other % ALIGNMENT == 0 && other >= need
    ensures size <= other
  {
  }

  lemma GrowthIsExact(value: U64)
    ensures MultiplyRatioCeil(value, GROWTH_NUMERATOR, GROWTH_DENOMINATOR) == Saturate(FiveQuarters(value))
  {
    var q, r := value / 4, value % 4;
    assert value == 4 * q + r;
    assert FiveQuarters(value) == 5 * q + (5 * r + 3) / 4;
  }

  function Aligned(need: nat): (size: nat)
    ensures LeastAligned(need, size)
  {
    (need + (ALIGNMENT - 1)) / ALIGNMENT * ALIGNMENT
  }

  lemma RoundedIsAligned(need: nat)
    ensures RoundUp(Saturate(need), ALIGNMENT) == Saturate(Aligned(need))
  {
  }

  /** A multiple of 4 MiB, at least 64 MiB, that holds five quarters of the data beside
      16 MiB, and 4 KiB for each of five quarters of the entries. */
  predicate Enough(data: nat, entries: nat, size: nat) {
    && size % 4_194_304 == 0 && size >= 67_108_864
    && 4 * (size - 16_777_216) >= 5 * data && 4 * (size / 4096) >= 5 * entries
  }

  /** The planned size is the least one that is enough, or the largest 64-bit number
      where that is out of range. */
  lemma PlannedIsLeast(data: U64, entries: U64) returns (exact: nat)
    ensures PlannedImageSize(data, entries) == if exact < 0x1_0000_0000_0000_0000 then exact else U64_MAX
    ensures Enough(data, entries, exact) && forall size: nat :: Enough(data, entries, size) ==> exact <= size
  {
    exact := Aligned(Demand(data, entries));
    PlannedIsAligned(data, entries);
    EnoughMeetsDemand(data, entries, exact);
    forall size: nat | Enough(data, entries, size) ensures exact <= size {
      EnoughMeetsDemand(data, entries, size);
      LeastAlignedIsLeast(Demand(data, entries), exact, size);
    }
  }

  lemma EnoughMeetsDemand(data: nat, entries: nat, size: nat)
    ensures Enough(data, entries, size) <==> size % ALIGNMENT == 0 && size >= Demand(data, entries)
  {
    var x, y := FiveQuarters(data), FiveQuarters(entries);
    assert 4 * (size - 16_777_216) >= 5 * data <==> size - 16_777_216 >= x;
    assert size / 4096 >= y <==> size >= 4096 * y;
    assert 4 * (size / 4096) >= 5 * entries <==> size / 4096 >= y;
  }

  lemma PlannedIsAligned(data: U64, entries: U64)
    ensures PlannedImageSize(data, entries) == Saturate(Aligned(Demand(data, entries)))
  {
    GrowthIsExact(data);
    GrowthIsExact(entries);
    RoundedIsAligned(Demand(data, entries));
  }

  /** Staging more never plans a smaller image. */
  lemma PlannedIsMonotone(data: U64, entries: U64, moreData: U64, moreEntries: U64)
    requires data <= moreData && entries <= moreEntries
    ensures PlannedImageSize(data, entries) <= PlannedImageSize(moreData, moreEntries)
  {
    PlannedIsAligned(data, entries);
    PlannedIsAligned(moreData, moreEntries);
    var need, more := Demand(data, entries), Demand(moreData, moreEntries);
    assert need <= more;
    LeastAlignedIsLeast(need, Aligned(need), Aligned(more));
  }

  // --- Block size ---------------------------------------------------------

  function GroupSize(blockSize: U64): U64 {
    Saturating(Saturating(blockSize, blockSize), BLOCKS_PER_GROUP_FACTOR)
  }

  function GroupCount(imageSize: U64, blockSize: U64): int {
    var size := GroupSize(blockSize);
    if size == 0 then U64_MAX
    else if imageSize % size == 0 then imageSize / size
    else if imageSize / size < U64_MAX then imageSize / size + 1 else U64_MAX
  }

  function SelectBlockSize(imageSize: U64): U64 {
    if GroupCount(imageSize, SMALL_BLOCK) <= MAX_SMALL_GROUPS then SMALL_BLOCK else LARGE_BLOCK
  }

  /** Small blocks are used exactly up to 256 MiB, where they make at most 32 groups. */
  lemma SmallBlocksUpTo(imageSize: U64)
    ensures SelectBlockSize(imageSize) == SMALL_BLOCK <==> imageSize <= 0x1000_0000
    ensures SelectBlockSize(imageSize) == SMALL_BLOCK <==> 0x80_0000 * 32 >= imageSize
    ensures SelectBlockSize(imageSize) == SMALL_BLOCK || SelectBlockSize(imageSize) == LARGE_BLOCK
  {
    assert GroupSize(SMALL_BLOCK) == 0x80_0000;
  }

  // --- Counting -----------------------------------------------------------

  /** What a path leads to: a file of some length, a directory, something else with an
      inode, nothing, or something that cannot be inspected. */
  datatype Node = FileNode(length: U64) | DirNode(children: seq<Node>) | OtherNode | Missing | Unreadable

  function KiB(length: nat): nat {
    (length + 1023) / 1024 * 1024
  }

  function Data(n: Node): nat {
    match n
    case FileNode(length) => KiB(length)
    case DirNode(children) => DataOf(children)
    case _ => 0
  }

  function DataOf(nodes: seq<Node>): nat {
    if nodes == [] then 0 else Data(nodes[0]) + DataOf(nodes[1..])
  }

  function Inodes(n: Node): nat {
    match n
    case FileNode(_) => 1
    case DirNode(children) => 1 + InodesOf(children)
    case OtherNode => 1
    case _ => 0
  }

  function InodesOf(nodes: seq<Node>): nat {
    if nodes == [] then 0 else Inodes(nodes[0]) + InodesOf(nodes[1..])
  }

  predicate Readable(n: Node) {
    match n
    case DirNode(children) => AllReadable(children)
    case Unreadable => false
    case _ => true
  }

  predicate AllReadable(nodes: seq<Node>) {
    nodes == [] || (Readable(nodes[0]) && AllReadable(nodes[1..]))
  }

  /** How many paths a traversal still visits. */
  function Visits(nodes: seq<Node>): nat {
    if nodes == [] then 0
    else (match nodes[0] case DirNode(children) => 1 + Visits(children) case _ => 1) + Visits(nodes[1..])
  }

  lemma {:induction false} Appended(a: seq<Node>, b: seq<Node>)
    ensures DataOf(a + b) == DataOf(a) + DataOf(b) && InodesOf(a + b) == InodesOf(a) + InodesOf(b)
    ensures Visits(a + b) == Visits(a) + Visits(b) && (AllReadable(a + b) <==> AllReadable(a) && AllReadable(b))
  {
    if a == [] {
      assert a + b == b;
    } else {
      Appended(a[1..], b);
      assert (a + b)[1..] == a[1..] + b;
    }
  }

  lemma TakenOut(b: seq<Node>, i: nat)
    requires i < |b|
    ensures DataOf(b) == Data(b[i]) + DataOf(b[..i] + b[i+1..])
            && InodesOf(b) == Inodes(b[i]) + InodesOf(b[..i] + b[i+1..])
  {
    var tail := b[i..];
    assert b == b[..i] + tail && tail[0] == b[i] && tail[1..] == b[i+1..];
    assert DataOf(tail) == Data(b[i]) + DataOf(b[i+1..]) && InodesOf(tail) == Inodes(b[i]) + InodesOf(b[i+1..]);
    hide DataOf, InodesOf;
    Appended(b[..i], tail);
    Appended(b[..i], b[i+1..]);
  }

  /** The totals do not depend on the order in which a directory lists its entries. */
  lemma {:induction false} OrderDoesNotMatter(a: seq<Node>, b: seq<Node>)
    requires multiset(a) == multiset(b)
    ensures DataOf(a) == DataOf(b) && InodesOf(a) == InodesOf(b)
    decreases |a|
  {
    if a == [] {
      assert |multiset(b)| == 0;
    } else {
      assert a[0] in multiset(b);
      var i :| 0 <= i < |b| && b[i] == a[0];
      var rest := b[..i] + b[i+1..];
      TakenOut(b, i);
      SameRest(a, b, i);
      OrderDoesNotMatter(a[1..], rest);
    }
  }

  lemma TakenMultiset(b: seq<Node>, i: nat)
    requires i < |b|
    ensures multiset(b) == multiset{b[i]} + multiset(b[..i] + b[i+1..])
  {
    assert b == b[..i] + [b[i]] + b[i+1..];
  }

  lemma Cancelled(x: multiset<Node>, p: multiset<Node>, q: multiset<Node>)
    requires x + p == x + q
    ensures p == q
  {
    assert (x + p) - x == p && (x + q) - x == q;
  }

  lemma SameRest(a: seq<Node>, b: seq<Node>, i: nat)
    requires a != [] && i < |b| && b[i] == a[0] && multiset(a) == multiset(b)
    ensures multiset(a[1..]) == multiset(b[..i] + b[i+1..])
  {
    assert a[..0] + a[1..] == a[1..];
    TakenMultiset(a, 0);
    TakenMultiset(b, i);
    Cancelled(multiset{a[0]}, multiset(a[1..]), multiset(b[..i] + b[i+1..]));
  }

  class SizeCounter {
    var dataBytes: U64
    var entries: U64

    constructor ()
      ensures dataBytes == 0 && entries == 0
    {
      dataBytes, entries := 0, 0;
    }

    method AddFile(length: U64)
      modifies this
      ensures dataBytes == Saturate(old(dataBytes) + KiB(length))
      ensures entries == Saturate(old(entries) + 1)
    {
      dataBytes := Saturate(dataBytes + RoundUp(length, SMALL_BLOCK));
      entries := Saturate(entries + 1);
    }

    method AddMetadataEntry()
      modifies this
      ensures dataBytes == old(dataBytes) && entries == Saturate(old(entries) + 1)
    {
      entries := Saturate(entries + 1);
    }
  }

  /** Walk everything below the paths; the totals are the exact sums, saturated once. */
  method CalculateTotalSize(paths: seq<Node>) returns (ok: bool, counter: SizeCounter)
    ensures ok <==> AllReadable(paths)
    ensures ok ==> counter.dataBytes == Saturate(DataOf(paths)) && counter.entries == Saturate(InodesOf(paths))
    ensures fresh(counter)
  {
    counter := new SizeCounter();
    var stack := paths;
    ghost var data: nat, inodes: nat := 0, 0;
    while stack != []
      invariant data + DataOf(stack) == DataOf(paths) && inodes + InodesOf(stack) == InodesOf(paths)
      invariant AllReadable(stack) <==> AllReadable(paths)
      invariant fresh(counter) && counter.dataBytes == Saturate(data) && counter.entries == Saturate(inodes)
      decreases Visits(stack)
    {
      var current, rest := stack[|stack|-1], stack[..|stack|-1];
      assert stack == rest + [current] && [current][1..] == [];
      Appended(rest, [current]);
      stack := rest;
      match current
      case FileNode(length) =>
        counter.AddFile(length);
        data, inodes := data + KiB(length), inodes + 1;
      case DirNode(children) =>
        counter.AddMetadataEntry();
        inodes := inodes + 1;
        Appended(rest, children);
        stack := stack + children;
      case OtherNode =>
        counter.AddMetadataEntry();
        inodes := inodes + 1;
      case Missing =>
      case Unreadable =>
        return false, counter;
    }
    ok := true;
  }
}
