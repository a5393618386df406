/**
 The abstract view of the heap: the majors in list order, and in each the minors in list order.
 Everything here is about addresses only; HeapImage ties it to the bytes in memory.
 */
module HeapLayout {

  // sizeof(struct liballoc_major) and sizeof(struct liballoc_minor) on i386
  const HEADER: nat := 24
  const PAGE: nat := 4096
  const ALIGNMENT: nat := 16
  const ALIGN_INFO: nat := 16

  /** Where the aligned payload of a block starting at `start` (just after its header) begins. */
  function AlignUp(start: nat): nat {
    var p := start + ALIGN_INFO;
    var diff := p % ALIGNMENT;
    if diff != 0 then p + (ALIGNMENT - diff) else p
  }

  /** A live allocation: header address, padded size and requested size. */
  datatype Block = Block(addr: nat, size: nat, req: nat) {
    function End(): nat { addr + HEADER + size }

    function Payload(): nat { AlignUp(addr + HEADER) }
  }

  /** A major: a run of pages and the live allocations in it. */
  datatype Region = Region(base: nat, pages: nat, blocks: seq<Block>) {
    function End(): nat { base + pages * PAGE }
  }

  type Layout = seq<Region>

  ghost predicate RegionOk(r: Region) {
    && 0 < r.base
    && 0 < r.pages
    && (forall k :: 0 <= k < |r.blocks| ==>
          && r.base + HEADER <= r.blocks[k].addr
          && r.blocks[k].End() <= r.End()
          && r.blocks[k].req + ALIGNMENT + ALIGN_INFO <= r.blocks[k].size)
    && (forall j, k :: 0 <= j < k < |r.blocks| ==> r.blocks[j].End() <= r.blocks[k].addr)
  }

  /** `top` is the first address the page source has not handed out yet. */
  ghost predicate LayoutOk(heap: Layout, top: nat) {
    && top < 0x1_0000_0000
    && (forall i :: 0 <= i < |heap| ==> RegionOk(heap[i]) && heap[i].End() <= top)
    && (forall i, j :: 0 <= i < j < |heap| ==> heap[i].End() <= heap[j].base)
  }

  // ---------- sums kept by the allocator's counters ----------

  function Used(blocks: seq<Block>): nat {
    if blocks == [] then 0 else blocks[0].size + HEADER + Used(blocks[1..])
  }

  function Sizes(blocks: seq<Block>): nat {
    if blocks == [] then 0 else blocks[0].size + Sizes(blocks[1..])
  }

  function Usage(r: Region): nat { HEADER + Used(r.blocks) }

  function InUse(heap: Layout): nat {
    if heap == [] then 0 else Sizes(heap[0].blocks) + InUse(heap[1..])
  }

  function Allocated(heap: Layout): nat {
    if heap == [] then 0 else heap[0].pages * PAGE + Allocated(heap[1..])
  }

  lemma {:induction false} UsedConcat(a: seq<Block>, b: seq<Block>)
    ensures Used(a + b) == Used(a) + Used(b)
    ensures Sizes(a + b) == Sizes(a) + Sizes(b)
  {
    if a == [] {
      assert a + b == b;
    } else {
      assert (a + b)[1..] == a[1..] + b;
      UsedConcat(a[1..], b);
    }
  }

  lemma {:induction false} TotalsConcat(a: Layout, b: Layout)
    ensures InUse(a + b) == InUse(a) + InUse(b)
    ensures Allocated(a + b) == Allocated(a) + Allocated(b)
  {
    if a == [] {
      assert a + b == b;
    } else {
      assert (a + b)[1..] == a[1..] + b;
      TotalsConcat(a[1..], b);
    }
  }

  lemma TotalsUpdate(heap: Layout, i: nat, r: Region)
    requires i < |heap|
    ensures InUse(heap[i := r]) == InUse(heap) - Sizes(heap[i].blocks) + Sizes(r.blocks)
    ensures Allocated(heap[i := r]) == Allocated(heap) - heap[i].pages * PAGE + r.pages * PAGE
  {
    assert heap == heap[..i] + ([heap[i]] + heap[i + 1..]);
    assert heap[i := r] == heap[..i] + ([r] + heap[i + 1..]);
    TotalsConcat(heap[..i], [heap[i]] + heap[i + 1..]);
    TotalsConcat(heap[..i], [r] + heap[i + 1..]);
    TotalsConcat([heap[i]], heap[i + 1..]);
    TotalsConcat([r], heap[i + 1..]);
  }

  lemma TotalsDrop(heap: Layout, i: nat)
    requires i < |heap|
    ensures InUse(heap[..i] + heap[i + 1..]) == InUse(heap) - Sizes(heap[i].blocks)
    ensures Allocated(heap[..i] + heap[i + 1..]) == Allocated(heap) - heap[i].pages * PAGE
  {
    var a, r, b := heap[..i], [heap[i]], heap[i + 1..];
    TotalsOfOne(heap[i]);
    hide InUse, Allocated;
    assert heap == a + (r + b);
    TotalsConcat(a, r + b);
    TotalsConcat(r, b);
    TotalsConcat(a, b);
  }

  lemma TotalsOfOne(r: Region)
    ensures InUse([r]) == Sizes(r.blocks) && Allocated([r]) == r.pages * PAGE
  {
  }

  // ---------- free space ----------

  /** Bytes [a, a + need) of the region belong to no header and no allocation. */
  ghost predicate FreeSpan(r: Region, a: nat, need: nat) {
    && r.base + HEADER <= a
    && a + need <= r.End()
    && forall k :: 0 <= k < |r.blocks| ==> r.blocks[k].End() <= a || a + need <= r.blocks[k].addr
  }

  ghost predicate RegionHasRoom(r: Region, need: nat) {
    exists a :: FreeSpan(r, a, need)
  }

  /** There is room if `need` bytes in some major, behind its header, belong to no block and no block's header, */
  lemma RoomFrom(heap: Layout, need: nat, i: nat, a: nat)
    requires i < |heap| && heap[i].base + 24 <= a && a + need <= heap[i].base + heap[i].pages * 4096
    requires forall k :: 0 <= k < |heap[i].blocks| ==>
               heap[i].blocks[k].addr + 24 + heap[i].blocks[k].size <= a || a + need <= heap[i].blocks[k].addr
    ensures HasRoom(heap, need)
  {
    assert FreeSpan(heap[i], a, need);
  }

  /** and only then. */
  lemma RoomAt(heap: Layout, need: nat) returns (i: nat, a: nat)
    requires HasRoom(heap, need)
    ensures i < |heap| && heap[i].base + 24 <= a && a + need <= heap[i].base + heap[i].pages * 4096
    ensures forall k :: 0 <= k < |heap[i].blocks| ==>
              heap[i].blocks[k].addr + 24 + heap[i].blocks[k].size <= a || a + need <= heap[i].blocks[k].addr
  {
    i :| 0 <= i < |heap| && RegionHasRoom(heap[i], need);
    a :| FreeSpan(heap[i], a, need);
  }

  ghost predicate HasRoom(heap: Layout, need: nat) {
    exists i :: 0 <= i < |heap| && RegionHasRoom(heap[i], need)
  }

  /** The gap in front of minor `k`; `k == |r.blocks|` is the gap at the end of the major. */
  function GapStart(r: Region, k: nat): nat
    requires k <= |r.blocks|
  {
    if k == 0 then r.base + HEADER else r.blocks[k - 1].End()
  }

  function GapEnd(r: Region, k: nat): nat
    requires k <= |r.blocks|
  {
    if k == |r.blocks| then r.End() else r.blocks[k].addr
  }

  ghost predicate GapFits(r: Region, k: nat, need: nat)
    requires k <= |r.blocks|
  {
    GapStart(r, k) + need <= GapEnd(r, k)
  }

  lemma GapIsFree(r: Region, k: nat, need: nat)
    requires RegionOk(r) && k <= |r.blocks| && GapFits(r, k, need)
    ensures FreeSpan(r, GapStart(r, k), need)
  {
  }

  /** Free space in a sorted major lies within one of its gaps. */
  lemma {:induction false} FreeSpanInGap(r: Region, a: nat, need: nat, k: nat) returns (g: nat)
    requires RegionOk(r) && FreeSpan(r, a, need) && 0 < need && k <= |r.blocks|
    requires GapStart(r, k) <= a
    ensures k <= g <= |r.blocks|
    ensures GapStart(r, g) <= a && a + need <= GapEnd(r, g)
    decreases |r.blocks| - k
  {
    if k == |r.blocks| || a + need <= r.blocks[k].addr {
      g := k;
    } else {
      g := FreeSpanInGap(r, a, need, k + 1);
    }
  }

  /** A major has room exactly when one of its gaps is large enough. */
  lemma RoomIsAGap(r: Region, need: nat)
    requires RegionOk(r) && 0 < need
    ensures RegionHasRoom(r, need) <==> exists k :: 0 <= k <= |r.blocks| && GapFits(r, k, need)
  {
    if RegionHasRoom(r, need) {
      var a :| FreeSpan(r, a, need);
      var g := FreeSpanInGap(r, a, need, 0);
      assert GapFits(r, g, need);
    }
    if k :| 0 <= k <= |r.blocks| && GapFits(r, k, need) {
      GapIsFree(r, k, need);
    }
  }

  lemma {:induction false} PrefixPacked(r: Region, k: nat)
    requires RegionOk(r) && k <= |r.blocks|
    ensures r.base + HEADER + Used(r.blocks[..k]) <= GapStart(r, k)
  {
    if 0 < k {
      PrefixPacked(r, k - 1);
      assert r.blocks[..k] == r.blocks[..k - 1] + [r.blocks[k - 1]];
      UsedConcat(r.blocks[..k - 1], [r.blocks[k - 1]]);
      assert GapStart(r, k - 1) <= r.blocks[k - 1].addr;
    }
  }

  lemma {:induction false} SuffixPacked(r: Region, k: nat)
    requires RegionOk(r) && k <= |r.blocks|
    ensures GapEnd(r, k) + Used(r.blocks[k..]) <= r.End()
    decreases |r.blocks| - k
  {
    if k < |r.blocks| {
      SuffixPacked(r, k + 1);
      assert r.blocks[k..][1..] == r.blocks[k + 1..];
      assert r.blocks[k].End() <= GapEnd(r, k + 1);
    }
  }

  /** The gaps of a major together are its size minus its usage, so none exceeds that. */
  lemma GapsWithinFree(r: Region, k: nat)
    requires RegionOk(r) && k <= |r.blocks|
    ensures GapEnd(r, k) - GapStart(r, k) <= r.pages * PAGE - Usage(r)
    ensures Usage(r) <= r.pages * PAGE
  {
    PrefixPacked(r, k);
    SuffixPacked(r, k);
    assert r.blocks == r.blocks[..k] + r.blocks[k..];
    UsedConcat(r.blocks[..k], r.blocks[k..]);
    assert GapStart(r, k) <= GapEnd(r, k);
  }

  /** Skipping a major whose free total is too small never skips one that has room. */
  lemma SmallMajorHasNoRoom(r: Region, need: nat)
    requires RegionOk(r) && 0 < need
    requires r.pages * PAGE - Usage(r) < need
    ensures !RegionHasRoom(r, need)
  {
    RoomIsAGap(r, need);
    forall k | 0 <= k <= |r.blocks|
      ensures !GapFits(r, k, need)
    {
      GapsWithinFree(r, k);
    }
  }

  lemma BlocksApart(r: Region, j: nat, k: nat)
    requires RegionOk(r) && j < |r.blocks| && k < |r.blocks| && j != k
    ensures r.blocks[j].End() <= r.blocks[k].addr || r.blocks[k].End() <= r.blocks[j].addr
  {
  }

  // ---------- updates ----------

  function Insert(r: Region, k: nat, b: Block): Region
    requires k <= |r.blocks|
  {
    r.(blocks := r.blocks[..k] + [b] + r.blocks[k..])
  }

  function Remove(r: Region, k: nat): Region
    requires k < |r.blocks|
  {
    r.(blocks := r.blocks[..k] + r.blocks[k + 1..])
  }

  lemma InsertIndex(r: Region, k: nat, b: Block)
    requires k <= |r.blocks|
    ensures var blocks := Insert(r, k, b).blocks;
            && |blocks| == |r.blocks| + 1
            && (forall j :: 0 <= j < k ==> blocks[j] == r.blocks[j])
            && blocks[k] == b
            && (forall j :: k < j < |blocks| ==> blocks[j] == r.blocks[j - 1])
  {
  }

  lemma InsertOrder(r: Region, k: nat, b: Block, blocks: seq<Block>, i: nat, j: nat)
    requires RegionOk(r) && k <= |r.blocks|
    requires b.addr == GapStart(r, k) && GapFits(r, k, HEADER + b.size)
    requires blocks == Insert(r, k, b).blocks && i < j < |blocks|
    ensures blocks[i].End() <= blocks[j].addr
  {
    InsertIndex(r, k, b);
    if j == k {
      assert i == k - 1 || r.blocks[i].End() <= r.blocks[k - 1].addr;
    } else if i == k {
      assert j == k + 1 || r.blocks[k].End() <= r.blocks[j - 1].addr;
    } else {
      var i', j' := if i < k then i else i - 1, if j < k then j else j - 1;
      assert r.blocks[i'].End() <= r.blocks[j'].addr;
    }
  }

  lemma InsertGeometry(r: Region, k: nat, b: Block)
    requires RegionOk(r) && k <= |r.blocks|
    requires b.addr == GapStart(r, k) && GapFits(r, k, HEADER + b.size)
    requires b.req + ALIGNMENT + ALIGN_INFO <= b.size
    ensures RegionOk(Insert(r, k, b))
  {
    var blocks := Insert(r, k, b).blocks;
    forall i, j | 0 <= i < j < |blocks|
      ensures blocks[i].End() <= blocks[j].addr
    {
      InsertOrder(r, k, b, blocks, i, j);
    }
    forall j | 0 <= j < |blocks|
      ensures r.base + HEADER <= blocks[j].addr && blocks[j].End() <= r.End()
      ensures blocks[j].req + ALIGNMENT + ALIGN_INFO <= blocks[j].size
    {
      InsertIndex(r, k, b);
      if j != k {
        assert blocks[j] == r.blocks[if j < k then j else j - 1];
      }
    }
  }

  lemma InsertSums(r: Region, k: nat, b: Block)
    requires k <= |r.blocks|
    ensures Usage(Insert(r, k, b)) == Usage(r) + b.size + HEADER
    ensures Sizes(Insert(r, k, b).blocks) == Sizes(r.blocks) + b.size
  {
    assert r.blocks == r.blocks[..k] + r.blocks[k..];
    UsedConcat(r.blocks[..k], r.blocks[k..]);
    UsedConcat(r.blocks[..k] + [b], r.blocks[k..]);
    UsedConcat(r.blocks[..k], [b]);
  }

  lemma RemoveIndex(r: Region, k: nat)
    requires k < |r.blocks|
    ensures var blocks := Remove(r, k).blocks;
            && |blocks| + 1 == |r.blocks|
            && (forall j :: 0 <= j < k ==> blocks[j] == r.blocks[j])
            && (forall j :: k <= j < |blocks| ==> blocks[j] == r.blocks[j + 1])
  {
  }

  lemma RemoveGeometry(r: Region, k: nat)
    requires RegionOk(r) && k < |r.blocks|
    ensures RegionOk(Remove(r, k))
  {
    var blocks := Remove(r, k).blocks;
    assert forall j :: 0 <= j < k ==> blocks[j] == r.blocks[j];
    assert forall j :: k <= j < |blocks| ==> blocks[j] == r.blocks[j + 1];
  }

  lemma RemoveSums(r: Region, k: nat)
    requires k < |r.blocks|
    ensures Usage(Remove(r, k)) == Usage(r) - r.blocks[k].size - HEADER
    ensures Sizes(Remove(r, k).blocks) == Sizes(r.blocks) - r.blocks[k].size
  {
    var tail := [r.blocks[k]] + r.blocks[k + 1..];
    assert r.blocks == r.blocks[..k] + tail;
    UsedConcat(r.blocks[..k], tail);
    UsedConcat([r.blocks[k]], r.blocks[k + 1..]);
    UsedConcat(r.blocks[..k], r.blocks[k + 1..]);
  }

  // ---------- the live allocations as a set ----------

  ghost predicate LiveBlock(heap: Layout, b: Block) {
    exists i, k :: 0 <= i < |heap| && 0 <= k < |heap[i].blocks| && heap[i].blocks[k] == b
  }

  /** `heap'` has exactly the allocations of `heap` and `b`. */
  ghost predicate OneMore(heap: Layout, heap': Layout, b: Block) {
    forall c :: LiveBlock(heap', c) <==> LiveBlock(heap, c) || c == b
  }

  /** `heap'` has exactly the allocations of `heap` without `b`. */
  ghost predicate OneLess(heap: Layout, heap': Layout, b: Block) {
    forall c :: LiveBlock(heap', c) <==> LiveBlock(heap, c) && c != b
  }

  lemma InsertLive(heap: Layout, i: nat, k: nat, b: Block)
    requires i < |heap| && k <= |heap[i].blocks|
    ensures OneMore(heap, heap[i := Insert(heap[i], k, b)], b)
  {
    var heap' := heap[i := Insert(heap[i], k, b)];
    InsertIndex(heap[i], k, b);
    forall c ensures LiveBlock(heap', c) <==> LiveBlock(heap, c) || c == b {
      if LiveBlock(heap', c) && c != b {
        var j, o :| 0 <= j < |heap'| && 0 <= o < |heap'[j].blocks| && heap'[j].blocks[o] == c;
        assert heap[j].blocks[if j == i && k < o then o - 1 else o] == c;
      }
      if LiveBlock(heap, c) {
        var j, o :| 0 <= j < |heap| && 0 <= o < |heap[j].blocks| && heap[j].blocks[o] == c;
        assert heap'[j].blocks[if j == i && k <= o then o + 1 else o] == c;
      }
      if c == b {
        assert heap'[i].blocks[k] == c;
      }
    }
  }

  lemma RemainingWasLive(heap: Layout, top: nat, i: nat, k: nat, c: Block)
    requires LayoutOk(heap, top) && i < |heap| && k < |heap[i].blocks|
    requires LiveBlock(heap[i := Remove(heap[i], k)], c)
    ensures LiveBlock(heap, c) && c != heap[i].blocks[k]
  {
    hide Remove, LayoutOk;
    var heap' := heap[i := Remove(heap[i], k)];
    RemoveIndex(heap[i], k);
    var j, o :| 0 <= j < |heap'| && 0 <= o < |heap'[j].blocks| && heap'[j].blocks[o] == c;
    var o' := if j == i && k <= o then o + 1 else o;
    assert heap[j].blocks[o'] == c;
    BlocksDisjoint(heap, top, i, k, j, o');
  }

  lemma OthersRemain(heap: Layout, i: nat, k: nat, c: Block)
    requires i < |heap| && k < |heap[i].blocks|
    requires LiveBlock(heap, c) && c != heap[i].blocks[k]
    ensures LiveBlock(heap[i := Remove(heap[i], k)], c)
  {
    hide Remove;
    var heap' := heap[i := Remove(heap[i], k)];
    RemoveIndex(heap[i], k);
    var j, o :| 0 <= j < |heap| && 0 <= o < |heap[j].blocks| && heap[j].blocks[o] == c;
    assert heap'[j].blocks[if j == i && k < o then o - 1 else o] == c;
  }

  lemma RemoveLive(heap: Layout, top: nat, i: nat, k: nat)
    requires LayoutOk(heap, top) && i < |heap| && k < |heap[i].blocks|
    ensures OneLess(heap, heap[i := Remove(heap[i], k)], heap[i].blocks[k])
  {
    hide Remove, LayoutOk, LiveBlock;
    var b, heap' := heap[i].blocks[k], heap[i := Remove(heap[i], k)];
    forall c ensures LiveBlock(heap', c) <==> LiveBlock(heap, c) && c != b {
      if LiveBlock(heap', c) { RemainingWasLive(heap, top, i, k, c); }
      if LiveBlock(heap, c) && c != b { OthersRemain(heap, i, k, c); }
    }
  }

  /** Majors without allocations do not matter to what is live. */
  lemma EmptyRegionLive(heap: Layout, i: nat)
    requires i < |heap| && heap[i].blocks == []
    ensures forall c :: LiveBlock(heap[..i] + heap[i + 1..], c) <==> LiveBlock(heap, c)
  {
    var heap' := heap[..i] + heap[i + 1..];
    forall c ensures LiveBlock(heap', c) <==> LiveBlock(heap, c) {
      if LiveBlock(heap', c) {
        var j, o :| 0 <= j < |heap'| && 0 <= o < |heap'[j].blocks| && heap'[j].blocks[o] == c;
        assert heap[if j < i then j else j + 1].blocks[o] == c;
      }
      if LiveBlock(heap, c) {
        var j, o :| 0 <= j < |heap| && 0 <= o < |heap[j].blocks| && heap[j].blocks[o] == c;
        assert heap'[if j < i then j else j - 1].blocks[o] == c;
      }
    }
  }

  /** Distinct allocations never overlap, headers included, and lie between the headers of their majors. */
  lemma BlocksDisjoint(heap: Layout, top: nat, i: nat, k: nat, i': nat, k': nat)
    requires LayoutOk(heap, top) && i < |heap| && k < |heap[i].blocks|
    requires i' < |heap| && k' < |heap[i'].blocks| && (i != i' || k != k')
    ensures heap[i].blocks[k].End() <= heap[i'].blocks[k'].addr || heap[i'].blocks[k'].End() <= heap[i].blocks[k].addr
  {
    assert RegionOk(heap[i]) && RegionOk(heap[i']);
    if i == i' {
      BlocksApart(heap[i], k, k');
    } else {
      assert heap[i].End() <= heap[i'].base || heap[i'].End() <= heap[i].base;
      assert heap[i].base + HEADER <= heap[i].blocks[k].addr && heap[i].blocks[k].End() <= heap[i].End();
      assert heap[i'].base + HEADER <= heap[i'].blocks[k'].addr && heap[i'].blocks[k'].End() <= heap[i'].End();
    }
  }
}
