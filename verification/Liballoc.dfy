/**
 The allocator itself, in the form of kernel/kernel/mem/liballoc.c and libc/malloc/liballoc.c: all
 state is bytes in memory plus a few static variables. The ghost field `layout` is what the bytes mean.
 The two copies of the source are one class; `kernel` selects the copy that releases empty majors.
 */
module Liballoc {
  import opened Bytes
  import opened HeapLayout
  import opened HeapImage

  const PAGE_COUNT: nat := 16

  // ---------- request arithmetic, in 32-bit words ----------

  /** The padded size `malloc` works with. */
  function PaddedSize(req: word): word {
    (req + ALIGNMENT + ALIGN_INFO) % 0x1_0000_0000
  }

  /** The number of pages asked for when a new major is needed. */
  function PagesFor(size: word): (pages: nat)
    ensures PAGE_COUNT <= pages
  {
    var st := (size + HEADER + HEADER) % 0x1_0000_0000;
    var pages := if st % PAGE == 0 then st / PAGE else st / PAGE + 1;
    if pages < PAGE_COUNT then PAGE_COUNT else pages
  }

  /** A caller can check this before the call: the request and its bookkeeping fit the address space. */
  predicate RequestOk(req: word) {
    req + 80 <= 0x1_0000_0000 - PAGE
  }

  /** Up to that bound, and not one byte further, no 32-bit computation on the way wraps around. */
  lemma RequestArithmetic(req: word)
    ensures RequestOk(req) <==>
            && PaddedSize(req) == req + ALIGNMENT + ALIGN_INFO
            && PaddedSize(req) + HEADER + HEADER <= (PagesFor(PaddedSize(req)) * PAGE) % 0x1_0000_0000
  {
    var size := PaddedSize(req);
    if RequestOk(req) {
      var st := size + HEADER + HEADER;
      assert st % 0x1_0000_0000 == st;
      assert st <= PagesFor(size) * PAGE < 0x1_0000_0000;
    } else if size == req + ALIGNMENT + ALIGN_INFO {
      if size + HEADER + HEADER < 0x1_0000_0000 {
        assert PagesFor(size) == 0x10_0000;
      } else {
        assert PagesFor(size) == PAGE_COUNT;
      }
    }
  }

  /** A new major has 16 pages, or the least number that holds the padded size and two headers. */
  lemma PagesLeast(size: word)
    requires size + 48 < 0x1_0000_0000
    ensures var n := PagesFor(size);
            16 <= n && size + 48 <= n * 4096 && (n == 16 || (n - 1) * 4096 < size + 48)
  {
    var st := size + 48;
    if st % PAGE == 0 {
      assert st == st / PAGE * PAGE;
    } else {
      assert st / PAGE * PAGE < st < (st / PAGE + 1) * PAGE;
    }
  }

  /** That number is the only one. */
  lemma LeastIsOne(bytes: nat, n: nat, m: nat)
    requires 16 <= n && bytes <= n * 4096 && (n == 16 || (n - 1) * 4096 < bytes)
    requires 16 <= m && bytes <= m * 4096 && (m == 16 || (m - 1) * 4096 < bytes)
    ensures n == m
  {
  }

  /** Header and padded bytes, as the search compares them with the free bytes of a major. */
  function Demand(req: word): word { (PaddedSize(req) + HEADER) % 0x1_0000_0000 }

  /** The size a new major records for this request. */
  function MajorSize(req: word): word { (PagesFor(PaddedSize(req)) * PAGE) % 0x1_0000_0000 }

  /**
   Every request beyond the bound. In the last 32 bytes of the range the padded size wraps to less than 32, and a
   block of that size leaves at most 15 bytes for the payload; in the 24 below, what the search looks for wraps to
   less than 24 bytes; in the 24 below these a major of 64 KiB is made for it, and in the 4095 below, one of size 0.
   */
  lemma WrappedRequest(req: word)
    requires !RequestOk(req)
    ensures PaddedSize(req) == if req < 0xFFFF_FFE0 then req + 32 else req - 0xFFFF_FFE0
    ensures 0xFFFF_FFE0 <= req ==> forall a: nat :: a + PaddedSize(req) <= AlignUp(a) + 15
    ensures Demand(req) == if req < 0xFFFF_FFC8 then req + 56 else req - 0xFFFF_FFC8
    ensures 0xFFFF_FFC8 <= req < 0xFFFF_FFE0 ==> Demand(req) < HEADER
    ensures PagesFor(PaddedSize(req)) == if req < 0xFFFF_FFB0 then 0x10_0000 else PAGE_COUNT
    ensures MajorSize(req) == if req < 0xFFFF_FFB0 then 0 else 0x1_0000
  {
    forall a: nat ensures a + ALIGN_INFO <= AlignUp(a) { }
  }

  /** `heap'` is `heap` with a block of `size` bytes for a request of `req` placed in gap `k` of major `i`. */
  ghost predicate PlacedAt(heap: Layout, heap': Layout, i: nat, k: nat, size: nat, req: nat, p: nat) {
    && i < |heap| && k <= |heap[i].blocks|
    && GapFits(heap[i], k, HEADER + size)
    && var b := Block(GapStart(heap[i], k), size, req);
       heap' == heap[i := Insert(heap[i], k, b)] && p == b.Payload()
  }

  ghost predicate Placed(heap: Layout, heap': Layout, size: nat, req: nat, p: nat) {
    exists i, k :: PlacedAt(heap, heap', i, k, size, req, p)
  }

  /** The placement above, and no other byte than its major's bookkeeping and the new block is written. */
  ghost predicate PlacedOnly(ram: seq<byte>, heap: Layout, ram': seq<byte>, heap': Layout,
                             i: nat, k: nat, size: nat, req: nat, p: nat) {
    && PlacedAt(heap, heap', i, k, size, req, p)
    && PayloadsKept(heap, ram, ram')
    && |ram'| == |ram|
    && forall x :: 0 <= x < |ram| && !(heap[i].base <= x < heap[i].End()) ==> ram'[x] == ram[x]
  }

  lemma FreshTotals(heap: Layout, r: Region)
    requires r.blocks == []
    ensures InUse(heap + [r]) == InUse(heap)
    ensures Allocated(heap + [r]) == Allocated(heap) + r.pages * PAGE
  {
    TotalsConcat(heap, [r]);
  }

  lemma WritesInRegion(r: Region, k: nat, b: Block)
    requires CanInsert(r, k, b)
    ensures forall x :: PlacementWrites(r, k, b, x) ==> r.base <= x < r.End()
  {
    SlotInRegion(r, k, b);
  }

  /** The major a request of `size` padded bytes makes the allocator add at `top`. */
  function FreshMajor(top: nat, size: word): Region {
    Region(top, PagesFor(size), [])
  }

  /** The layout after freeing minor `k` of major `i`: only the kernel copy gives an emptied major back. */
  ghost function AfterFree(heap: Layout, i: nat, k: nat, kernel: bool): Layout
    requires i < |heap| && k < |heap[i].blocks|
  {
    var r := Remove(heap[i], k);
    if kernel && r.blocks == [] then heap[..i] + heap[i + 1..] else heap[i := r]
  }

  lemma KeptAfterRemove(heap: Layout, i: nat, k: nat, ram: seq<byte>, ram': seq<byte>)
    requires i < |heap| && k < |heap[i].blocks| && PayloadsKept(heap, ram, ram')
    ensures PayloadsKept(heap[i := Remove(heap[i], k)], ram, ram')
  {
    var heap' := heap[i := Remove(heap[i], k)];
    forall j, o | 0 <= j < |heap'| && 0 <= o < |heap'[j].blocks|
      ensures Agree(ram, ram', heap'[j].blocks[o].Payload(), heap'[j].blocks[o].End())
    {
      var o' := if j == i && k <= o then o + 1 else o;
      assert heap'[j].blocks[o] == heap[j].blocks[o'];
    }
  }

  lemma KeptAfterDrop(heap: Layout, i: nat, ram: seq<byte>, ram1: seq<byte>, ram2: seq<byte>)
    requires i < |heap| && PayloadsKept(heap, ram, ram1)
    requires PayloadsKept(heap[..i] + heap[i + 1..], ram1, ram2)
    ensures PayloadsKept(heap[..i] + heap[i + 1..], ram, ram2)
  {
    var heap' := heap[..i] + heap[i + 1..];
    forall j, o | 0 <= j < |heap'| && 0 <= o < |heap'[j].blocks|
      ensures Agree(ram, ram2, heap'[j].blocks[o].Payload(), heap'[j].blocks[o].End())
    {
      var j' := if j < i then j else j + 1;
      assert heap'[j] == heap[j'];
      assert Agree(ram, ram1, heap[j'].blocks[o].Payload(), heap[j'].blocks[o].End());
      assert Agree(ram1, ram2, heap'[j].blocks[o].Payload(), heap'[j].blocks[o].End());
    }
  }

  /** `b` is the one allocation that is new, and `p` is its payload. */
  ghost predicate Served(heap: Layout, heap': Layout, b: Block, req: nat, p: nat) {
    && b.Payload() == p && b.req == req && b.size == req + ALIGNMENT + ALIGN_INFO
    && !LiveBlock(heap, b) && OneMore(heap, heap', b)
  }

  lemma PlacedServed(heap: Layout, heap': Layout, top: nat, i: nat, k: nat, size: nat, req: nat, p: nat)
    requires LayoutOk(heap', top) && PlacedAt(heap, heap', i, k, size, req, p)
    requires size == req + ALIGNMENT + ALIGN_INFO
    ensures Served(heap, heap', Block(GapStart(heap[i], k), size, req), req, p)
  {
    hide LayoutOk;
    var b := Block(GapStart(heap[i], k), size, req);
    InsertIndex(heap[i], k, b);
    InsertLive(heap, i, k, b);
    assert heap'[i].blocks[k] == b;
    if LiveBlock(heap, b) {
      var j, o :| 0 <= j < |heap| && 0 <= o < |heap[j].blocks| && heap[j].blocks[o] == b;
      var o' := if j == i && k <= o then o + 1 else o;
      assert heap'[j].blocks[o'] == b;
      BlocksDisjoint(heap', top, i, k, j, o');
    }
  }

  lemma FreshLive(heap: Layout, r: Region)
    requires r.blocks == []
    ensures forall c :: LiveBlock(heap + [r], c) <==> LiveBlock(heap, c)
  {
    EmptyRegionLive(heap + [r], |heap|);
    assert (heap + [r])[..|heap|] + (heap + [r])[|heap| + 1..] == heap;
  }

  lemma FreedLive(heap: Layout, top: nat, i: nat, k: nat, kernel: bool)
    requires LayoutOk(heap, top) && i < |heap| && k < |heap[i].blocks|
    ensures OneLess(heap, AfterFree(heap, i, k, kernel), heap[i].blocks[k])
  {
    hide LayoutOk, LiveBlock, Remove;
    var heap1 := heap[i := Remove(heap[i], k)];
    RemoveLive(heap, top, i, k);
    if kernel && heap1[i].blocks == [] {
      EmptyRegionLive(heap1, i);
      assert heap1[..i] == heap[..i] && heap1[i + 1..] == heap[i + 1..];
    }
  }

  /** What realloc promises for a live allocation `b` and a new size above 0. */
  ghost predicate Reallocated(heap: Layout, ram: seq<byte>, heap': Layout, ram': seq<byte>, b: Block, nb: Block, size: nat, q: nat) {
    && |ram'| == |ram|
    && nb.Payload() == q && nb.req == size && q + size <= nb.End() <= |ram|
    && b.Payload() + b.req <= b.End() <= |ram|
    // exactly `b` is replaced by `nb`
    && (forall c :: LiveBlock(heap', c) <==> (LiveBlock(heap, c) && c != b) || c == nb)
    // the first min(old, new) bytes are the old ones
    && Copied(ram, b.Payload(), ram', q, if b.req < size then b.req else size)
    // no other allocation is disturbed
    && (forall c :: LiveBlock(heap, c) && c != b ==> Agree(ram, ram', c.Payload(), c.End()))
  }

  lemma IsLive(heap: Layout, i: nat, k: nat)
    requires i < |heap| && k < |heap[i].blocks|
    ensures LiveBlock(heap, heap[i].blocks[k])
  {
  }

  lemma KeptReflexive(heap: Layout, ram: seq<byte>)
    ensures PayloadsKept(heap, ram, ram)
  {
  }

  lemma EmptyHasNoRoom(need: nat)
    ensures !HasRoom([], need)
  {
  }

  lemma NoRoomAnywhere(heap: Layout, need: nat)
    requires forall j :: 0 <= j < |heap| ==> !RegionHasRoom(heap[j], need)
    ensures !HasRoom(heap, need)
  {
  }

  /** A new major always has room in front for the request it was made for. */
  lemma FreshHasRoom(top: nat, size: word)
    requires 0 < top && size + HEADER + HEADER <= PagesFor(size) * PAGE
    ensures RegionOk(FreshMajor(top, size)) && GapFits(FreshMajor(top, size), 0, HEADER + size)
    ensures RegionHasRoom(FreshMajor(top, size), HEADER + size)
    ensures Usage(FreshMajor(top, size)) == HEADER
  {
    GapIsFree(FreshMajor(top, size), 0, HEADER + size);
  }

  class Heap {
    const kernel: bool
    var ram: seq<byte>
    var memRoot: nat
    var bestBet: nat
    var allocatedBytes: nat
    var inuseBytes: nat
    var warningCount: nat
    var errorCount: nat
    var possibleOverruns: nat
    // the page source: a bump pointer and the number of pages it can still supply
    var top: nat
    var budget: nat
    ghost var layout: Layout

    /** Holds at every point where no header is half written. */
    ghost predicate Consistent()
      reads this
    {
      && 0 < top <= |ram| < 0x1_0000_0000
      && LayoutOk(layout, top)
      && Encoded(ram, layout)
      && memRoot == (if layout == [] then 0 else layout[0].base)
      && (bestBet == 0 || exists i :: 0 <= i < |layout| && layout[i].base == bestBet)
      && inuseBytes == InUse(layout)
      && allocatedBytes == Allocated(layout)
    }

    /** The kernel copy never keeps an empty major. */
    ghost predicate Valid()
      reads this
    {
      Consistent() && (kernel ==> forall i :: 0 <= i < |layout| ==> layout[i].blocks != [])
    }

    predicate CanGrow(pages: nat)
      reads this
    {
      pages <= budget && top + pages * PAGE <= |ram|
    }

    constructor (kernel: bool, ram: seq<byte>, top: nat, budget: nat)
      requires 0 < top <= |ram| < 0x1_0000_0000
      ensures Valid() && layout == []
      ensures this.kernel == kernel && this.ram == ram && this.top == top && this.budget == budget
    {
      this.kernel, this.ram, this.top, this.budget := kernel, ram, top, budget;
      memRoot, bestBet, allocatedBytes, inuseBytes := 0, 0, 0, 0;
      warningCount, errorCount, possibleOverruns := 0, 0, 0;
      layout := [];
    }

    /**
     Other users of the page source: kernel page tables, directories and buffers, or a program's own sbrk. They
     take `|bytes|` bytes at the top and write what they like there.
     */
    method TakenByOthers(bytes: seq<byte>)
      requires Valid() && |bytes| % PAGE == 0 && CanGrow(|bytes| / PAGE)
      modifies this`ram, this`top, this`budget
      ensures Valid() && top == old(top) + |bytes| && budget == old(budget) - |bytes| / PAGE
      ensures ram == Poke(old(ram), old(top), bytes) && PayloadsKept(layout, old(ram), ram)
    {
      hide MajorAt, MinorAt, RegionOk, InUse, Allocated, MajorEncoded, RegionEncoded;
      ram := Poke(ram, top, bytes);
      AboveTop(old(ram), ram, layout, top);
      top, budget := top + |bytes|, budget - |bytes| / PAGE;
    }

    // ---------- field stores ----------

    method WriteMajor(a: nat, h: MajorHeader)
      requires a + HEADER <= |ram| && h.Fits()
      modifies this`ram
      ensures ram == StoreMajor(old(ram), a, h) && |ram| == |old(ram)|
      ensures MajorAt(ram, a) == h
      ensures forall x :: 0 <= x < |ram| && !(a <= x < a + HEADER) ==> ram[x] == old(ram)[x]
      ensures forall c: nat :: c + HEADER <= |ram| && (c + HEADER <= a || a + HEADER <= c) ==>
                MajorAt(ram, c) == MajorAt(old(ram), c) && MinorAt(ram, c) == MinorAt(old(ram), c)
    {
      hide MajorAt, MinorAt, StoreMajor;
      MajorStored(ram, a, h);
      ram := StoreMajor(ram, a, h);
    }

    method WriteMinor(a: nat, h: MinorHeader)
      requires a + HEADER <= |ram| && h.Fits()
      modifies this`ram
      ensures ram == StoreMinor(old(ram), a, h) && |ram| == |old(ram)|
      ensures MinorAt(ram, a) == h
      ensures forall x :: 0 <= x < |ram| && !(a <= x < a + HEADER) ==> ram[x] == old(ram)[x]
      ensures forall c: nat :: c + HEADER <= |ram| && (c + HEADER <= a || a + HEADER <= c) ==>
                MajorAt(ram, c) == MajorAt(old(ram), c) && MinorAt(ram, c) == MinorAt(old(ram), c)
    {
      hide MajorAt, MinorAt, StoreMinor;
      MinorStored(ram, a, h);
      ram := StoreMinor(ram, a, h);
    }

    /** Moves a raw pointer up to its payload and notes the distance in front of it. */
    method Align(q: nat) returns (p: nat)
      requires AlignUp(q) <= |ram|
      modifies this`ram
      ensures p == AlignUp(q)
      ensures |ram| == |old(ram)| && ram[p - ALIGN_INFO] == p - q
      ensures forall x :: 0 <= x < |ram| && x != p - ALIGN_INFO ==> ram[x] == old(ram)[x]
      ensures forall c: nat :: c + HEADER <= |ram| && !(c <= p - ALIGN_INFO < c + HEADER) ==>
                MajorAt(ram, c) == MajorAt(old(ram), c) && MinorAt(ram, c) == MinorAt(old(ram), c)
    {
      hide MajorAt, MinorAt;
      p := q + ALIGN_INFO;
      var diff := p % ALIGNMENT;
      if diff != 0 {
        diff := ALIGNMENT - diff;
        p := p + diff;
      }
      ram := Poke(ram, p - ALIGN_INFO, [diff + ALIGN_INFO]);
      forall c: nat | c + HEADER <= |ram| && !(c <= p - ALIGN_INFO < c + HEADER)
        ensures MajorAt(ram, c) == MajorAt(old(ram), c) && MinorAt(ram, c) == MinorAt(old(ram), c)
      {
        SixLoadsAgree(old(ram), ram, c);
      }
    }

    /** Recovers the raw pointer from a payload pointer. */
    function Unalign(p: nat): nat
      requires ALIGN_INFO <= p && p - ALIGN_INFO < |ram|
      reads this`ram
    {
      var diff := ram[p - ALIGN_INFO];
      if diff < ALIGNMENT + ALIGN_INFO && diff <= p then p - diff else p
    }

    /** What a caller of a placement knows about the slot it chose. */
    lemma FitFacts(i: nat, k: nat, b: Block)
      requires Consistent() && i < |layout| && k <= |layout[i].blocks|
      requires b.addr == GapStart(layout[i], k) && GapFits(layout[i], k, HEADER + b.size)
      requires b.size == b.req + ALIGNMENT + ALIGN_INFO
      ensures CanInsert(layout[i], k, b)
      ensures layout[i].base + HEADER <= b.addr && b.End() <= layout[i].End() <= top
      ensures forall x :: NearSlot(layout[i], k, b, x) ==> layout[i].base + HEADER <= x < layout[i].End()
      ensures forall x :: b.addr <= x < b.End() ==> NearSlot(layout[i], k, b, x)
      ensures MajorAt(ram, layout[i].base) == ExpectedMajor(layout, i)
      ensures Usage(layout[i]) + b.size + HEADER <= layout[i].pages * PAGE < 0x1_0000_0000
    {
      hide MajorAt, MinorAt;
      RegionWithin(layout, top, i);
      assert MajorEncoded(ram, layout, i);
      SlotInRegion(layout[i], k, b);
      GapsWithinFree(layout[i], k);
    }

    /** The neighbours of a slot, as far as a placement touches them. */
    lemma NeighbourFacts(i: nat, k: nat, b: Block)
      requires Consistent() && i < |layout| && k <= |layout[i].blocks|
      requires b.addr == GapStart(layout[i], k) && GapFits(layout[i], k, HEADER + b.size)
      ensures 0 < k ==>
                var c := layout[i].blocks[k - 1];
                && layout[i].base + HEADER <= c.addr && c.End() == b.addr && c.addr < top
                && MinorAt(ram, c.addr) == ExpectedMinor(layout[i], k - 1)
                && forall x :: c.addr <= x < c.addr + HEADER ==> NearSlot(layout[i], k, b, x)
      ensures k < |layout[i].blocks| ==>
                var c := layout[i].blocks[k];
                && b.End() <= c.addr && c.addr + HEADER <= top
                && MinorAt(ram, c.addr) == ExpectedMinor(layout[i], k)
                && forall x :: c.addr <= x < c.addr + HEADER ==> NearSlot(layout[i], k, b, x)
    {
      hide MinorAt, MajorAt;
      RegionWithin(layout, top, i);
      assert RegionEncoded(ram, layout[i]);
      if 0 < k {
        assert MinorEncoded(ram, layout[i], k - 1);
      }
      if k < |layout[i].blocks| {
        assert MinorEncoded(ram, layout[i], k);
        BlockInRegion(layout[i], k);
      }
    }

    /** Takes the placed block into the layout. */
    ghost method Commit(ram0: seq<byte>, i: nat, k: nat, b: Block)
      requires 0 < top <= |ram| == |ram0| < 0x1_0000_0000
      requires LayoutOk(layout, top) && Encoded(ram0, layout) && i < |layout|
      requires CanInsert(layout[i], k, b)
      requires AlignByteOk(ram, b)
      requires MinorAt(ram, b.addr) == MinorHeader(if k == 0 then 0 else layout[i].blocks[k - 1].addr,
                                                   if k == |layout[i].blocks| then 0 else layout[i].blocks[k].addr,
                                                   layout[i].base, MAGIC, b.size, b.req)
      requires 0 < k ==> MinorAt(ram, layout[i].blocks[k - 1].addr) == ExpectedMinor(layout[i], k - 1).(next := b.addr)
      requires k < |layout[i].blocks| ==> MinorAt(ram, layout[i].blocks[k].addr) == ExpectedMinor(layout[i], k).(prev := b.addr)
      requires MajorAt(ram, layout[i].base) ==
               ExpectedMajor(layout, i).(usage := Usage(layout[i]) + b.size + HEADER,
                                         first := if k == 0 then b.addr else FirstOf(layout[i]))
      requires forall x :: 0 <= x < |ram| && !PlacementWrites(layout[i], k, b, x) ==> ram[x] == ram0[x]
      requires memRoot == layout[0].base
      requires bestBet == 0 || exists j :: 0 <= j < |layout| && layout[j].base == bestBet
      requires inuseBytes == InUse(layout) + b.size && allocatedBytes == Allocated(layout)
      modifies this`layout
      ensures Consistent()
      ensures PlacedOnly(ram0, old(layout), ram, layout, i, k, b.size, b.req, b.Payload())
    {
      hide MajorAt, MinorAt, RegionOk, LayoutOk, Encoded, AlignByteOk, PayloadsKept, InUse, Allocated;
      var heap' := layout[i := Insert(layout[i], k, b)];
      InsertIndex(layout[i], k, b);
      InsertSums(layout[i], k, b);
      TotalsUpdate(layout, i, Insert(layout[i], k, b));
      PlacedHeap(ram0, ram, layout, top, i, k, b);
      WritesInRegion(layout[i], k, b);
      assert forall j :: 0 <= j < |layout| ==> heap'[j].base == layout[j].base;
      layout := heap';
    }

    // ---------- requests that wrap around ----------

    /** A major of 16 pages at the top. */
    method SixteenPages() returns (maj: nat)
      requires 0 < top && CanGrow(PAGE_COUNT) && |ram| < 0x1_0000_0000
      modifies this`ram, this`allocatedBytes, this`top, this`budget
      ensures maj == old(top) && top == maj + 0x1_0000 && budget == old(budget) - PAGE_COUNT && |ram| == |old(ram)|
      ensures MajorAt(ram, maj) == MajorHeader(0, 0, PAGE_COUNT, 0x1_0000, HEADER, 0)
      ensures forall c: nat :: c + HEADER <= maj ==> MajorAt(ram, c) == MajorAt(old(ram), c)
    {
      hide MajorAt, MinorAt;
      maj := top;
      top, budget := top + 0x1_0000, budget - PAGE_COUNT;
      WriteMajor(maj, MajorHeader(0, 0, PAGE_COUNT, 0x1_0000, HEADER, 0));
      allocatedBytes := allocatedBytes + 0x1_0000;
    }

    /**
     The first request of an empty heap when it wraps around. What it is given lies in a major of 64 KiB and is
     recorded with the requested size, which reaches far beyond that major.
     */
    method FirstWrapped(req: word) returns (p: nat, ghost maj: nat)
      requires Consistent() && layout == [] && bestBet == 0
      requires 0xFFFF_FFB0 <= req && req != 0xFFFF_FFE0 && CanGrow(2 * PAGE_COUNT)
      modifies this`ram, this`memRoot, this`bestBet, this`allocatedBytes, this`inuseBytes, this`top, this`budget
      ensures maj == if req < 0xFFFF_FFC8 then old(top) + 0x1_0000 else old(top)
      ensures |ram| == |old(ram)| && maj + 0x1_0000 == top <= |ram| && p == AlignUp(maj + HEADER + HEADER)
      ensures MajorAt(ram, maj).size == 0x1_0000 && MajorAt(ram, maj).first == maj + HEADER
      ensures MinorAt(ram, maj + HEADER) == MinorHeader(0, 0, maj, MAGIC, PaddedSize(req), req)
      ensures p < maj + 0x1_0000 < p + req
    {
      hide MajorAt, MinorAt, Encoded, LayoutOk;
      WrappedRequest(req);
      var size := PaddedSize(req);
      var m := SixteenPages();
      memRoot := m;
      bestBet := m;
      if MajorAt(ram, m).size - MajorAt(ram, m).usage < (size + HEADER) % 0x1_0000_0000 {
        var next := SixteenPages();
        WriteMajor(m, MajorAt(ram, m).(next := next));
        WriteMajor(next, MajorAt(ram, next).(prev := m));
        m := next;
      }
      maj := m;
      p := StoreWrapped(m, size, req);
    }

    /** The stores of case 2, in 32 bits. */
    method StoreWrapped(m: nat, size: word, req: word) returns (p: nat)
      requires m + 0x1_0000 == top <= |ram| < 0x1_0000_0000 && MajorAt(ram, m).size == 0x1_0000
      modifies this`ram, this`inuseBytes
      ensures |ram| == |old(ram)| && p == AlignUp(m + HEADER + HEADER)
      ensures MajorAt(ram, m).size == 0x1_0000 && MajorAt(ram, m).first == m + HEADER
      ensures MinorAt(ram, m + HEADER) == MinorHeader(0, 0, m, MAGIC, size, req)
    {
      hide MajorAt, MinorAt;
      WriteMajor(m, MajorAt(ram, m).(first := m + HEADER));
      WriteMinor(m + HEADER, MinorHeader(0, 0, m, MAGIC, size, req));
      WriteMajor(m, MajorAt(ram, m).(usage := (MajorAt(ram, m).usage + size + HEADER) % 0x1_0000_0000));
      inuseBytes := (inuseBytes + size) % 0x1_0000_0000;
      p := Align(m + HEADER + HEADER);
    }

    // ---------- placing a block: cases 2, 3 and 4 of malloc ----------

    /** The stores all cases share: the new header, the major's counters and the alignment byte. */
    method StoreBlock(maj: nat, first: nat, newMin: nat, h: MinorHeader) returns (p: nat)
      requires maj + HEADER <= newMin && newMin + HEADER + h.size <= |ram| < 0x1_0000_0000
      requires h.Fits() && ALIGNMENT + ALIGN_INFO <= h.size && first < 0x1_0000_0000
      requires MajorAt(ram, maj).usage + h.size + HEADER < 0x1_0000_0000
      modifies this`ram, this`inuseBytes
      ensures |ram| == |old(ram)| && p == AlignUp(newMin + HEADER) && inuseBytes == old(inuseBytes) + h.size
      ensures MinorAt(ram, newMin) == h
      ensures MajorAt(ram, maj) == MajorAt(old(ram), maj).(first := first, usage := MajorAt(old(ram), maj).usage + h.size + HEADER)
      ensures AlignByteOk(ram, Block(newMin, h.size, h.reqSize))
      ensures forall x :: 0 <= x < |ram| && !(maj <= x < maj + HEADER) && !(newMin <= x < newMin + HEADER + h.size) ==>
                ram[x] == old(ram)[x]
      ensures forall c: nat :: c + HEADER <= |ram| && (c + HEADER <= newMin || newMin + HEADER + h.size <= c) && maj + HEADER <= c ==>
                MinorAt(ram, c) == MinorAt(old(ram), c)
    {
      hide MajorAt, MinorAt, StoreMajor, StoreMinor;
      WriteMajor(maj, MajorAt(ram, maj).(first := first));
      WriteMinor(newMin, h);
      WriteMajor(maj, MajorAt(ram, maj).(usage := MajorAt(ram, maj).usage + h.size + HEADER));
      inuseBytes := inuseBytes + h.size;
      p := Align(newMin + HEADER);
    }

    /** CASE 2: the major holds nothing yet. */
    method PlaceFirst(maj: nat, size: nat, req: nat, ghost i: nat) returns (p: nat)
      requires Consistent() && i < |layout| && layout[i].base == maj && layout[i].blocks == []
      requires size == req + ALIGNMENT + ALIGN_INFO && GapFits(layout[i], 0, HEADER + size)
      modifies this`ram, this`inuseBytes, this`layout
      ensures Consistent()
      ensures PlacedOnly(old(ram), old(layout), ram, layout, i, 0, size, req, p)
    {
      hide MajorAt, MinorAt, NearSlot, Encoded, LayoutOk, RegionOk, InUse, Allocated, PlacedOnly;
      ghost var b := Block(maj + HEADER, size, req);
      FitFacts(i, 0, b);
      var newMin := maj + HEADER;
      p := StoreBlock(maj, newMin, newMin, MinorHeader(0, 0, maj, MAGIC, size, req));
      Commit(old(ram), i, 0, b);
    }

    /** CASE 3: in front of the first minor. */
    method PlaceFront(maj: nat, size: nat, req: nat, ghost i: nat) returns (p: nat)
      requires Consistent() && i < |layout| && layout[i].base == maj && layout[i].blocks != []
      requires size == req + ALIGNMENT + ALIGN_INFO && GapFits(layout[i], 0, HEADER + size)
      modifies this`ram, this`inuseBytes, this`layout
      ensures Consistent()
      ensures PlacedOnly(old(ram), old(layout), ram, layout, i, 0, size, req, p)
    {
      hide MajorAt, MinorAt, NearSlot, Encoded, LayoutOk, RegionOk, InUse, Allocated, PlacedOnly, AlignByteOk;
      ghost var b := Block(maj + HEADER, size, req);
      FitFacts(i, 0, b);
      NeighbourFacts(i, 0, b);
      var newMin := maj + HEADER;
      var first := MajorAt(ram, maj).first;
      WriteMinor(first, MinorAt(ram, first).(prev := newMin));
      p := StoreBlock(maj, newMin, newMin, MinorHeader(0, first, maj, MAGIC, size, req));
      Commit(old(ram), i, 0, b);
    }

    /** Links a minor to be stored at `newMin` behind `min`, in front of `next` if there is one. */
    method LinkBehind(min: nat, next: nat, newMin: nat)
      requires min + HEADER <= |ram| && newMin < 0x1_0000_0000
      requires next != 0 ==> min + HEADER <= next && next + HEADER <= |ram|
      modifies this`ram
      ensures |ram| == |old(ram)| && MinorAt(ram, min) == MinorAt(old(ram), min).(next := newMin)
      ensures next != 0 ==> MinorAt(ram, next) == MinorAt(old(ram), next).(prev := newMin)
      ensures forall x :: 0 <= x < |ram| && !(min <= x < min + HEADER) && !(next != 0 && next <= x < next + HEADER) ==> ram[x] == old(ram)[x]
      ensures forall c: nat :: c + HEADER <= min ==> MajorAt(ram, c) == MajorAt(old(ram), c)
    {
      hide MajorAt, MinorAt, StoreMinor;
      if next != 0 {
        WriteMinor(next, MinorAt(ram, next).(prev := newMin));
      }
      WriteMinor(min, MinorAt(ram, min).(next := newMin));
    }

    /** CASE 4.1 and CASE 4.2: behind `min`, at the end of the major or in front of the next minor. */
    method PlaceAfter(maj: nat, min: nat, size: nat, req: nat, ghost i: nat, ghost k: nat) returns (p: nat)
      requires Consistent() && i < |layout| && layout[i].base == maj
      requires 0 < k <= |layout[i].blocks| && layout[i].blocks[k - 1].addr == min
      requires size == req + ALIGNMENT + ALIGN_INFO && GapFits(layout[i], k, HEADER + size)
      modifies this`ram, this`inuseBytes, this`layout
      ensures Consistent()
      ensures PlacedOnly(old(ram), old(layout), ram, layout, i, k, size, req, p)
    {
      hide MajorAt, MinorAt, NearSlot, Encoded, LayoutOk, RegionOk, InUse, Allocated, PlacedOnly, AlignByteOk;
      ghost var b := Block(GapStart(layout[i], k), size, req);
      FitFacts(i, k, b);
      NeighbourFacts(i, k, b);
      var newMin := min + HEADER + MinorAt(ram, min).size;
      var next := MinorAt(ram, min).next;
      LinkBehind(min, next, newMin);
      p := StoreBlock(maj, MajorAt(ram, maj).first, newMin, MinorHeader(min, next, maj, MAGIC, size, req));
      Commit(old(ram), i, k, b);
    }

    // ---------- getting more memory ----------

    /** Asks the page source for a major that can hold `size` padded bytes; 0 when it has none. */
    method AllocateNewPage(size: word) returns (maj: nat)
      requires Consistent() && size + HEADER + HEADER < 0x1_0000_0000
      modifies this`ram, this`allocatedBytes, this`warningCount, this`top, this`budget
      ensures maj != 0 <==> old(CanGrow(PagesFor(size)))
      ensures forall n: nat :: 16 <= n && size + 48 <= n * 4096 && (n == 16 || (n - 1) * 4096 < size + 48) ==>
                (maj != 0 <==> n <= old(budget) && old(top) + n * 4096 <= |old(ram)|) && (maj != 0 ==> top == old(top) + n * 4096)
      ensures maj == 0 ==> unchanged(this`ram, this`allocatedBytes, this`top, this`budget) && warningCount == old(warningCount) + 1
      ensures maj != 0 ==>
                var pages := PagesFor(size);
                && maj == old(top) && top == old(top) + pages * PAGE && budget == old(budget) - pages
                && allocatedBytes == old(allocatedBytes) + pages * PAGE && warningCount == old(warningCount)
                && |ram| == |old(ram)| && top <= |ram| && size + HEADER + HEADER <= pages * PAGE
                && MajorAt(ram, maj) == MajorHeader(0, 0, pages, pages * PAGE, HEADER, 0)
                && (forall x :: 0 <= x < |ram| && !(maj <= x < maj + HEADER) ==> ram[x] == old(ram)[x])
                && (forall c: nat :: c + HEADER <= maj ==> MajorAt(ram, c) == MajorAt(old(ram), c))
    {
      hide MajorAt, MinorAt, StoreMajor, Encoded, LayoutOk, InUse, Allocated;
      NumbersOfPages(size);
      var st := (size + HEADER + HEADER) % 0x1_0000_0000;
      if st % PAGE == 0 {
        st := st / PAGE;
      } else {
        st := st / PAGE + 1;
      }
      if st < PAGE_COUNT {
        st := PAGE_COUNT;
      }
      if !CanGrow(st) {
        warningCount := warningCount + 1;
        return 0;
      }
      maj := top;
      top, budget := top + st * PAGE, budget - st;
      WriteMajor(maj, MajorHeader(0, 0, st, st * PAGE, HEADER, 0));
      allocatedBytes := allocatedBytes + st * PAGE;
    }

    /** Takes a fresh major, linked behind the last one, into the layout. */
    ghost method CommitMajor(ram0: seq<byte>, top0: nat, size: word)
      requires 0 < top0 < top == top0 + PagesFor(size) * PAGE <= |ram| == |ram0| < 0x1_0000_0000
      requires LayoutOk(layout, top0) && Encoded(ram0, layout)
      requires MajorAt(ram, top0) == MajorHeader(if layout == [] then 0 else layout[|layout| - 1].base, 0,
                                                 PagesFor(size), PagesFor(size) * PAGE, HEADER, 0)
      requires layout != [] ==> MajorAt(ram, layout[|layout| - 1].base) == ExpectedMajor(layout, |layout| - 1).(next := top0)
      requires forall x :: 0 <= x < top0 && !(layout != [] && layout[|layout| - 1].base <= x < layout[|layout| - 1].base + HEADER) ==>
                 ram[x] == ram0[x]
      requires memRoot == if layout == [] then top0 else layout[0].base
      requires bestBet == 0 || exists j :: 0 <= j < |layout| && layout[j].base == bestBet
      requires inuseBytes == InUse(layout) && allocatedBytes == Allocated(layout) + PagesFor(size) * PAGE
      modifies this`layout
      ensures Consistent() && layout == old(layout) + [FreshMajor(top0, size)]
      ensures PayloadsKept(old(layout), ram0, ram)
    {
      hide MajorAt, MinorAt, RegionOk, LayoutOk, Encoded, InUse, Allocated, ExpectedMajor;
      var r := FreshMajor(top0, size);
      var heap' := layout + [r];
      FreshTotals(layout, r);
      AppendedRegion(ram0, ram, layout, top0, PagesFor(size));
      AppendKeepsPayloads(ram0, layout, top0);
      assert forall j :: 0 <= j < |layout| ==> heap'[j] == layout[j];
      layout := heap';
    }

    lemma AppendKeepsPayloads(ram0: seq<byte>, heap: Layout, top0: nat)
      requires LayoutOk(heap, top0) && top0 <= |ram| == |ram0|
      requires forall x :: 0 <= x < top0 && !(heap != [] && heap[|heap| - 1].base <= x < heap[|heap| - 1].base + HEADER) ==>
                 ram[x] == ram0[x]
      ensures PayloadsKept(heap, ram0, ram)
    {
      hide LayoutOk, RegionOk;
      forall j, o | 0 <= j < |heap| && 0 <= o < |heap[j].blocks|
        ensures Agree(ram0, ram, heap[j].blocks[o].Payload(), heap[j].blocks[o].End())
      {
        PayloadPlacement(heap[j].blocks[o]);
        RegionWithin(heap, top0, j);
        RegionWithin(heap, top0, |heap| - 1);
        BlockInRegion(heap[j], o);
        if j != |heap| - 1 { RegionsApart(heap, top0, |heap| - 1, j); }
      }
    }

    /** The outcome of asking for a new major: one more region at the old `top`, or nothing at all. */
    ghost predicate Grown(heap0: Layout, ram0: seq<byte>, top0: nat, budget0: nat, size: word, newMaj: nat)
      reads this
    {
      var pages := PagesFor(size);
      if pages <= budget0 && top0 + pages * PAGE <= |ram0| then
        && newMaj == top0 && layout == heap0 + [FreshMajor(top0, size)]
        && top == top0 + pages * PAGE && budget == budget0 - pages
        && PayloadsKept(heap0, ram0, ram) && size + HEADER + HEADER <= pages * PAGE
      else
        newMaj == 0 && layout == heap0 && top == top0 && budget == budget0 && ram == ram0
    }

    lemma LastMajorFacts()
      requires Consistent() && layout != []
      ensures var maj := layout[|layout| - 1].base;
              && maj + HEADER <= top && MajorAt(ram, maj) == ExpectedMajor(layout, |layout| - 1)
    {
      hide MajorAt;
      RegionWithin(layout, top, |layout| - 1);
      assert MajorEncoded(ram, layout, |layout| - 1);
    }

    /** Creates a new major next to the last one; 0 when there is no more memory. */
    method AppendMajor(maj: nat, size: word) returns (newMaj: nat)
      requires Consistent() && size + HEADER + HEADER < 0x1_0000_0000
      requires layout != [] && layout[|layout| - 1].base == maj
      modifies this`ram, this`allocatedBytes, this`warningCount, this`top, this`budget, this`layout
      ensures Consistent() && |ram| == |old(ram)|
      ensures Grown(old(layout), old(ram), old(top), old(budget), size, newMaj)
    {
      hide MajorAt, MinorAt, StoreMajor, Encoded, LayoutOk, InUse, Allocated, PayloadsKept;
      LastMajorFacts();
      newMaj := AllocateNewPage(size);
      WriteMajor(maj, MajorAt(ram, maj).(next := newMaj));
      if newMaj == 0 {
        MajorRestored(old(ram), maj);
        return;
      }
      WriteMajor(newMaj, MajorAt(ram, newMaj).(prev := maj));
      CommitMajor(old(ram), old(top), size);
    }

    // ---------- malloc ----------

    lemma MajorFacts(i: nat)
      requires Consistent() && i < |layout|
      ensures RegionOk(layout[i]) && 0 < layout[i].base && layout[i].base + HEADER <= layout[i].End() <= top <= |ram|
      ensures MajorAt(ram, layout[i].base) == ExpectedMajor(layout, i)
      ensures Usage(layout[i]) <= layout[i].pages * PAGE
    {
      hide MajorAt, MinorAt;
      RegionWithin(layout, top, i);
      assert MajorEncoded(ram, layout, i);
      GapsWithinFree(layout[i], 0);
    }

    lemma MinorFacts(i: nat, k: nat)
      requires Consistent() && i < |layout| && k < |layout[i].blocks|
      ensures layout[i].base + HEADER <= layout[i].blocks[k].addr && layout[i].blocks[k].End() <= layout[i].End() <= top
      ensures MinorAt(ram, layout[i].blocks[k].addr) == ExpectedMinor(layout[i], k)
      ensures AlignByteOk(ram, layout[i].blocks[k])
      ensures k + 1 < |layout[i].blocks| ==> layout[i].blocks[k].End() <= layout[i].blocks[k + 1].addr
    {
      hide MajorAt, MinorAt;
      RegionWithin(layout, top, i);
      assert RegionEncoded(ram, layout[i]);
      assert MinorEncoded(ram, layout[i], k);
      BlockInRegion(layout[i], k);
    }

    /** Walks the minors of a major: the first one with enough space behind it, or 0. */
    method FindMinor(maj: nat, need: nat, ghost i: nat) returns (min: nat, ghost k: nat)
      requires Consistent() && i < |layout| && layout[i].base == maj && layout[i].blocks != []
      ensures min == 0 ==> forall g :: 0 < g <= |layout[i].blocks| ==> !GapFits(layout[i], g, need)
      ensures min != 0 ==>
                && 0 < k <= |layout[i].blocks| && layout[i].blocks[k - 1].addr == min
                && GapFits(layout[i], k, need)
    {
      hide MajorAt, MinorAt, Consistent;
      MajorFacts(i);
      min, k := MajorAt(ram, maj).first, 0;
      while min != 0
        invariant k <= |layout[i].blocks|
        invariant min == if k < |layout[i].blocks| then layout[i].blocks[k].addr else 0
        invariant forall g :: 0 < g <= k ==> !GapFits(layout[i], g, need)
        decreases |layout[i].blocks| - k
      {
        MinorFacts(i, k);
        var m := MinorAt(ram, min);
        if m.next == 0 {
          var diff := maj + MajorAt(ram, maj).size - min - HEADER - m.size;
          if diff >= need {
            k := k + 1;
            return;
          }
        }
        if m.next != 0 {
          var diff := m.next - min - HEADER - m.size;
          if diff >= need {
            k := k + 1;
            return;
          }
        }
        min, k := m.next, k + 1;
        if min != 0 { MinorFacts(i, k); }
      }
    }

    /** Cases 2 to 4 for one major with enough free bytes in total; 0 when none of its gaps is large enough. */
    method PlaceInMajor(maj: nat, size: nat, req: nat, ghost i: nat) returns (p: nat, ghost k: nat)
      requires Consistent() && i < |layout| && layout[i].base == maj
      requires size == req + ALIGNMENT + ALIGN_INFO
      requires HEADER + size <= layout[i].pages * PAGE - Usage(layout[i])
      modifies this`ram, this`inuseBytes, this`layout
      ensures Consistent() && |ram| == old(|ram|)
      ensures p == 0 ==> unchanged(this`ram, this`inuseBytes, this`layout) && !RegionHasRoom(layout[i], HEADER + size)
      ensures p != 0 ==> PlacedOnly(old(ram), old(layout), ram, layout, i, k, size, req, p)
      ensures p != 0 ==> RegionHasRoom(old(layout)[i], HEADER + size)
    {
      hide MajorAt, MinorAt, Consistent, RegionOk, RegionHasRoom, PayloadsKept;
      MajorFacts(i);
      RoomIsAGap(layout[i], HEADER + size);
      var first := MajorAt(ram, maj).first;
      k := 0;
      if first == 0 {
        FirstIsNull(i);
        p := PlaceFirst(maj, size, req, i);
        return;
      }
      var diff := first - maj - HEADER;
      if diff >= size + HEADER {
        p := PlaceFront(maj, size, req, i);
        return;
      }
      var min;
      min, k := FindMinor(maj, size + HEADER, i);
      if min != 0 {
        p := PlaceAfter(maj, min, size, req, i, k);
        return;
      }
      p := 0;
    }

    lemma FirstIsNull(i: nat)
      requires Consistent() && i < |layout|
      ensures FirstOf(layout[i]) == 0 <==> layout[i].blocks == []
    {
      hide MajorAt, MinorAt;
      if layout[i].blocks != [] { MinorFacts(i, 0); }
    }

    /** The whole effect of a successful or failed request on the heap described by the first four arguments. */
    ghost predicate MallocOutcome(heap0: Layout, ram0: seq<byte>, top0: nat, budget0: nat, size: word, req: word, p: nat)
      reads this
    {
      var pages := PagesFor(size);
      && |ram| == |ram0|
      && PayloadsKept(heap0, ram0, ram)
      && if HasRoom(heap0, HEADER + size) then
           && Placed(heap0, layout, size, req, p)
           && top == top0 && budget == budget0
         else if pages <= budget0 && top0 + pages * PAGE <= |ram0| then
           && PlacedAt(heap0 + [FreshMajor(top0, size)], layout, |heap0|, 0, size, req, p)
           && top == top0 + pages * PAGE && budget == budget0 - pages
         else
           && p == 0 && layout == heap0 && ram == ram0 && top == top0 && budget == budget0
    }

    /** Remembers the major with the most free bytes seen so far. */
    method NoteBest(maj: nat, bestSize: nat, diff: nat, ghost i: nat) returns (newBest: nat)
      requires Consistent() && i < |layout| && layout[i].base == maj
      modifies this`bestBet
      ensures Consistent()
    {
      hide MajorAt, MinorAt, RegionOk, LayoutOk, Encoded, InUse, Allocated;
      newBest := bestSize;
      if bestSize < diff {
        bestBet, newBest := maj, diff;
      }
    }

    /** The major at address `a` is number `j`. */
    ghost predicate IsMajor(a: nat, j: nat)
      reads this
    {
      j < |layout| && layout[j].base == a
    }

    lemma OnlyMajor(a: nat, i: nat)
      requires LayoutOk(layout, top) && IsMajor(a, i)
      ensures forall j: nat :: IsMajor(a, j) ==> j == i
    {
      forall j: nat | IsMajor(a, j) ensures j == i {
        if j != i {
          RegionsApart(layout, top, i, j);
          RegionWithin(layout, top, i);
          RegionWithin(layout, top, j);
        }
      }
    }

    /** Where the search starts: the best bet if it looks large enough, else the root. */
    method StartOfSearch(need: nat) returns (maj: nat, startedBet: bool, bestSize: nat, ghost i: nat)
      requires Consistent() && layout != []
      ensures i < |layout| && maj == layout[i].base
      ensures if startedBet then maj == bestBet else maj == memRoot && i == 0
      ensures bestBet == 0 ==> !startedBet && bestSize == 0
      ensures forall j: nat :: bestBet != 0 && IsMajor(bestBet, j) ==>
                bestSize == layout[j].pages * PAGE - Usage(layout[j]) && startedBet == (need < bestSize)
    {
      hide MajorAt, MinorAt, RegionOk, LayoutOk, Encoded, InUse, Allocated;
      maj, startedBet, bestSize, i := memRoot, false, 0, 0;
      if bestBet != 0 {
        ghost var bet: nat :| bet < |layout| && layout[bet].base == bestBet;
        MajorFacts(bet);
        bestSize := MajorAt(ram, bestBet).size - MajorAt(ram, bestBet).usage;
        OnlyMajor(bestBet, bet);
        if bestSize > need {
          maj, startedBet, i := bestBet, true, bet;
        }
      }
    }

    /**
     Adds a major behind `maj` and takes the first block from it. From CASE 1 the search falls through to
     CASE 2; from CASE 5 it turns once more, which reconsiders the best bet before it gets to CASE 2.
     */
    method PlaceInNewMajor(maj: nat, size: word, req: word, turnOnce: bool, bestSize: nat) returns (p: nat)
      requires Consistent() && layout != [] && layout[|layout| - 1].base == maj
      requires size == req + ALIGNMENT + ALIGN_INFO && RequestOk(req)
      requires !HasRoom(layout, HEADER + size)
      modifies this`ram, this`inuseBytes, this`layout, this`bestBet, this`allocatedBytes, this`warningCount, this`top, this`budget
      ensures Consistent()
      ensures MallocOutcome(old(layout), old(ram), old(top), old(budget), size, req, p)
    {
      hide MajorAt, MinorAt, Consistent, RegionHasRoom, PayloadsKept, GapFits, HasRoom, PlacedOnly, MallocOutcome, RegionOk;
      RootFacts();
      var newMaj := AppendMajor(maj, size);
      if newMaj == 0 {
        OutcomeFailed(old(layout), old(ram), size, req);
        return 0;
      }
      ghost var i := |layout| - 1;
      NewMajorFacts(old(layout), old(ram), old(top), old(budget), size, newMaj);
      if turnOnce {
        var _ := NoteBest(newMaj, bestSize, MajorAt(ram, newMaj).size - MajorAt(ram, newMaj).usage, i);
      }
      ghost var ram1, heap1 := ram, layout;
      ghost var k;
      p, k := PlaceInMajor(newMaj, size, req, i);
      OutcomeGrown(old(layout), old(ram), old(top), old(budget), ram1, heap1, size, req, k, p);
    }

    /** The loop over the majors. */
    method Search(size: word, req: word) returns (p: nat)
      requires Consistent() && layout != []
      requires size == req + ALIGNMENT + ALIGN_INFO && RequestOk(req)
      modifies this`ram, this`inuseBytes, this`layout, this`bestBet, this`allocatedBytes, this`warningCount, this`top, this`budget
      ensures Consistent()
      ensures MallocOutcome(old(layout), old(ram), old(top), old(budget), size, req, p)
    {
      hide MajorAt, MinorAt, Consistent, RegionOk, RegionHasRoom, PayloadsKept, GapFits, HasRoom, PlacedOnly, MallocOutcome, Usage;
      var need := size + HEADER;
      var maj, startedBet, bestSize;
      ghost var i: nat;
      maj, startedBet, bestSize, i := StartOfSearch(need);
      while true
        invariant Consistent() && i < |layout| && maj == layout[i].base
        invariant !startedBet ==> forall j :: 0 <= j < i ==> !RegionHasRoom(layout[j], need)
        invariant layout == old(layout) && ram == old(ram) && top == old(top) && budget == old(budget)
        decreases startedBet, |layout| - i
      {
        MajorFacts(i);
        NextMajor(i);
        RootFacts();
        var M := MajorAt(ram, maj);
        var diff := M.size - M.usage;
        bestSize := NoteBest(maj, bestSize, diff, i);
        if diff < need {
          // CASE 1: not enough space in this major
          SmallMajorHasNoRoom(layout[i], need);
          if M.next != 0 {
            assert maj != M.next; // so the branch for a major linked to itself is never taken
            maj, i := M.next, i + 1;
          } else if startedBet {
            maj, startedBet, i := memRoot, false, 0;
          } else {
            NoRoomAnywhere(layout, need);
            p := PlaceInNewMajor(maj, size, req, false, bestSize);
            return;
          }
        } else {
          ghost var k;
          p, k := PlaceInMajor(maj, size, req, i);
          if p != 0 {
            OutcomePlaced(old(ram), old(layout), size, req, i, k, p);
            return;
          }
          // CASE 5: the free bytes of this major are not contiguous
          if M.next != 0 {
            maj, i := M.next, i + 1;
          } else if startedBet {
            maj, startedBet, i := memRoot, false, 0;
          } else {
            NoRoomAnywhere(layout, need);
            p := PlaceInNewMajor(maj, size, req, true, bestSize);
            return;
          }
        }
      }
    }

    lemma RootFacts()
      requires Consistent() && layout != []
      ensures memRoot == layout[0].base && 0 < top
    {
    }

    lemma NewMajorFacts(heap0: Layout, ram0: seq<byte>, top0: nat, budget0: nat, size: word, newMaj: nat)
      requires Consistent() && Grown(heap0, ram0, top0, budget0, size, newMaj) && newMaj != 0
      ensures layout == heap0 + [FreshMajor(top0, size)] && layout[|heap0|].base == newMaj
      ensures newMaj + HEADER <= |ram| && MajorAt(ram, newMaj).usage <= MajorAt(ram, newMaj).size
      ensures RegionHasRoom(layout[|heap0|], HEADER + size)
      ensures HEADER + size <= layout[|heap0|].pages * PAGE - Usage(layout[|heap0|])
    {
      hide MajorAt, MinorAt, RegionHasRoom;
      MajorFacts(|heap0|);
      FreshHasRoom(top0, size);
    }

    lemma OutcomeFailed(heap0: Layout, ram0: seq<byte>, size: word, req: word)
      requires !HasRoom(heap0, HEADER + size)
      requires !(PagesFor(size) <= budget && top + PagesFor(size) * PAGE <= |ram0|)
      requires layout == heap0 && ram == ram0
      ensures MallocOutcome(heap0, ram0, top, budget, size, req, 0)
    {
    }

    lemma NextMajor(i: nat)
      requires Consistent() && i < |layout|
      ensures var next := MajorAt(ram, layout[i].base).next;
              if i + 1 < |layout| then next == layout[i + 1].base && layout[i].base < next else next == 0
    {
      hide MajorAt, MinorAt;
      MajorFacts(i);
      if i + 1 < |layout| { MajorFacts(i + 1); }
    }

    lemma OutcomePlaced(ram0: seq<byte>, heap0: Layout, size: word, req: word, i: nat, k: nat, p: nat)
      requires PlacedOnly(ram0, heap0, ram, layout, i, k, size, req, p)
      requires RegionHasRoom(heap0[i], HEADER + size)
      ensures MallocOutcome(heap0, ram0, top, budget, size, req, p)
    {
    }

    lemma OutcomeGrown(heap0: Layout, ram0: seq<byte>, top0: nat, budget0: nat, ram1: seq<byte>, heap1: Layout,
                       size: word, req: word, k: nat, p: nat)
      requires !HasRoom(heap0, HEADER + size)
      requires PagesFor(size) <= budget0 && top0 + PagesFor(size) * PAGE <= |ram0| == |ram1|
      requires heap1 == heap0 + [FreshMajor(top0, size)] && PayloadsKept(heap0, ram0, ram1)
      requires PlacedOnly(ram1, heap1, ram, layout, |heap0|, k, size, req, p)
      requires top == top0 + PagesFor(size) * PAGE && budget == budget0 - PagesFor(size)
      ensures MallocOutcome(heap0, ram0, top0, budget0, size, req, p)
    {
      assert forall j :: 0 <= j < |heap0| ==> heap1[j] == heap0[j];
      assert heap1[|heap0|].blocks == [];
    }

    lemma RootOutcome(ram0: seq<byte>, top0: nat, budget0: nat, ram1: seq<byte>, size: word, req: word, p: nat)
      requires 0 < top0 && PagesFor(size) <= budget0 && top0 + PagesFor(size) * PAGE <= |ram0| == |ram1|
      requires size + HEADER + HEADER <= PagesFor(size) * PAGE
      requires MallocOutcome([FreshMajor(top0, size)], ram1, top0 + PagesFor(size) * PAGE, budget0 - PagesFor(size), size, req, p)
      ensures MallocOutcome([], ram0, top0, budget0, size, req, p)
    {
      hide RegionHasRoom;
      var heap1: Layout := [FreshMajor(top0, size)];
      FreshHasRoom(top0, size);
      assert RegionHasRoom(heap1[0], HEADER + size);
      assert HasRoom(heap1, HEADER + size);
      var i: nat, k: nat :| PlacedAt(heap1, layout, i, k, size, req, p);
      assert i == 0 && k == 0;
      assert [] + heap1 == heap1;
    }

    lemma OutcomeKeepsNonEmpty(heap0: Layout, ram0: seq<byte>, top0: nat, budget0: nat, size: word, req: word, p: nat)
      requires forall i :: 0 <= i < |heap0| ==> heap0[i].blocks != []
      requires MallocOutcome(heap0, ram0, top0, budget0, size, req, p)
      ensures forall i :: 0 <= i < |layout| ==> layout[i].blocks != []
    {
      hide HasRoom;
      if HasRoom(heap0, HEADER + size) {
        var i: nat, k: nat :| PlacedAt(heap0, layout, i, k, size, req, p);
        PlacedNonEmpty(heap0, i, k, size, req, p);
      } else if p != 0 {
        var heap1 := heap0 + [FreshMajor(top0, size)];
        PlacedNonEmpty(heap1, |heap0|, 0, size, req, p);
      }
    }

    lemma PlacedNonEmpty(heap1: Layout, i: nat, k: nat, size: word, req: word, p: nat)
      requires PlacedAt(heap1, layout, i, k, size, req, p)
      requires forall j :: 0 <= j < |heap1| && j != i ==> heap1[j].blocks != []
      ensures forall j :: 0 <= j < |layout| ==> layout[j].blocks != []
    {
      InsertIndex(heap1[i], k, Block(GapStart(heap1[i], k), size, req));
    }

    lemma OutcomeServed(heap0: Layout, ram0: seq<byte>, top0: nat, budget0: nat, size: word, req: word, p: nat)
      requires Consistent() && size == req + ALIGNMENT + ALIGN_INFO
      requires MallocOutcome(heap0, ram0, top0, budget0, size, req, p) && p != 0
      ensures exists b :: Served(heap0, layout, b, req, p)
    {
      hide HasRoom, LayoutOk, LiveBlock, PlacedAt, Encoded, PayloadsKept;
      if HasRoom(heap0, HEADER + size) {
        var i: nat, k: nat :| PlacedAt(heap0, layout, i, k, size, req, p);
        PlacedIndex(heap0, layout, i, k, size, req, p);
        PlacedServed(heap0, layout, top, i, k, size, req, p);
      } else {
        var heap1 := heap0 + [FreshMajor(top0, size)];
        PlacedIndex(heap1, layout, |heap0|, 0, size, req, p);
        PlacedServed(heap1, layout, top, |heap0|, 0, size, req, p);
        FreshLive(heap0, FreshMajor(top0, size));
        assert Served(heap0, layout, Block(GapStart(heap1[|heap0|], 0), size, req), req, p);
      }
    }

    lemma PlacedIndex(heap: Layout, heap': Layout, i: nat, k: nat, size: nat, req: nat, p: nat)
      requires PlacedAt(heap, heap', i, k, size, req, p)
      ensures i < |heap| && k <= |heap[i].blocks| && p != 0
    {
    }

    /**
     Allocates `req` bytes. Memory is grown only when no major has a free span for the block and its header,
     and 0 is returned only when it then cannot grow. (There the kernel copy panics instead.)
     */
    method Malloc(req: word) returns (p: nat)
      requires Valid() && RequestOk(req)
      modifies this
      ensures Valid()
      ensures MallocOutcome(old(layout), old(ram), old(top), old(budget), req + ALIGNMENT + ALIGN_INFO, req, p)
      ensures p != 0 ==> exists b :: Served(old(layout), layout, b, req, p)
      ensures p != 0 <==> HasRoom(old(layout), HEADER + req + ALIGNMENT + ALIGN_INFO) || old(CanGrow(PagesFor(PaddedSize(req))))
      ensures HasRoom(old(layout), req + 56) ==> p != 0 && top == old(top) && budget == old(budget)
      // in numbers: without room, 16 pages or as many as the request and 80 bytes fill decide
      ensures forall n: nat :: !HasRoom(old(layout), req + 56)
                               && 16 <= n && req + 80 <= n * 4096 && (n == 16 || (n - 1) * 4096 < req + 80) ==>
                if n <= old(budget) && old(top) + n * 4096 <= |old(ram)|
                then p != 0 && top == old(top) + n * 4096 && budget == old(budget) - n
                else p == 0 && layout == old(layout) && ram == old(ram)
    {
      hide MajorAt, MinorAt, RegionOk, LayoutOk, Encoded, InUse, Allocated, HasRoom, PayloadsKept, PlacedAt;
      p := RootThenSearch(req);
      if p != 0 {
        OutcomeServed(old(layout), old(ram), old(top), old(budget), PaddedSize(req), req, p);
      }
      NumbersOfPages(req + 32);
      OutcomeNull(old(layout), old(ram), old(top), old(budget), PaddedSize(req), req, p);
    }

    lemma NumbersOfPages(size: word)
      requires size + 48 < 0x1_0000_0000
      ensures forall n: nat :: 16 <= n && size + 48 <= n * 4096 && (n == 16 || (n - 1) * 4096 < size + 48) ==> n == PagesFor(size)
    {
      PagesLeast(size);
      forall n: nat | 16 <= n && size + 48 <= n * 4096 && (n == 16 || (n - 1) * 4096 < size + 48) ensures n == PagesFor(size) {
        LeastIsOne(size + 48, n, PagesFor(size));
      }
    }

    lemma OutcomeNull(heap0: Layout, ram0: seq<byte>, top0: nat, budget0: nat, size: word, req: word, p: nat)
      requires MallocOutcome(heap0, ram0, top0, budget0, size, req, p)
      ensures p != 0 <==> HasRoom(heap0, HEADER + size) || (PagesFor(size) <= budget0 && top0 + PagesFor(size) * PAGE <= |ram0|)
    {
      hide HasRoom, PayloadsKept, PlacedAt;
      if HasRoom(heap0, HEADER + size) {
        var i: nat, k: nat :| PlacedAt(heap0, layout, i, k, size, req, p);
        PlacedIndex(heap0, layout, i, k, size, req, p);
      } else if p == 0 && PagesFor(size) <= budget0 && top0 + PagesFor(size) * PAGE <= |ram0| {
        PlacedIndex(heap0 + [FreshMajor(top0, size)], layout, |heap0|, 0, size, req, p);
      }
    }

    method RootThenSearch(req: word) returns (p: nat)
      requires Valid() && RequestOk(req)
      modifies this
      ensures Valid()
      ensures MallocOutcome(old(layout), old(ram), old(top), old(budget), req + ALIGNMENT + ALIGN_INFO, req, p)
    {
      hide MajorAt, MinorAt, RegionOk, LayoutOk, Encoded, InUse, Allocated, HasRoom, MallocOutcome, PayloadsKept;
      var size: word := PaddedSize(req);
      assert size == req + ALIGNMENT + ALIGN_INFO; // so the branch for a size of 0 is never taken
      if memRoot == 0 {
        assert layout == [] by { if layout != [] { MajorFacts(0); } }
        var newMaj := AllocateNewPage(size);
        if newMaj == 0 {
          EmptyHasNoRoom(HEADER + size);
          KeptReflexive([], ram);
          OutcomeFailed(old(layout), old(ram), size, req);
          return 0;
        }
        memRoot := newMaj;
        CommitMajor(old(ram), old(top), size);
        ghost var ram1 := ram;
        assert layout == [FreshMajor(old(top), size)];
        p := Search(size, req);
        RootOutcome(old(ram), old(top), old(budget), ram1, size, req, p);
      } else {
        p := Search(size, req);
      }
      if kernel {
        OutcomeKeepsNonEmpty(old(layout), old(ram), old(top), old(budget), size, req, p);
      }
    }

    // ---------- free ----------

    /** `p` is the payload of minor `k` of major `i`. */
    ghost predicate IsPayload(p: nat, i: nat, k: nat)
      reads this
    {
      i < |layout| && k < |layout[i].blocks| && layout[i].blocks[k].Payload() == p
    }

    /** NULL, a live payload, or a pointer in front of which no magic number is found. */
    ghost predicate FreeArgument(p: nat)
      reads this
    {
      p == 0 ||
      (&& ALIGN_INFO <= p && p - ALIGN_INFO < |ram|
       && HEADER <= Unalign(p) <= |ram|
       && (MinorAt(ram, Unalign(p) - HEADER).magic == MAGIC ==> exists i, k :: IsPayload(p, i, k)))
    }

    /** UNALIGN recovers exactly what ALIGN moved, so the header of a live payload is found. */
    lemma LiveHeader(p: nat, i: nat, k: nat)
      requires Consistent() && IsPayload(p, i, k)
      ensures ALIGN_INFO <= p && p - ALIGN_INFO < |ram|
      ensures Unalign(p) == layout[i].blocks[k].addr + HEADER
      ensures Unalign(p) <= |ram| && MinorAt(ram, Unalign(p) - HEADER) == ExpectedMinor(layout[i], k)
    {
      hide MinorAt, MajorAt;
      MinorFacts(i, k);
      PayloadPlacement(layout[i].blocks[k]);
    }

    /** Makes the minors (or the major) around a removed one point past it. */
    method LinkAround(maj: nat, prev: nat, next: nat)
      requires maj + HEADER <= |ram| && prev < 0x1_0000_0000 && next < 0x1_0000_0000
      requires prev != 0 ==> maj + HEADER <= prev && prev + HEADER <= |ram|
      requires next != 0 ==> maj + HEADER <= next && next + HEADER <= |ram|
      requires prev != 0 && next != 0 ==> prev + HEADER <= next
      modifies this`ram
      ensures |ram| == |old(ram)|
      ensures next != 0 ==> MinorAt(ram, next) == MinorAt(old(ram), next).(prev := prev)
      ensures prev != 0 ==> MinorAt(ram, prev) == MinorAt(old(ram), prev).(next := next)
      ensures MajorAt(ram, maj) == if prev == 0 then MajorAt(old(ram), maj).(first := next) else MajorAt(old(ram), maj)
      ensures forall x :: 0 <= x < |ram| && !(maj <= x < maj + HEADER) && !InHeader(prev, x) && !InHeader(next, x) ==>
                ram[x] == old(ram)[x]
      ensures forall c: nat :: c + HEADER <= |ram| && maj + HEADER <= c && Apart(prev, c) && Apart(next, c) ==>
                MinorAt(ram, c) == MinorAt(old(ram), c)
    {
      hide MajorAt, MinorAt, StoreMajor, StoreMinor;
      if next != 0 {
        WriteMinor(next, MinorAt(ram, next).(prev := prev));
      }
      if prev != 0 {
        WriteMinor(prev, MinorAt(ram, prev).(next := next));
      }
      if prev == 0 {
        WriteMajor(maj, MajorAt(ram, maj).(first := next));
      }
    }

    /** Takes a minor out of its major's usage and marks its header as dead. */
    method MarkDead(maj: nat, min: nat, m: MinorHeader)
      requires maj + HEADER <= min && min + HEADER <= |ram| && m.Fits()
      requires m.size + HEADER <= MajorAt(ram, maj).usage
      modifies this`ram
      ensures |ram| == |old(ram)|
      ensures MajorAt(ram, maj) == MajorAt(old(ram), maj).(usage := MajorAt(old(ram), maj).usage - (m.size + HEADER))
      ensures MinorAt(ram, min) == m.(magic := DEAD)
      ensures forall x :: 0 <= x < |ram| && !(maj <= x < maj + HEADER) && !(min <= x < min + HEADER) ==> ram[x] == old(ram)[x]
      ensures forall c: nat :: c + HEADER <= |ram| && maj + HEADER <= c && (c + HEADER <= min || min + HEADER <= c) ==>
                MinorAt(ram, c) == MinorAt(old(ram), c)
    {
      hide MajorAt, MinorAt, StoreMajor, StoreMinor;
      WriteMajor(maj, MajorAt(ram, maj).(usage := MajorAt(ram, maj).usage - (m.size + HEADER)));
      WriteMinor(min, m.(magic := DEAD));
    }

    /** The unlinking half of free. */
    method Unlink(min: nat, ghost i: nat, ghost k: nat)
      requires Consistent() && i < |layout| && k < |layout[i].blocks| && layout[i].blocks[k].addr == min
      modifies this`ram, this`inuseBytes, this`layout
      ensures Consistent() && |ram| == |old(ram)|
      ensures layout == old(layout)[i := Remove(old(layout)[i], k)]
      ensures MinorAt(ram, min).magic == DEAD
      ensures PayloadsKept(old(layout), old(ram), ram)
    {
      hide MajorAt, MinorAt, RegionOk, LayoutOk, Encoded, InUse, Allocated, NearBlock, PayloadsKept, Usage, FirstOf, Remove, Used, AlignByteOk;
      MajorFacts(i);
      MinorFacts(i, k);
      UnlinkFacts(i, k);
      var m := MinorAt(ram, min);
      var maj := m.block;
      inuseBytes := inuseBytes - m.size;
      MarkDead(maj, min, m);
      LinkAround(maj, m.prev, m.next);
      CommitUnlink(old(ram), i, k);
    }

    lemma UnlinkFacts(i: nat, k: nat)
      requires Consistent() && i < |layout| && k < |layout[i].blocks|
      ensures 0 < k ==>
                var c := layout[i].blocks[k - 1];
                && layout[i].base + HEADER <= c.addr && c.End() <= layout[i].blocks[k].addr
                && MinorAt(ram, c.addr) == ExpectedMinor(layout[i], k - 1)
                && forall x :: c.addr <= x < c.addr + HEADER ==> NearBlock(layout[i], k, x)
      ensures k + 1 < |layout[i].blocks| ==>
                var c := layout[i].blocks[k + 1];
                && layout[i].blocks[k].End() <= c.addr && c.End() <= top
                && MinorAt(ram, c.addr) == ExpectedMinor(layout[i], k + 1)
                && forall x :: c.addr <= x < c.addr + HEADER ==> NearBlock(layout[i], k, x)
      ensures forall x :: layout[i].blocks[k].addr <= x < layout[i].blocks[k].addr + HEADER ==> NearBlock(layout[i], k, x)
      ensures layout[i].blocks[k].size + HEADER <= Usage(layout[i]) && layout[i].blocks[k].size <= InUse(layout)
      ensures Usage(Remove(layout[i], k)) == Usage(layout[i]) - layout[i].blocks[k].size - HEADER
      ensures FirstOf(Remove(layout[i], k)) == if k == 0 then ExpectedMinor(layout[i], 0).next else FirstOf(layout[i])
    {
      hide MajorAt, MinorAt, RegionOk, LayoutOk;
      if 0 < k { MinorFacts(i, k - 1); }
      if k + 1 < |layout[i].blocks| { MinorFacts(i, k); MinorFacts(i, k + 1); }
      RemoveSums(layout[i], k);
      RemovedFirst(layout[i], k);
      TotalsUpdate(layout, i, Remove(layout[i], k));
    }

    ghost method CommitUnlink(ram0: seq<byte>, i: nat, k: nat)
      requires 0 < top <= |ram| == |ram0| < 0x1_0000_0000
      requires LayoutOk(layout, top) && Encoded(ram0, layout) && i < |layout| && k < |layout[i].blocks|
      requires var r := layout[i];
               && (0 < k ==> MinorAt(ram, r.blocks[k - 1].addr) == ExpectedMinor(r, k - 1).(next := ExpectedMinor(r, k).next))
               && (k + 1 < |r.blocks| ==> MinorAt(ram, r.blocks[k + 1].addr) == ExpectedMinor(r, k + 1).(prev := ExpectedMinor(r, k).prev))
      requires MajorAt(ram, layout[i].base) ==
               ExpectedMajor(layout, i).(usage := Usage(Remove(layout[i], k)), first := FirstOf(Remove(layout[i], k)))
      requires forall x :: 0 <= x < |ram| && !(layout[i].base <= x < layout[i].base + HEADER) && !NearBlock(layout[i], k, x) ==>
                 ram[x] == ram0[x]
      requires memRoot == layout[0].base
      requires bestBet == 0 || exists j :: 0 <= j < |layout| && layout[j].base == bestBet
      requires inuseBytes == InUse(layout) - layout[i].blocks[k].size && allocatedBytes == Allocated(layout)
      modifies this`layout
      ensures Consistent() && layout == old(layout)[i := Remove(old(layout)[i], k)]
      ensures PayloadsKept(old(layout), ram0, ram)
    {
      hide MajorAt, MinorAt, RegionOk, LayoutOk, Encoded, InUse, Allocated, ExpectedMajor, ExpectedMinor, NearBlock, FirstOf, Usage, Sizes, PayloadsKept;
      var heap' := layout[i := Remove(layout[i], k)];
      RemoveSums(layout[i], k);
      TotalsUpdate(layout, i, Remove(layout[i], k));
      UnlinkedHeap(ram0, ram, layout, top, i, k);
      assert forall j :: 0 <= j < |layout| ==> heap'[j].base == layout[j].base;
      layout := heap';
    }

    // ---------- releasing an emptied major (kernel copy only) ----------

    /** Links the majors around a removed one to each other. */
    method LinkMajorsAround(prev: nat, next: nat)
      requires prev != 0 ==> prev + HEADER <= |ram| && next < 0x1_0000_0000
      requires next != 0 ==> next + HEADER <= |ram| && prev < 0x1_0000_0000
      requires prev != 0 && next != 0 ==> prev + HEADER <= next
      modifies this`ram
      ensures |ram| == |old(ram)|
      ensures prev != 0 ==> MajorAt(ram, prev) == MajorAt(old(ram), prev).(next := next)
      ensures next != 0 ==> MajorAt(ram, next) == MajorAt(old(ram), next).(prev := prev)
      ensures forall x :: 0 <= x < |ram| && !InHeader(prev, x) && !InHeader(next, x) ==> ram[x] == old(ram)[x]
    {
      hide MajorAt, MinorAt, StoreMajor, StoreMinor;
      if prev != 0 {
        WriteMajor(prev, MajorAt(ram, prev).(next := next));
      }
      if next != 0 {
        WriteMajor(next, MajorAt(ram, next).(prev := prev));
      }
    }

    method ReleaseMajor(maj: nat, ghost i: nat)
      requires Consistent() && i < |layout| && layout[i].base == maj && layout[i].blocks == []
      modifies this`ram, this`memRoot, this`bestBet, this`allocatedBytes, this`budget, this`layout
      ensures Consistent() && |ram| == |old(ram)|
      ensures layout == old(layout)[..i] + old(layout)[i + 1..] && budget == old(budget) + old(layout)[i].pages
      ensures PayloadsKept(layout, old(ram), ram)
      ensures forall x :: old(layout)[i].base <= x < old(layout)[i].End() && x < |ram| ==> ram[x] == old(ram)[x]
    {
      hide MajorAt, MinorAt, RegionOk, LayoutOk, Encoded, InUse, Allocated, PayloadsKept, Usage, FirstOf;
      MajorFacts(i);
      AroundFacts(i);
      var M := MajorAt(ram, maj);
      if memRoot == maj {
        memRoot := M.next;
      }
      if bestBet == maj {
        bestBet := 0;
      }
      LinkMajorsAround(M.prev, M.next);
      allocatedBytes := allocatedBytes - M.size;
      budget := budget + M.pages;
      CommitRelease(old(ram), i);
    }

    lemma AroundFacts(i: nat)
      requires Consistent() && i < |layout|
      ensures 0 < i ==> 0 < layout[i - 1].base && layout[i - 1].End() <= layout[i].base
                        && MajorAt(ram, layout[i - 1].base) == ExpectedMajor(layout, i - 1)
                        && layout[i - 1].base + HEADER <= layout[i - 1].End()
      ensures i + 1 < |layout| ==> layout[i].End() <= layout[i + 1].base && layout[i + 1].End() <= top
                                   && MajorAt(ram, layout[i + 1].base) == ExpectedMajor(layout, i + 1)
                                   && layout[i + 1].base + HEADER <= layout[i + 1].End()
      ensures layout[i].pages * PAGE <= Allocated(layout)
      ensures forall j :: 0 <= j < |layout| && j != i ==> layout[j].base != layout[i].base
    {
      hide MajorAt, MinorAt, RegionOk;
      MajorFacts(i);
      if 0 < i { MajorFacts(i - 1); }
      if i + 1 < |layout| { MajorFacts(i + 1); }
      TotalsDrop(layout, i);
      forall j | 0 <= j < |layout| && j != i ensures layout[j].base != layout[i].base {
        MajorFacts(j);
        RegionsApart(layout, top, i, j);
      }
    }

    ghost method CommitRelease(ram0: seq<byte>, i: nat)
      requires 0 < top <= |ram| == |ram0| < 0x1_0000_0000
      requires LayoutOk(layout, top) && Encoded(ram0, layout) && i < |layout| && layout[i].blocks == []
      requires 0 < i ==> MajorAt(ram, layout[i - 1].base) == ExpectedMajor(layout, i - 1).(next := ExpectedMajor(layout, i).next)
      requires i + 1 < |layout| ==> MajorAt(ram, layout[i + 1].base) == ExpectedMajor(layout, i + 1).(prev := ExpectedMajor(layout, i).prev)
      requires forall x :: 0 <= x < |ram| && !NearMajor(layout, i, x) ==> ram[x] == ram0[x]
      requires memRoot == if i == 0 then ExpectedMajor(layout, 0).next else layout[0].base
      requires bestBet == 0 || exists j :: 0 <= j < |layout| && j != i && layout[j].base == bestBet
      requires inuseBytes == InUse(layout) && allocatedBytes == Allocated(layout) - layout[i].pages * PAGE
      modifies this`layout
      ensures Consistent() && layout == old(layout)[..i] + old(layout)[i + 1..]
      ensures PayloadsKept(layout, ram0, ram)
    {
      hide MajorAt, MinorAt, RegionOk, LayoutOk, Encoded, InUse, Allocated, Usage, FirstOf, NearMajor;
      var heap' := layout[..i] + layout[i + 1..];
      TotalsDrop(layout, i);
      DroppedRegion(ram0, ram, layout, top, i);
      forall j, o | 0 <= j < |heap'| && 0 <= o < |heap'[j].blocks|
        ensures Agree(ram0, ram, heap'[j].blocks[o].Payload(), heap'[j].blocks[o].End())
      {
        var j' := if j < i then j else j + 1;
        assert heap'[j] == layout[j'];
        AwayFromMajor(layout, top, i, j');
        BlockInRegion(layout[j'], o);
        PayloadPlacement(layout[j'].blocks[o]);
      }
      if bestBet != 0 {
        var j :| 0 <= j < |layout| && j != i && layout[j].base == bestBet;
        assert heap'[if j < i then j else j - 1].base == bestBet;
      }
      layout := heap';
    }

    lemma PayloadUnique(p: nat, i: nat, k: nat, i': nat, k': nat)
      requires LayoutOk(layout, top) && IsPayload(p, i, k) && IsPayload(p, i', k')
      ensures i == i' && k == k'
    {
      hide LayoutOk;
      PayloadPlacement(layout[i].blocks[k]);
      PayloadPlacement(layout[i'].blocks[k']);
      RegionWithin(layout, top, i);
      RegionWithin(layout, top, i');
      BlockInRegion(layout[i], k);
      BlockInRegion(layout[i'], k');
      if i != i' || k != k' {
        BlocksDisjoint(layout, top, i, k, i', k');
      }
    }

    /** What free leaves behind when `p` was the payload of minor `k` of major `i`. */
    ghost predicate FreeOutcome(heap0: Layout, ram0: seq<byte>, budget0: nat, i: nat, k: nat)
      requires i < |heap0| && k < |heap0[i].blocks|
      reads this
    {
      && layout == AfterFree(heap0, i, k, kernel)
      && |ram| == |ram0| && PayloadsKept(layout, ram0, ram)
      && budget == budget0 + (if |layout| < |heap0| then heap0[i].pages else 0)
      && heap0[i].blocks[k].addr + HEADER <= |ram| && MinorAt(ram, heap0[i].blocks[k].addr).magic == DEAD
    }

    /** The rest of free once the minor is unlinked: give back an empty major or reconsider the best bet. */
    method CleanUp(maj: nat, ghost i: nat)
      requires Consistent() && i < |layout| && layout[i].base == maj
      modifies this`ram, this`memRoot, this`bestBet, this`allocatedBytes, this`budget, this`layout
      ensures Consistent() && |ram| == |old(ram)|
      ensures if kernel && old(layout)[i].blocks == [] then
                layout == old(layout)[..i] + old(layout)[i + 1..] && budget == old(budget) + old(layout)[i].pages
              else layout == old(layout) && budget == old(budget) && ram == old(ram)
      ensures PayloadsKept(layout, old(ram), ram)
      ensures forall x :: old(layout)[i].base <= x < old(layout)[i].End() && x < |ram| ==> ram[x] == old(ram)[x]
    {
      hide MajorAt, MinorAt, RegionOk, LayoutOk, Encoded, InUse, Allocated, PayloadsKept;
      MajorFacts(i);
      FirstIsNull(i);
      KeptReflexive(layout, ram);
      if MajorAt(ram, maj).first == 0 {
        if kernel {
          ReleaseMajor(maj, i);
        }
      } else if bestBet != 0 {
        ghost var bet: nat :| bet < |layout| && layout[bet].base == bestBet;
        MajorFacts(bet);
        var bestSize := MajorAt(ram, bestBet).size - MajorAt(ram, bestBet).usage;
        var majSize := MajorAt(ram, maj).size - MajorAt(ram, maj).usage;
        if majSize > bestSize {
          bestBet := maj;
        }
      }
    }

    static lemma LowByte(x: nat)
      ensures x % 0x1_0000 % 0x100 == x % 0x100 && x % 0x100_0000 % 0x100 == x % 0x100
    {
      AddBytes(x % 0x1_0000, 0x100 * (x / 0x1_0000));
      AddBytes(x % 0x100_0000, 0x1_0000 * (x / 0x100_0000));
    }

    static lemma AddBytes(r: nat, k: nat)
      ensures (r + 0x100 * k) % 0x100 == r % 0x100
    {
    }

    /** Counts an argument that is no live allocation, and whether its magic looks partly overwritten. */
    method CountBadMagic(magic: nat)
      modifies this`errorCount, this`possibleOverruns
      ensures errorCount == old(errorCount) + 1
      ensures possibleOverruns == old(possibleOverruns) + (if magic % 0x100 == MAGIC % 0x100 then 1 else 0)
    {
      LowByte(magic);
      LowByte(MAGIC);
      errorCount := errorCount + 1;
      if magic % 0x100_0000 == MAGIC % 0x100_0000 || magic % 0x1_0000 == MAGIC % 0x1_0000 || magic % 0x100 == MAGIC % 0x100 {
        possibleOverruns := possibleOverruns + 1;
      }
    }

    method Free(p: nat)
      requires Valid() && FreeArgument(p)
      modifies this
      ensures Valid() && top == old(top) && warningCount == old(warningCount) + (if p == 0 then 1 else 0)
      ensures (forall i: nat, k: nat :: !old(IsPayload(p, i, k))) ==>
                && unchanged(this`ram, this`layout, this`memRoot, this`bestBet, this`allocatedBytes, this`inuseBytes, this`budget)
                && errorCount == old(errorCount) + (if p == 0 then 0 else 1)
      ensures forall i: nat, k: nat :: old(IsPayload(p, i, k)) ==>
                && FreeOutcome(old(layout), old(ram), old(budget), i, k)
                && OneLess(old(layout), layout, old(layout)[i].blocks[k])
    {
      hide MajorAt, MinorAt, RegionOk, LayoutOk, Encoded, InUse, Allocated, PayloadsKept, AfterFree;
      if p == 0 {
        NullIsNoPayload();
        warningCount := warningCount + 1;
        return;
      }
      var min := Unalign(p) - HEADER;
      var m := MinorAt(ram, min);
      if m.magic != MAGIC {
        NoLiveHeader(p);
        CountBadMagic(m.magic);
        return;
      }
      ghost var i: nat, k: nat :| IsPayload(p, i, k);
      LiveHeader(p, i, k);
      OnlyPayload(p, i, k);
      FreedLive(layout, top, i, k, kernel);
      FreeLive(min, i, k);
    }

    lemma NullIsNoPayload()
      ensures forall i: nat, k: nat :: !IsPayload(0, i, k)
    {
      forall i: nat, k: nat ensures !IsPayload(0, i, k) {
        if IsPayload(0, i, k) { PayloadPlacement(layout[i].blocks[k]); }
      }
    }

    lemma NoLiveHeader(p: nat)
      requires Consistent() && FreeArgument(p) && p != 0 && MinorAt(ram, Unalign(p) - HEADER).magic != MAGIC
      ensures forall i: nat, k: nat :: !IsPayload(p, i, k)
    {
      hide MajorAt, MinorAt;
      forall i: nat, k: nat ensures !IsPayload(p, i, k) {
        if IsPayload(p, i, k) { LiveHeader(p, i, k); }
      }
    }

    lemma OnlyPayload(p: nat, i: nat, k: nat)
      requires Consistent() && IsPayload(p, i, k)
      ensures forall i': nat, k': nat :: IsPayload(p, i', k') ==> i' == i && k' == k
    {
      hide MajorAt, MinorAt, LayoutOk;
      forall i': nat, k': nat | IsPayload(p, i', k') ensures i' == i && k' == k {
        PayloadUnique(p, i, k, i', k');
      }
    }

    method FreeLive(min: nat, ghost i: nat, ghost k: nat)
      requires Valid() && i < |layout| && k < |layout[i].blocks| && layout[i].blocks[k].addr == min
      modifies this`ram, this`memRoot, this`bestBet, this`allocatedBytes, this`inuseBytes, this`budget, this`layout
      ensures Valid() && FreeOutcome(old(layout), old(ram), old(budget), i, k)
    {
      hide MajorAt, MinorAt, RegionOk, LayoutOk, Encoded, InUse, Allocated, PayloadsKept;
      MinorFacts(i, k);
      MajorFacts(i);
      var maj := MinorAt(ram, min).block;
      Unlink(min, i, k);
      ghost var ram1, heap1 := ram, layout;
      KeptAfterRemove(old(layout), i, k, old(ram), ram);
      CleanUp(maj, i);
      SixLoadsAgree(ram1, ram, min);
      ReleasedLayout(old(layout), heap1, i, k);
      if |layout| < |heap1| {
        KeptAfterDrop(heap1, i, old(ram), ram1, ram);
      }
    }

    lemma ReleasedLayout(heap0: Layout, heap1: Layout, i: nat, k: nat)
      requires i < |heap0| && k < |heap0[i].blocks|
      requires kernel ==> forall j :: 0 <= j < |heap0| ==> heap0[j].blocks != []
      requires heap1 == heap0[i := Remove(heap0[i], k)]
      requires layout == if kernel && heap1[i].blocks == [] then heap1[..i] + heap1[i + 1..] else heap1
      ensures layout == AfterFree(heap0, i, k, kernel)
      ensures kernel ==> forall j :: 0 <= j < |layout| ==> layout[j].blocks != []
    {
      if kernel && heap1[i].blocks == [] {
        assert heap1[..i] == heap0[..i] && heap1[i + 1..] == heap0[i + 1..];
        assert forall j :: 0 <= j < |layout| ==> layout[j] == heap0[if j < i then j else j + 1];
      }
    }

    // ---------- realloc ----------

    /** Word by word, then byte by byte. */
    method Copy(dst: nat, src: nat, n: nat)
      requires dst + n <= |ram| && src + n <= |ram|
      requires dst + n <= src || src + n <= dst
      modifies this`ram
      ensures |ram| == |old(ram)|
      ensures Copied(old(ram), src, ram, dst, n)
      ensures forall x :: 0 <= x < |ram| && !(dst <= x < dst + n) ==> ram[x] == old(ram)[x]
    {
      var left: nat, d: nat, s: nat := n, dst, src;
      hide Poke, CopiedSoFar;
      CopiedNothing(ram, dst, src);
      while left >= 4
        invariant left <= n && d == dst + (n - left) && s == src + (n - left) && |ram| == |old(ram)|
        invariant CopiedSoFar(old(ram), ram, dst, src, n - left)
      {
        CopiedStep(old(ram), ram, dst, src, n - left, 4);
        ram := Poke(ram, d, ram[s..s + 4]);
        d, s, left := d + 4, s + 4, left - 4;
      }
      while left > 0
        invariant left <= n && d == dst + (n - left) && s == src + (n - left) && |ram| == |old(ram)|
        invariant CopiedSoFar(old(ram), ram, dst, src, n - left)
      {
        CopiedStep(old(ram), ram, dst, src, n - left, 1);
        ram := Poke(ram, d, [ram[s]]);
        d, s, left := d + 1, s + 1, left - 1;
      }
      CopiedAll(old(ram), ram, dst, src, n);
    }

    /** The first `k` bytes at `src` have reached `dst`, and no other byte has changed. */
    static ghost predicate CopiedSoFar(ram0: seq<byte>, ram: seq<byte>, dst: nat, src: nat, k: nat) {
      && |ram| == |ram0| && src + k <= |ram| && dst + k <= |ram|
      && Copied(ram0, src, ram, dst, k)
      && forall x :: 0 <= x < |ram| && !(dst <= x < dst + k) ==> ram[x] == ram0[x]
    }

    static lemma CopiedNothing(ram: seq<byte>, dst: nat, src: nat)
      requires dst <= |ram| && src <= |ram|
      ensures CopiedSoFar(ram, ram, dst, src, 0)
    {
    }

    static lemma CopiedStep(ram0: seq<byte>, ram: seq<byte>, dst: nat, src: nat, k: nat, n: nat)
      requires CopiedSoFar(ram0, ram, dst, src, k) && dst + k + n <= |ram| && src + k + n <= |ram|
      requires dst + k + n <= src || src + k + n <= dst
      ensures CopiedSoFar(ram0, Poke(ram, dst + k, ram[src + k..src + k + n]), dst, src, k + n)
      ensures n == 1 ==> ram[src + k..src + k + n] == [ram[src + k]]
    {
    }

    static lemma CopiedAll(ram0: seq<byte>, ram: seq<byte>, dst: nat, src: nat, n: nat)
      requires CopiedSoFar(ram0, ram, dst, src, n)
      ensures Copied(ram0, src, ram, dst, n)
      ensures forall x :: 0 <= x < |ram| && !(dst <= x < dst + n) ==> ram[x] == ram0[x]
    {
    }

    lemma LiveIndex(b: Block) returns (i: nat, k: nat)
      requires Consistent() && LiveBlock(layout, b)
      ensures i < |layout| && k < |layout[i].blocks| && layout[i].blocks[k] == b
      ensures b.Payload() + b.req <= b.End() <= top
    {
      hide MajorAt, MinorAt, LayoutOk;
      i, k :| 0 <= i < |layout| && 0 <= k < |layout[i].blocks| && layout[i].blocks[k] == b;
      RegionWithin(layout, top, i);
      BlockInRegion(layout[i], k);
      PayloadPlacement(b);
    }

    lemma LiveApart(b: Block, c: Block)
      requires Consistent() && LiveBlock(layout, b) && LiveBlock(layout, c) && b != c
      ensures b.End() <= c.addr || c.End() <= b.addr
    {
      hide MajorAt, MinorAt, LayoutOk;
      var i, k := LiveIndex(b);
      var j, o := LiveIndex(c);
      BlocksDisjoint(layout, top, i, k, j, o);
    }

    lemma AllApart()
      requires Consistent()
      ensures forall c, d :: LiveBlock(layout, c) && LiveBlock(layout, d) && c != d ==> c.End() <= d.addr || d.End() <= c.addr
    {
      hide MajorAt, MinorAt, LayoutOk, Encoded;
      forall c, d | LiveBlock(layout, c) && LiveBlock(layout, d) && c != d ensures c.End() <= d.addr || d.End() <= c.addr {
        LiveApart(c, d);
      }
    }

    lemma KeptLive(heap: Layout, ram0: seq<byte>, c: Block)
      requires PayloadsKept(heap, ram0, ram) && LiveBlock(heap, c)
      ensures Agree(ram0, ram, c.Payload(), c.End())
    {
      var i, k :| 0 <= i < |heap| && 0 <= k < |heap[i].blocks| && heap[i].blocks[k] == c;
    }

    /** Recording a smaller request in place. */
    method ShrinkInPlace(min: nat, size: word, ghost i: nat, ghost k: nat)
      requires Valid() && i < |layout| && k < |layout[i].blocks| && layout[i].blocks[k].addr == min
      requires size <= layout[i].blocks[k].req
      modifies this`ram, this`layout
      ensures Valid()
      ensures Reallocated(old(layout), old(ram), layout, ram, old(layout)[i].blocks[k],
                          old(layout)[i].blocks[k].(req := size), size, old(layout)[i].blocks[k].Payload())
    {
      hide MajorAt, MinorAt, RegionOk, LayoutOk, Encoded, InUse, Allocated, WithReq, LiveBlock, Reallocated;
      MinorFacts(i, k);
      RegionWithin(layout, top, i);
      BlockInRegion(layout[i], k);
      WriteMinor(min, MinorAt(ram, min).(reqSize := size));
      ShrunkHeap(old(ram), ram, layout, top, i, k, size);
      ShrunkOutcome(old(ram), i, k, size);
      layout := layout[i := WithReq(layout[i], k, size)];
      assert forall j :: 0 <= j < |layout| ==> layout[j].base == old(layout)[j].base && |layout[j].blocks| == |old(layout)[j].blocks| by {
        WithReqShape(old(layout)[i], k, size);
      }
    }

    /** A smaller request recorded in place, seen as a reallocation. */
    lemma ShrunkOutcome(ram0: seq<byte>, i: nat, k: nat, size: nat)
      requires LayoutOk(layout, top) && top <= |ram| == |ram0| && i < |layout| && k < |layout[i].blocks|
      requires size <= layout[i].blocks[k].req && layout[i].blocks[k].End() <= top
      requires forall x :: 0 <= x < |ram| && !(layout[i].blocks[k].addr <= x < layout[i].blocks[k].addr + HEADER) ==> ram[x] == ram0[x]
      ensures var b := layout[i].blocks[k];
              Reallocated(layout, ram0, layout[i := WithReq(layout[i], k, size)], ram, b, b.(req := size), size, b.Payload())
    {
      hide LayoutOk, RegionOk, WithReq, LiveBlock;
      ShrunkLive(i, k, size);
      ShrunkKept(ram0, i, k);
      BlockPlaced(i, k);
      IsLive(layout, i, k);
    }

    lemma BlockPlaced(i: nat, k: nat)
      requires LayoutOk(layout, top) && i < |layout| && k < |layout[i].blocks|
      ensures var b := layout[i].blocks[k]; b.Payload() + b.req <= b.End()
    {
      BlockInRegion(layout[i], k);
      PayloadPlacement(layout[i].blocks[k]);
    }

    lemma WithReqShape(r: Region, k: nat, req: nat)
      requires k < |r.blocks|
      ensures WithReq(r, k, req).base == r.base && |WithReq(r, k, req).blocks| == |r.blocks|
    {
    }

    lemma ShrunkLive(i: nat, k: nat, size: nat)
      requires LayoutOk(layout, top) && i < |layout| && k < |layout[i].blocks|
      ensures forall c :: LiveBlock(layout[i := WithReq(layout[i], k, size)], c) <==>
                (LiveBlock(layout, c) && c != layout[i].blocks[k]) || c == layout[i].blocks[k].(req := size)
    {
      hide LayoutOk;
      var b, heap' := layout[i].blocks[k], layout[i := WithReq(layout[i], k, size)];
      forall c ensures LiveBlock(heap', c) <==> (LiveBlock(layout, c) && c != b) || c == b.(req := size) {
        if LiveBlock(heap', c) {
          var j, o :| 0 <= j < |heap'| && 0 <= o < |heap'[j].blocks| && heap'[j].blocks[o] == c;
          if j != i || o != k {
            assert layout[j].blocks[o] == c;
            BlocksDisjoint(layout, top, i, k, j, o);
          }
        }
        if LiveBlock(layout, c) && c != b {
          var j, o :| 0 <= j < |layout| && 0 <= o < |layout[j].blocks| && layout[j].blocks[o] == c;
          assert heap'[j].blocks[o] == c;
        }
        assert heap'[i].blocks[k] == b.(req := size);
      }
    }

    lemma ShrunkKept(ram0: seq<byte>, i: nat, k: nat)
      requires LayoutOk(layout, top) && top <= |ram| == |ram0| && i < |layout| && k < |layout[i].blocks|
      requires forall x :: 0 <= x < |ram| && !(layout[i].blocks[k].addr <= x < layout[i].blocks[k].addr + HEADER) ==> ram[x] == ram0[x]
      ensures forall c :: LiveBlock(layout, c) ==> Agree(ram0, ram, c.Payload(), c.End())
    {
      hide LayoutOk;
      forall c | LiveBlock(layout, c) ensures Agree(ram0, ram, c.Payload(), c.End()) {
        var j, o :| 0 <= j < |layout| && 0 <= o < |layout[j].blocks| && layout[j].blocks[o] == c;
        PayloadPlacement(c);
        if j != i || o != k { BlocksDisjoint(layout, top, i, k, j, o); }
      }
    }

    /** Can malloc serve a request of this size? */
    ghost predicate CanServe(size: word)
      reads this
    {
      HasRoom(layout, HEADER + size + ALIGNMENT + ALIGN_INFO) || CanGrow(PagesFor(PaddedSize(size)))
    }

    /** A free span for the request and 56 bytes, or as many pages as it and 80 bytes need, but at least 16. */
    lemma ServeMeans(size: word, n: nat)
      requires RequestOk(size) && 16 <= n && size + 80 <= n * 4096 && (n == 16 || (n - 1) * 4096 < size + 80)
      ensures CanServe(size) <==> HasRoom(layout, size + 56) || (n <= budget && top + n * 4096 <= |ram|)
    {
      NumbersOfPages(size + 32);
    }

    /**
     The growing half of realloc: new memory, copy, free the old. The source does not look at the result of
     malloc; with no new memory it copies to address 0, where no page is mapped, so the call does not return.
     */
    method Move(p: nat, realSize: nat, size: word, ghost b: Block, ghost i0: nat, ghost k0: nat) returns (q: nat, faulted: bool)
      requires Valid() && RequestOk(size) && IsPayload(p, i0, k0) && layout[i0].blocks[k0] == b && b.req == realSize < size
      modifies this
      ensures faulted == (!old(CanServe(size)) && 0 < realSize)
      ensures faulted ==> Valid() && layout == old(layout) && ram == old(ram)
      ensures !faulted ==> Valid()
      ensures old(CanServe(size)) ==> exists nb :: Reallocated(old(layout), old(ram), layout, ram, b, nb, size, q)
      ensures !faulted && !old(CanServe(size)) ==>
                q == 0 && FreeOutcome(old(layout), old(ram), old(budget), i0, k0) && OneLess(old(layout), layout, b)
    {
      hide MajorAt, MinorAt, RegionOk, LayoutOk, Encoded, InUse, Allocated, HasRoom, PayloadsKept, LiveBlock, Reallocated, MallocOutcome, FreeOutcome, AfterFree, OneLess;
      q := Malloc(size);
      faulted := q == 0 && 0 < realSize;
      if q == 0 {
        MallocFailed(old(layout), old(ram), old(top), old(budget), PaddedSize(size), size);
        if !faulted {
          FindsLive(p, i0, k0);
          Free(p);
        }
        return;
      }
      IsLive(old(layout), i0, k0);
      ghost var nb :| Served(old(layout), layout, nb, size, q);
      MallocKept(old(layout), old(ram), old(top), old(budget), PaddedSize(size), size, q);
      Carry(p, q, realSize, size, old(layout), old(ram), b, nb);
    }

    /** Copies the contents of `b` to the new block `nb` and frees `b`. */
    method Carry(p: nat, q: nat, realSize: nat, size: word, ghost heap0: Layout, ghost ram0: seq<byte>, ghost b: Block, ghost nb: Block)
      requires Valid() && LiveBlock(heap0, b) && b.Payload() == p && b.req == realSize < size
      requires Served(heap0, layout, nb, size, q) && |ram| == |ram0|
      requires forall c :: LiveBlock(heap0, c) ==> Agree(ram0, ram, c.Payload(), c.End())
      modifies this
      ensures Valid() && Reallocated(heap0, ram0, layout, ram, b, nb, size, q)
    {
      hide MajorAt, MinorAt, RegionOk, LayoutOk, Encoded, InUse, Allocated, HasRoom, PayloadsKept, LiveBlock, Reallocated, AfterFree;
      ghost var ram1, heap1 := ram, layout;
      ghost var i1, k1 := LiveIndex(nb);
      ghost var i, k := LiveIndex(b);
      AllApart();
      PayloadPlacement(b);
      PayloadPlacement(nb);
      Copy(q, p, realSize);
      PayloadWritten(ram1, ram, layout, top, i1, k1);
      ghost var ram2 := ram;
      FindsLive(p, i, k);
      Free(p);
      MovedKept(heap0, ram0, heap1, ram1, ram2, b, nb, size, q);
    }

    lemma MallocFailed(heap0: Layout, ram0: seq<byte>, top0: nat, budget0: nat, size: word, req: word)
      requires MallocOutcome(heap0, ram0, top0, budget0, size, req, 0)
      ensures layout == heap0 && ram == ram0 && top == top0 && budget == budget0
    {
      OutcomeNull(heap0, ram0, top0, budget0, size, req, 0);
    }

    lemma MallocKept(heap0: Layout, ram0: seq<byte>, top0: nat, budget0: nat, size: word, req: word, p: nat)
      requires MallocOutcome(heap0, ram0, top0, budget0, size, req, p)
      ensures |ram| == |ram0|
      ensures forall c :: LiveBlock(heap0, c) ==> Agree(ram0, ram, c.Payload(), c.End())
    {
      forall c | LiveBlock(heap0, c) ensures Agree(ram0, ram, c.Payload(), c.End()) {
        KeptLive(heap0, ram0, c);
      }
    }

    lemma FindsLive(p: nat, i: nat, k: nat)
      requires Consistent() && IsPayload(p, i, k)
      ensures FreeArgument(p)
    {
      hide MajorAt, MinorAt;
      LiveHeader(p, i, k);
    }

    lemma MovedKept(heap0: Layout, ram0: seq<byte>, heap1: Layout, ram1: seq<byte>, ram2: seq<byte>,
                    b: Block, nb: Block, size: nat, q: nat)
      requires |ram0| == |ram1| == |ram2| == |ram|
      requires Served(heap0, heap1, nb, size, q) && LiveBlock(heap0, b) && b.req < size
      requires b.Payload() + b.req <= b.End() <= |ram| && nb.Payload() + size <= nb.End() <= |ram|
      requires forall c, d :: LiveBlock(heap1, c) && LiveBlock(heap1, d) && c != d ==> c.End() <= d.addr || d.End() <= c.addr
      requires forall c :: LiveBlock(heap0, c) ==> Agree(ram0, ram1, c.Payload(), c.End())
      requires Copied(ram1, b.Payload(), ram2, q, b.req)
      requires forall x :: 0 <= x < |ram| && !(q <= x < q + b.req) ==> ram2[x] == ram1[x]
      requires OneLess(heap1, layout, b)
      requires PayloadsKept(layout, ram2, ram)
      ensures Reallocated(heap0, ram0, layout, ram, b, nb, size, q)
    {
      hide LiveBlock, PayloadsKept;
      KeptLive(layout, ram2, nb);
      PayloadPlacement(nb);
      forall c | LiveBlock(heap0, c) && c != b ensures Agree(ram0, ram, c.Payload(), c.End()) {
        PayloadPlacement(c);
        KeptLive(layout, ram2, c);
      }
    }

    method Realloc(p: nat, size: word) returns (q: nat, faulted: bool)
      requires Valid() && RequestOk(size) && FreeArgument(p)
      modifies this
      ensures Valid()
      ensures size == 0 ==> q == 0 && !faulted
      ensures p == 0 && size != 0 ==>
                && !faulted
                && MallocOutcome(old(layout), old(ram), old(top), old(budget), size + ALIGNMENT + ALIGN_INFO, size, q)
      ensures p != 0 && (forall i: nat, k: nat :: !old(IsPayload(p, i, k))) ==>
                q == 0 && !faulted && layout == old(layout) && ram == old(ram) && errorCount == old(errorCount) + 1
      ensures forall i: nat, k: nat :: old(IsPayload(p, i, k)) ==>
                var b := old(layout)[i].blocks[k];
                if size == 0 || (b.req == 0 && !old(CanServe(size))) then
                  q == 0 && !faulted && FreeOutcome(old(layout), old(ram), old(budget), i, k) && OneLess(old(layout), layout, b)
                else if size <= b.req || old(CanServe(size)) then
                  !faulted && exists nb :: Reallocated(old(layout), old(ram), layout, ram, b, nb, size, q)
                else
                  faulted && layout == old(layout) && ram == old(ram)
    {
      hide MajorAt, MinorAt, RegionOk, LayoutOk, Encoded, InUse, Allocated, HasRoom, PayloadsKept, LiveBlock, Reallocated, MallocOutcome, FreeOutcome, OneLess;
      faulted := false;
      if size == 0 {
        Free(p);
        return 0, false;
      }
      if p == 0 {
        NullIsNoPayload();
        q := Malloc(size);
        return;
      }
      var min := Unalign(p) - HEADER;
      var m := MinorAt(ram, min);
      if m.magic != MAGIC {
        NoLiveHeader(p);
        CountBadMagic(m.magic);
        return 0, false;
      }
      ghost var i: nat, k: nat :| IsPayload(p, i, k);
      LiveHeader(p, i, k);
      OnlyPayload(p, i, k);
      IsLive(layout, i, k);
      var realSize := m.reqSize;
      if realSize >= size {
        ShrinkInPlace(min, size, i, k);
        q := p;
      } else {
        q, faulted := Move(p, realSize, size, layout[i].blocks[k], i, k);
      }
    }
  }
}
