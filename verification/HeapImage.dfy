/**
 How a heap layout is represented in memory: 24-byte headers of little-endian words at the very
 addresses the allocator computes, and the alignment byte in front of every payload.
 */
module HeapImage {
  import opened Bytes
  import opened HeapLayout

  const MAGIC: nat := 0xc001c0de
  const DEAD: nat := 0xdeaddead

  datatype MajorHeader = MajorHeader(prev: nat, next: nat, pages: nat, size: nat, usage: nat, first: nat)
  {
    predicate Fits() {
      prev < 0x1_0000_0000 && next < 0x1_0000_0000 && pages < 0x1_0000_0000 &&
      size < 0x1_0000_0000 && usage < 0x1_0000_0000 && first < 0x1_0000_0000
    }
  }

  datatype MinorHeader = MinorHeader(prev: nat, next: nat, block: nat, magic: nat, size: nat, reqSize: nat)
  {
    predicate Fits() {
      prev < 0x1_0000_0000 && next < 0x1_0000_0000 && block < 0x1_0000_0000 &&
      magic < 0x1_0000_0000 && size < 0x1_0000_0000 && reqSize < 0x1_0000_0000
    }
  }

  function SixWords(w0: word, w1: word, w2: word, w3: word, w4: word, w5: word): (bs: seq<byte>)
    ensures |bs| == HEADER
  {
    Le32(w0) + Le32(w1) + Le32(w2) + Le32(w3) + Le32(w4) + Le32(w5)
  }

  function MajorAt(ram: seq<byte>, a: nat): (h: MajorHeader)
    requires a + HEADER <= |ram|
    ensures h.Fits()
  {
    MajorHeader(Load32(ram, a), Load32(ram, a + 4), Load32(ram, a + 8),
                Load32(ram, a + 12), Load32(ram, a + 16), Load32(ram, a + 20))
  }

  function MinorAt(ram: seq<byte>, a: nat): (h: MinorHeader)
    requires a + HEADER <= |ram|
    ensures h.Fits()
  {
    MinorHeader(Load32(ram, a), Load32(ram, a + 4), Load32(ram, a + 8),
                Load32(ram, a + 12), Load32(ram, a + 16), Load32(ram, a + 20))
  }

  function StoreMajor(ram: seq<byte>, a: nat, h: MajorHeader): seq<byte>
    requires a + HEADER <= |ram| && h.Fits()
  {
    Poke(ram, a, SixWords(h.prev, h.next, h.pages, h.size, h.usage, h.first))
  }

  function StoreMinor(ram: seq<byte>, a: nat, h: MinorHeader): seq<byte>
    requires a + HEADER <= |ram| && h.Fits()
  {
    Poke(ram, a, SixWords(h.prev, h.next, h.block, h.magic, h.size, h.reqSize))
  }

  /** Byte `x` is part of a header at `a`; NULL has none. */
  predicate InHeader(a: nat, x: int) { a != 0 && a <= x < a + HEADER }

  /** The 24 bytes at `c` overlap no header at `a`. */
  predicate Apart(a: nat, c: nat) { a == 0 || c + HEADER <= a || a + HEADER <= c }

  // ---------- loads and stores of headers ----------

  lemma SixLoads(ram: seq<byte>, a: nat, w0: word, w1: word, w2: word, w3: word, w4: word, w5: word)
    requires a + HEADER <= |ram|
    requires forall i :: 0 <= i < HEADER ==> ram[a + i] == SixWords(w0, w1, w2, w3, w4, w5)[i]
    ensures Load32(ram, a) == w0 && Load32(ram, a + 4) == w1 && Load32(ram, a + 8) == w2
    ensures Load32(ram, a + 12) == w3 && Load32(ram, a + 16) == w4 && Load32(ram, a + 20) == w5
  {
    hide Load32, Le32;
    var bs := SixWords(w0, w1, w2, w3, w4, w5);
    forall i | 0 <= i < 4
      ensures ram[a + i] == Le32(w0)[i] && ram[a + 4 + i] == Le32(w1)[i] && ram[a + 8 + i] == Le32(w2)[i]
      ensures ram[a + 12 + i] == Le32(w3)[i] && ram[a + 16 + i] == Le32(w4)[i] && ram[a + 20 + i] == Le32(w5)[i]
    {
      assert bs[i] == Le32(w0)[i] && bs[4 + i] == Le32(w1)[i] && bs[8 + i] == Le32(w2)[i];
      assert bs[12 + i] == Le32(w3)[i] && bs[16 + i] == Le32(w4)[i] && bs[20 + i] == Le32(w5)[i];
      assert ram[a + i] == bs[i] && ram[a + (4 + i)] == bs[4 + i] && ram[a + (8 + i)] == bs[8 + i];
      assert ram[a + (12 + i)] == bs[12 + i] && ram[a + (16 + i)] == bs[16 + i] && ram[a + (20 + i)] == bs[20 + i];
    }
    LoadStored(ram, a, w0);
    LoadStored(ram, a + 4, w1);
    LoadStored(ram, a + 8, w2);
    LoadStored(ram, a + 12, w3);
    LoadStored(ram, a + 16, w4);
    LoadStored(ram, a + 20, w5);
  }

  lemma SixLoadsAgree(ram: seq<byte>, ram': seq<byte>, a: nat)
    requires a + HEADER <= |ram|
    requires Agree(ram, ram', a, a + HEADER)
    ensures MajorAt(ram', a) == MajorAt(ram, a)
    ensures MinorAt(ram', a) == MinorAt(ram, a)
  {
    hide Load32;
    LoadAgree(ram, ram', a);
    LoadAgree(ram, ram', a + 4);
    LoadAgree(ram, ram', a + 8);
    LoadAgree(ram, ram', a + 12);
    LoadAgree(ram, ram', a + 16);
    LoadAgree(ram, ram', a + 20);
  }

  /** Storing a header makes it readable and disturbs no byte outside its 24. */
  lemma MajorStored(ram: seq<byte>, a: nat, h: MajorHeader)
    requires a + HEADER <= |ram| && h.Fits()
    ensures var r := StoreMajor(ram, a, h);
            && |r| == |ram|
            && MajorAt(r, a) == h
            && (forall x :: 0 <= x < |ram| && !(a <= x < a + HEADER) ==> r[x] == ram[x])
            && (forall c: nat :: c + HEADER <= |ram| && (c + HEADER <= a || a + HEADER <= c) ==>
                  MajorAt(r, c) == MajorAt(ram, c) && MinorAt(r, c) == MinorAt(ram, c))
  {
    hide Load32, SixWords;
    var r := StoreMajor(ram, a, h);
    SixLoads(r, a, h.prev, h.next, h.pages, h.size, h.usage, h.first);
    forall c: nat | c + HEADER <= |ram| && (c + HEADER <= a || a + HEADER <= c)
      ensures MajorAt(r, c) == MajorAt(ram, c) && MinorAt(r, c) == MinorAt(ram, c)
    {
      SixLoadsAgree(ram, r, c);
    }
  }

  /** Storing back what was loaded changes nothing. */
  lemma MajorRestored(ram: seq<byte>, a: nat)
    requires a + HEADER <= |ram|
    ensures StoreMajor(ram, a, MajorAt(ram, a)) == ram
  {
    hide Load32, Le32;
    StoredLoad(ram, a);
    StoredLoad(ram, a + 4);
    StoredLoad(ram, a + 8);
    StoredLoad(ram, a + 12);
    StoredLoad(ram, a + 16);
    StoredLoad(ram, a + 20);
  }

  lemma MinorStored(ram: seq<byte>, a: nat, h: MinorHeader)
    requires a + HEADER <= |ram| && h.Fits()
    ensures var r := StoreMinor(ram, a, h);
            && |r| == |ram|
            && MinorAt(r, a) == h
            && (forall x :: 0 <= x < |ram| && !(a <= x < a + HEADER) ==> r[x] == ram[x])
            && (forall c: nat :: c + HEADER <= |ram| && (c + HEADER <= a || a + HEADER <= c) ==>
                  MajorAt(r, c) == MajorAt(ram, c) && MinorAt(r, c) == MinorAt(ram, c))
  {
    hide Load32, SixWords;
    var r := StoreMinor(ram, a, h);
    SixLoads(r, a, h.prev, h.next, h.block, h.magic, h.size, h.reqSize);
    forall c: nat | c + HEADER <= |ram| && (c + HEADER <= a || a + HEADER <= c)
      ensures MajorAt(r, c) == MajorAt(ram, c) && MinorAt(r, c) == MinorAt(ram, c)
    {
      SixLoadsAgree(ram, r, c);
    }
  }

  // ---------- what memory must hold ----------

  ghost function ExpectedMinor(r: Region, k: nat): MinorHeader
    requires k < |r.blocks|
  {
    MinorHeader(if k == 0 then 0 else r.blocks[k - 1].addr,
                if k + 1 < |r.blocks| then r.blocks[k + 1].addr else 0,
                r.base, MAGIC, r.blocks[k].size, r.blocks[k].req)
  }

  ghost function FirstOf(r: Region): nat { if r.blocks == [] then 0 else r.blocks[0].addr }

  ghost function ExpectedMajor(heap: Layout, i: nat): MajorHeader
    requires i < |heap|
  {
    MajorHeader(if i == 0 then 0 else heap[i - 1].base,
                if i + 1 < |heap| then heap[i + 1].base else 0,
                heap[i].pages, heap[i].pages * PAGE, Usage(heap[i]), FirstOf(heap[i]))
  }

  /** The alignment byte: how far the payload lies behind the end of its header. */
  ghost predicate AlignByteOk(ram: seq<byte>, b: Block) {
    && b.End() <= |ram|
    && b.addr + HEADER <= b.Payload() - ALIGN_INFO < b.End()
    && ram[b.Payload() - ALIGN_INFO] == b.Payload() - (b.addr + HEADER)
  }

  ghost predicate MinorEncoded(ram: seq<byte>, r: Region, k: nat)
    requires k < |r.blocks|
  {
    && r.blocks[k].addr + HEADER <= |ram|
    && MinorAt(ram, r.blocks[k].addr) == ExpectedMinor(r, k)
    && AlignByteOk(ram, r.blocks[k])
  }

  ghost predicate RegionEncoded(ram: seq<byte>, r: Region) {
    forall k :: 0 <= k < |r.blocks| ==> MinorEncoded(ram, r, k)
  }

  ghost predicate MajorEncoded(ram: seq<byte>, heap: Layout, i: nat)
    requires i < |heap|
  {
    heap[i].base + HEADER <= |ram| && MajorAt(ram, heap[i].base) == ExpectedMajor(heap, i)
  }

  ghost predicate Encoded(ram: seq<byte>, heap: Layout) {
    && (forall i :: 0 <= i < |heap| ==> MajorEncoded(ram, heap, i))
    && (forall i :: 0 <= i < |heap| ==> RegionEncoded(ram, heap[i]))
  }

  // ---------- alignment ----------

  lemma PayloadPlacement(b: Block)
    ensures b.Payload() % ALIGNMENT == 0
    ensures b.addr + HEADER + ALIGN_INFO <= b.Payload() < b.addr + HEADER + ALIGN_INFO + ALIGNMENT
    ensures b.req + ALIGNMENT + ALIGN_INFO <= b.size ==> b.Payload() + b.req <= b.End()
  {
  }

  // ---------- frames ----------

  lemma MinorFrame(ram: seq<byte>, ram': seq<byte>, r: Region, k: nat)
    requires k < |r.blocks| && MinorEncoded(ram, r, k) && r.blocks[k].End() <= |ram|
    requires Agree(ram, ram', r.blocks[k].addr, r.blocks[k].End())
    ensures MinorEncoded(ram', r, k)
  {
    hide MinorAt;
    SixLoadsAgree(ram, ram', r.blocks[k].addr);
  }

  lemma RegionFrame(ram: seq<byte>, ram': seq<byte>, r: Region)
    requires RegionOk(r) && RegionEncoded(ram, r) && r.End() <= |ram|
    requires Agree(ram, ram', r.base + HEADER, r.End())
    ensures RegionEncoded(ram', r)
  {
    forall k | 0 <= k < |r.blocks| ensures MinorEncoded(ram', r, k) {
      hide MinorAt;
      MinorFrame(ram, ram', r, k);
    }
  }

  /** Bytes of a region that an update around slot `k` may touch: the new block and its neighbours' headers. */
  ghost predicate NearSlot(r: Region, k: nat, b: Block, x: int)
    requires k <= |r.blocks|
  {
    || b.addr <= x < b.End()
    || (0 < k && r.blocks[k - 1].addr <= x < r.blocks[k - 1].addr + HEADER)
    || (k < |r.blocks| && r.blocks[k].addr <= x < r.blocks[k].addr + HEADER)
  }

  ghost predicate CanInsert(r: Region, k: nat, b: Block)
  {
    && RegionOk(r) && k <= |r.blocks|
    && b.addr == GapStart(r, k) && GapFits(r, k, HEADER + b.size)
    && b.req + ALIGNMENT + ALIGN_INFO <= b.size
  }

  /** An update around slot `k` leaves every block's payload alone, and every header but the neighbours'. */
  lemma AwayFromSlot(r: Region, k: nat, b: Block, o: nat)
    requires CanInsert(r, k, b) && o < |r.blocks|
    ensures forall x :: r.blocks[o].addr + HEADER <= x < r.blocks[o].End() ==> !NearSlot(r, k, b, x)
    ensures o != k && o != k - 1 ==> forall x :: r.blocks[o].addr <= x < r.blocks[o].End() ==> !NearSlot(r, k, b, x)
  {
    var c := r.blocks[o];
    if o < k {
      assert o == k - 1 || c.End() <= r.blocks[k - 1].addr;
      assert k < |r.blocks| ==> c.End() <= r.blocks[k].addr;
    } else {
      assert o == k || r.blocks[k].End() <= c.addr;
      assert 0 < k ==> r.blocks[k - 1].End() <= c.addr;
    }
  }

  lemma BlockInRegion(r: Region, o: nat)
    requires RegionOk(r) && o < |r.blocks|
    ensures r.base + HEADER <= r.blocks[o].addr && r.blocks[o].End() <= r.End()
    ensures r.blocks[o].req + ALIGNMENT + ALIGN_INFO <= r.blocks[o].size
  {
  }

  lemma InsertedAlignByte(ram: seq<byte>, ram': seq<byte>, r: Region, k: nat, b: Block, o: nat)
    requires CanInsert(r, k, b) && r.End() <= |ram| == |ram'|
    requires o < |r.blocks| && AlignByteOk(ram, r.blocks[o])
    requires forall x :: r.base + HEADER <= x < r.End() && !NearSlot(r, k, b, x) ==> ram'[x] == ram[x]
    ensures AlignByteOk(ram', r.blocks[o])
  {
    hide NearSlot;
    AwayFromSlot(r, k, b, o);
    BlockInRegion(r, o);
  }

  /** Only the neighbours' links change when a block is inserted. */
  lemma InsertedExpected(r: Region, k: nat, b: Block, o: nat)
    requires k <= |r.blocks| && o < |r.blocks|
    ensures var r', o' := Insert(r, k, b), if o < k then o else o + 1;
            && o' < |r'.blocks| && r'.blocks[o'] == r.blocks[o]
            && ExpectedMinor(r', o') ==
               if o + 1 == k then ExpectedMinor(r, o).(next := b.addr)
               else if o == k then ExpectedMinor(r, o).(prev := b.addr)
               else ExpectedMinor(r, o)
  {
    InsertIndex(r, k, b);
  }

  lemma InsertedMinor(ram: seq<byte>, ram': seq<byte>, r: Region, k: nat, b: Block, j: nat)
    requires CanInsert(r, k, b) && RegionEncoded(ram, r) && r.End() <= |ram| == |ram'|
    requires j < |Insert(r, k, b).blocks|
    requires MinorEncoded(ram', Insert(r, k, b), k)
    requires 0 < k ==> MinorAt(ram', r.blocks[k - 1].addr) == ExpectedMinor(r, k - 1).(next := b.addr)
    requires k < |r.blocks| ==> MinorAt(ram', r.blocks[k].addr) == ExpectedMinor(r, k).(prev := b.addr)
    requires forall x :: r.base + HEADER <= x < r.End() && !NearSlot(r, k, b, x) ==> ram'[x] == ram[x]
    ensures MinorEncoded(ram', Insert(r, k, b), j)
  {
    hide MinorAt, NearSlot, RegionOk, GapFits, GapStart, Insert;
    if j != k {
      InsertIndex(r, k, b);
      var o := if j < k then j else j - 1;
      assert MinorEncoded(ram, r, o);
      AwayFromSlot(r, k, b, o);
      BlockInRegion(r, o);
      InsertedAlignByte(ram, ram', r, k, b, o);
      InsertedExpected(r, k, b, o);
      if o != k && o != k - 1 {
        SixLoadsAgree(ram, ram', r.blocks[o].addr);
      }
    }
  }

  lemma InsertedRegion(ram: seq<byte>, ram': seq<byte>, r: Region, k: nat, b: Block)
    requires CanInsert(r, k, b) && RegionEncoded(ram, r) && r.End() <= |ram| == |ram'|
    requires |Insert(r, k, b).blocks| == |r.blocks| + 1
    requires MinorEncoded(ram', Insert(r, k, b), k)
    requires 0 < k ==> MinorAt(ram', r.blocks[k - 1].addr) == ExpectedMinor(r, k - 1).(next := b.addr)
    requires k < |r.blocks| ==> MinorAt(ram', r.blocks[k].addr) == ExpectedMinor(r, k).(prev := b.addr)
    requires forall x :: r.base + HEADER <= x < r.End() && !NearSlot(r, k, b, x) ==> ram'[x] == ram[x]
    ensures RegionEncoded(ram', Insert(r, k, b))
  {
    hide MinorAt, MinorEncoded;
    forall j | 0 <= j < |Insert(r, k, b).blocks| ensures MinorEncoded(ram', Insert(r, k, b), j) {
      InsertedMinor(ram, ram', r, k, b, j);
    }
  }

  // ---------- removing a block ----------

  /** Bytes that unlinking block `k` may touch: its own header and its neighbours'. */
  ghost predicate NearBlock(r: Region, k: nat, x: int)
    requires k < |r.blocks|
  {
    || r.blocks[k].addr <= x < r.blocks[k].addr + HEADER
    || (0 < k && r.blocks[k - 1].addr <= x < r.blocks[k - 1].addr + HEADER)
    || (k + 1 < |r.blocks| && r.blocks[k + 1].addr <= x < r.blocks[k + 1].addr + HEADER)
  }

  lemma AwayFromBlock(r: Region, k: nat, o: nat)
    requires RegionOk(r) && k < |r.blocks| && o < |r.blocks|
    ensures forall x :: r.blocks[o].addr + HEADER <= x < r.blocks[o].End() ==> !NearBlock(r, k, x)
    ensures o != k && o + 1 != k && o != k + 1 ==> forall x :: r.blocks[o].addr <= x < r.blocks[o].End() ==> !NearBlock(r, k, x)
  {
    var c := r.blocks[o];
    assert o < k ==> c.End() <= r.blocks[k].addr;
    assert k < o ==> r.blocks[k].End() <= c.addr;
    assert 0 < k && o < k - 1 ==> c.End() <= r.blocks[k - 1].addr;
    assert 0 < k && k - 1 < o ==> r.blocks[k - 1].End() <= c.addr;
    assert k + 1 < |r.blocks| && o < k + 1 ==> c.End() <= r.blocks[k + 1].addr;
    assert k + 1 < |r.blocks| && k + 1 < o ==> r.blocks[k + 1].End() <= c.addr;
  }

  /** Only the neighbours' links change when a block is removed. */
  lemma RemovedExpected(r: Region, k: nat, o: nat)
    requires k < |r.blocks| && o < |r.blocks| && o != k
    ensures var r', o' := Remove(r, k), if o < k then o else o - 1;
            && o' < |r'.blocks| && r'.blocks[o'] == r.blocks[o]
            && ExpectedMinor(r', o') ==
               if o + 1 == k then ExpectedMinor(r, o).(next := ExpectedMinor(r, k).next)
               else if o == k + 1 then ExpectedMinor(r, o).(prev := ExpectedMinor(r, k).prev)
               else ExpectedMinor(r, o)
  {
  }

  lemma RemovedMinor(ram: seq<byte>, ram': seq<byte>, r: Region, k: nat, o: nat)
    requires RegionOk(r) && k < |r.blocks| && RegionEncoded(ram, r) && r.End() <= |ram| == |ram'|
    requires o < |r.blocks| && o != k
    requires 0 < k ==> MinorAt(ram', r.blocks[k - 1].addr) == ExpectedMinor(r, k - 1).(next := ExpectedMinor(r, k).next)
    requires k + 1 < |r.blocks| ==> MinorAt(ram', r.blocks[k + 1].addr) == ExpectedMinor(r, k + 1).(prev := ExpectedMinor(r, k).prev)
    requires forall x :: r.base + HEADER <= x < r.End() && !NearBlock(r, k, x) ==> ram'[x] == ram[x]
    ensures var o' := if o < k then o else o - 1;
            o' < |Remove(r, k).blocks| && MinorEncoded(ram', Remove(r, k), o')
  {
    hide MinorAt, NearBlock, RegionOk, Remove;
    assert MinorEncoded(ram, r, o);
    AwayFromBlock(r, k, o);
    BlockInRegion(r, o);
    RemovedExpected(r, k, o);
    if o + 1 != k && o != k + 1 {
      SixLoadsAgree(ram, ram', r.blocks[o].addr);
    }
  }

  lemma RemovedRegion(ram: seq<byte>, ram': seq<byte>, r: Region, k: nat)
    requires RegionOk(r) && k < |r.blocks| && RegionEncoded(ram, r) && r.End() <= |ram| == |ram'|
    requires 0 < k ==> MinorAt(ram', r.blocks[k - 1].addr) == ExpectedMinor(r, k - 1).(next := ExpectedMinor(r, k).next)
    requires k + 1 < |r.blocks| ==> MinorAt(ram', r.blocks[k + 1].addr) == ExpectedMinor(r, k + 1).(prev := ExpectedMinor(r, k).prev)
    requires forall x :: r.base + HEADER <= x < r.End() && !NearBlock(r, k, x) ==> ram'[x] == ram[x]
    ensures RegionEncoded(ram', Remove(r, k))
  {
    hide MinorAt, MinorEncoded, NearBlock, RegionOk, ExpectedMinor;
    forall j | 0 <= j < |Remove(r, k).blocks| ensures MinorEncoded(ram', Remove(r, k), j) {
      RemovedMinor(ram, ram', r, k, if j < k then j else j + 1);
    }
  }

  // ---------- updates of one region, seen from the whole heap ----------

  lemma ReplacedRegion(ram: seq<byte>, ram': seq<byte>, heap: Layout, top: nat, i: nat, r: Region)
    requires LayoutOk(heap, top) && Encoded(ram, heap) && top <= |ram| == |ram'|
    requires i < |heap| && r.base == heap[i].base && r.pages == heap[i].pages && RegionOk(r)
    requires RegionEncoded(ram', r)
    requires MajorAt(ram', r.base) == ExpectedMajor(heap, i).(usage := Usage(r), first := FirstOf(r))
    requires forall x :: 0 <= x < |ram| && !(r.base <= x < r.End()) ==> ram'[x] == ram[x]
    ensures LayoutOk(heap[i := r], top) && Encoded(ram', heap[i := r])
  {
    hide MajorAt, RegionEncoded, RegionOk, Usage, FirstOf;
    var heap' := heap[i := r];
    forall j | 0 <= j < |heap'|
      ensures MajorEncoded(ram', heap', j) && RegionEncoded(ram', heap'[j])
    {
      if j != i {
        assert MajorEncoded(ram, heap, j) && RegionEncoded(ram, heap[j]);
        assert heap[j].End() <= r.base || r.End() <= heap[j].base by { assert heap[i].base == r.base; }
        RegionNotEmpty(heap[j]);
        SixLoadsAgree(ram, ram', heap[j].base);
        RegionFrame(ram, ram', heap[j]);
      } else {
        assert MajorEncoded(ram, heap, i);
      }
    }
  }

  lemma RegionNotEmpty(r: Region)
    requires RegionOk(r)
    ensures r.base + HEADER <= r.End()
  {
  }

  /** A fresh major linked behind the last one. */
  lemma AppendedRegion(ram: seq<byte>, ram': seq<byte>, heap: Layout, top: nat, pages: nat)
    requires LayoutOk(heap, top) && Encoded(ram, heap) && 0 < pages && 0 < top
    requires top + pages * PAGE <= |ram| == |ram'| && top + pages * PAGE < 0x1_0000_0000
    requires MajorAt(ram', top) == MajorHeader(if heap == [] then 0 else heap[|heap| - 1].base, 0, pages, pages * PAGE, HEADER, 0)
    requires heap != [] ==> MajorAt(ram', heap[|heap| - 1].base) == ExpectedMajor(heap, |heap| - 1).(next := top)
    requires forall x :: 0 <= x < top && !(heap != [] && heap[|heap| - 1].base <= x < heap[|heap| - 1].base + HEADER) ==> ram'[x] == ram[x]
    ensures LayoutOk(heap + [Region(top, pages, [])], top + pages * PAGE)
    ensures Encoded(ram', heap + [Region(top, pages, [])])
  {
    hide MajorAt, RegionEncoded, RegionOk;
    var heap' := heap + [Region(top, pages, [])];
    AppendedLast(ram', top, pages);
    forall j | 0 <= j < |heap'|
      ensures MajorEncoded(ram', heap', j) && RegionEncoded(ram', heap'[j])
    {
      if j < |heap| {
        assert MajorEncoded(ram, heap, j) && RegionEncoded(ram, heap[j]);
        RegionNotEmpty(heap[j]);
        if j < |heap| - 1 {
          assert heap[j].End() <= heap[|heap| - 1].base;
          SixLoadsAgree(ram, ram', heap[j].base);
        }
        RegionFrame(ram, ram', heap[j]);
      }
    }
  }

  lemma AppendedLast(ram: seq<byte>, top: nat, pages: nat)
    requires 0 < top && 0 < pages
    ensures RegionOk(Region(top, pages, [])) && RegionEncoded(ram, Region(top, pages, []))
    ensures Usage(Region(top, pages, [])) == HEADER && FirstOf(Region(top, pages, [])) == 0
  {
  }

  /** Bytes that unlinking major `i` may touch: its neighbours' headers. */
  ghost predicate NearMajor(heap: Layout, i: nat, x: int)
    requires i < |heap|
  {
    || (0 < i && heap[i - 1].base <= x < heap[i - 1].base + HEADER)
    || (i + 1 < |heap| && heap[i + 1].base <= x < heap[i + 1].base + HEADER)
  }

  lemma DroppedLayout(heap: Layout, top: nat, i: nat)
    requires LayoutOk(heap, top) && i < |heap|
    ensures LayoutOk(heap[..i] + heap[i + 1..], top)
  {
    hide RegionOk;
    var heap' := heap[..i] + heap[i + 1..];
    assert forall j :: 0 <= j < |heap'| ==> heap'[j] == heap[if j < i then j else j + 1];
  }

  /** An emptied major unlinked from the list and handed back. */
  lemma DroppedRegion(ram: seq<byte>, ram': seq<byte>, heap: Layout, top: nat, i: nat)
    requires LayoutOk(heap, top) && Encoded(ram, heap) && top <= |ram| == |ram'| && i < |heap|
    requires 0 < i ==> MajorAt(ram', heap[i - 1].base) == ExpectedMajor(heap, i - 1).(next := ExpectedMajor(heap, i).next)
    requires i + 1 < |heap| ==> MajorAt(ram', heap[i + 1].base) == ExpectedMajor(heap, i + 1).(prev := ExpectedMajor(heap, i).prev)
    requires forall x :: 0 <= x < |ram| && !NearMajor(heap, i, x) ==> ram'[x] == ram[x]
    ensures LayoutOk(heap[..i] + heap[i + 1..], top)
    ensures Encoded(ram', heap[..i] + heap[i + 1..])
  {
    hide MajorAt, RegionEncoded, MajorEncoded, LayoutOk, NearMajor;
    DroppedLayout(heap, top, i);
    var heap' := heap[..i] + heap[i + 1..];
    forall j | 0 <= j < |heap'|
      ensures MajorEncoded(ram', heap', j) && RegionEncoded(ram', heap'[j])
    {
      DroppedOthers(ram, ram', heap, top, i, if j < i then j else j + 1);
    }
  }

  lemma AwayFromMajor(heap: Layout, top: nat, i: nat, o: nat)
    requires LayoutOk(heap, top) && i < |heap| && o < |heap| && o != i
    ensures forall x :: heap[o].base + HEADER <= x < heap[o].End() ==> !NearMajor(heap, i, x)
    ensures o + 1 != i && o != i + 1 ==> forall x :: heap[o].base <= x < heap[o].End() ==> !NearMajor(heap, i, x)
    ensures heap[o].End() <= top && heap[o].base + HEADER <= heap[o].End() && RegionOk(heap[o])
  {
    hide RegionOk;
    RegionNotEmpty(heap[o]);
    if 0 < i {
      RegionNotEmpty(heap[i - 1]);
      assert o < i - 1 ==> heap[o].End() <= heap[i - 1].base;
      assert i - 1 < o ==> heap[i - 1].End() <= heap[o].base;
    }
    if i + 1 < |heap| {
      RegionNotEmpty(heap[i + 1]);
      assert o < i + 1 ==> heap[o].End() <= heap[i + 1].base;
      assert i + 1 < o ==> heap[i + 1].End() <= heap[o].base;
    }
  }

  lemma DroppedExpected(heap: Layout, i: nat, o: nat)
    requires i < |heap| && o < |heap| && o != i
    ensures var heap', o' := heap[..i] + heap[i + 1..], if o < i then o else o - 1;
            && o' < |heap'| && heap'[o'] == heap[o]
            && ExpectedMajor(heap', o') ==
               if o + 1 == i then ExpectedMajor(heap, o).(next := ExpectedMajor(heap, i).next)
               else if o == i + 1 then ExpectedMajor(heap, o).(prev := ExpectedMajor(heap, i).prev)
               else ExpectedMajor(heap, o)
  {
    hide Usage, FirstOf;
  }

  lemma DroppedOthers(ram: seq<byte>, ram': seq<byte>, heap: Layout, top: nat, i: nat, o: nat)
    requires LayoutOk(heap, top) && Encoded(ram, heap) && top <= |ram| == |ram'| && i < |heap|
    requires o < |heap| && o != i
    requires 0 < i ==> MajorAt(ram', heap[i - 1].base) == ExpectedMajor(heap, i - 1).(next := ExpectedMajor(heap, i).next)
    requires i + 1 < |heap| ==> MajorAt(ram', heap[i + 1].base) == ExpectedMajor(heap, i + 1).(prev := ExpectedMajor(heap, i).prev)
    requires forall x :: 0 <= x < |ram| && !NearMajor(heap, i, x) ==> ram'[x] == ram[x]
    ensures var heap', o' := heap[..i] + heap[i + 1..], if o < i then o else o - 1;
            o' < |heap'| && MajorEncoded(ram', heap', o') && RegionEncoded(ram', heap'[o'])
  {
    hide MajorAt, RegionEncoded, RegionOk, LayoutOk, NearMajor, Usage, FirstOf;
    assert MajorEncoded(ram, heap, o) && RegionEncoded(ram, heap[o]);
    AwayFromMajor(heap, top, i, o);
    DroppedExpected(heap, i, o);
    if o + 1 != i && o != i + 1 {
      SixLoadsAgree(ram, ram', heap[o].base);
    }
    RegionFrame(ram, ram', heap[o]);
  }

  // ---------- whole-heap effects of placing and of unlinking a block ----------

  /** No byte of any live payload differs; `heap` lists the payloads that must survive. */
  ghost predicate PayloadsKept(heap: Layout, ram: seq<byte>, ram': seq<byte>) {
    forall i, k :: 0 <= i < |heap| && 0 <= k < |heap[i].blocks| ==>
      Agree(ram, ram', heap[i].blocks[k].Payload(), heap[i].blocks[k].End())
  }

  /** The bytes a placement may write: its major's header, the new block and its neighbours' headers. */
  ghost predicate PlacementWrites(r: Region, k: nat, b: Block, x: int)
    requires k <= |r.blocks|
  {
    r.base <= x < r.base + HEADER || NearSlot(r, k, b, x)
  }

  lemma PlacedHeap(ram: seq<byte>, ram': seq<byte>, heap: Layout, top: nat, i: nat, k: nat, b: Block)
    requires LayoutOk(heap, top) && Encoded(ram, heap) && top <= |ram| == |ram'| && i < |heap|
    requires CanInsert(heap[i], k, b)
    requires AlignByteOk(ram', b)
    requires k < |Insert(heap[i], k, b).blocks| && MinorAt(ram', b.addr) == ExpectedMinor(Insert(heap[i], k, b), k)
    requires 0 < k ==> MinorAt(ram', heap[i].blocks[k - 1].addr) == ExpectedMinor(heap[i], k - 1).(next := b.addr)
    requires k < |heap[i].blocks| ==> MinorAt(ram', heap[i].blocks[k].addr) == ExpectedMinor(heap[i], k).(prev := b.addr)
    requires MajorAt(ram', heap[i].base) ==
             ExpectedMajor(heap, i).(usage := Usage(heap[i]) + b.size + HEADER,
                                     first := if k == 0 then b.addr else FirstOf(heap[i]))
    requires forall x :: 0 <= x < |ram| && !PlacementWrites(heap[i], k, b, x) ==> ram'[x] == ram[x]
    ensures LayoutOk(heap[i := Insert(heap[i], k, b)], top)
    ensures Encoded(ram', heap[i := Insert(heap[i], k, b)])
    ensures PayloadsKept(heap, ram, ram')
  {
    hide MajorAt, MinorAt, LayoutOk, RegionOk, NearSlot, RegionEncoded, GapFits, GapStart;
    var r := heap[i];
    assert RegionEncoded(ram, r);
    RegionWithin(heap, top, i);
    InsertIndex(r, k, b);
    InsertGeometry(r, k, b);
    InsertSums(r, k, b);
    SlotInRegion(r, k, b);
    InsertedRegion(ram, ram', r, k, b);
    assert FirstOf(Insert(r, k, b)) == if k == 0 then b.addr else FirstOf(r);
    ReplacedRegion(ram, ram', heap, top, i, Insert(r, k, b));
    forall j, o | 0 <= j < |heap| && 0 <= o < |heap[j].blocks|
      ensures Agree(ram, ram', heap[j].blocks[o].Payload(), heap[j].blocks[o].End())
    {
      PayloadPlacement(heap[j].blocks[o]);
      RegionWithin(heap, top, j);
      BlockInRegion(heap[j], o);
      if j == i { AwayFromSlot(r, k, b, o); } else { RegionsApart(heap, top, i, j); }
    }
  }

  /** Bytes above the last major mean nothing to the heap. */
  lemma AboveTop(ram: seq<byte>, ram': seq<byte>, heap: Layout, top: nat)
    requires LayoutOk(heap, top) && Encoded(ram, heap) && top <= |ram| && Agree(ram, ram', 0, top)
    ensures Encoded(ram', heap) && PayloadsKept(heap, ram, ram')
  {
    hide MajorAt, MinorAt, RegionOk;
    forall i | 0 <= i < |heap| ensures MajorEncoded(ram', heap, i) && RegionEncoded(ram', heap[i]) {
      RegionWithin(heap, top, i);
      assert MajorEncoded(ram, heap, i);
      SixLoadsAgree(ram, ram', heap[i].base);
      RegionFrame(ram, ram', heap[i]);
    }
    forall i, k | 0 <= i < |heap| && 0 <= k < |heap[i].blocks|
      ensures Agree(ram, ram', heap[i].blocks[k].Payload(), heap[i].blocks[k].End())
    {
      RegionWithin(heap, top, i);
      BlockInRegion(heap[i], k);
    }
  }

  lemma RegionWithin(heap: Layout, top: nat, i: nat)
    requires LayoutOk(heap, top) && i < |heap|
    ensures RegionOk(heap[i]) && heap[i].base + HEADER <= heap[i].End() <= top < 0x1_0000_0000
  {
  }

  lemma RegionsApart(heap: Layout, top: nat, i: nat, j: nat)
    requires LayoutOk(heap, top) && i < |heap| && j < |heap| && i != j
    ensures heap[i].End() <= heap[j].base || heap[j].End() <= heap[i].base
  {
  }

  lemma SlotInRegion(r: Region, k: nat, b: Block)
    requires CanInsert(r, k, b)
    ensures r.base + HEADER <= b.addr && b.End() <= r.End()
    ensures forall x :: NearSlot(r, k, b, x) ==> r.base + HEADER <= x < r.End()
  {
  }

  lemma UnlinkedHeap(ram: seq<byte>, ram': seq<byte>, heap: Layout, top: nat, i: nat, k: nat)
    requires LayoutOk(heap, top) && Encoded(ram, heap) && top <= |ram| == |ram'|
    requires i < |heap| && k < |heap[i].blocks|
    requires var r := heap[i];
             && (0 < k ==> MinorAt(ram', r.blocks[k - 1].addr) == ExpectedMinor(r, k - 1).(next := ExpectedMinor(r, k).next))
             && (k + 1 < |r.blocks| ==> MinorAt(ram', r.blocks[k + 1].addr) == ExpectedMinor(r, k + 1).(prev := ExpectedMinor(r, k).prev))
    requires MajorAt(ram', heap[i].base) ==
             ExpectedMajor(heap, i).(usage := Usage(Remove(heap[i], k)), first := FirstOf(Remove(heap[i], k)))
    requires forall x :: 0 <= x < |ram| && !(heap[i].base <= x < heap[i].base + HEADER) && !NearBlock(heap[i], k, x) ==> ram'[x] == ram[x]
    ensures LayoutOk(heap[i := Remove(heap[i], k)], top)
    ensures Encoded(ram', heap[i := Remove(heap[i], k)])
    ensures PayloadsKept(heap, ram, ram')
  {
    hide MajorAt, MinorAt, LayoutOk, RegionOk, NearBlock, RegionEncoded, ExpectedMinor, FirstOf, Usage, Sizes;
    var r := heap[i];
    RemovedFirst(r, k);
    assert RegionEncoded(ram, r);
    RegionWithin(heap, top, i);
    RemoveGeometry(r, k);
    RemoveSums(r, k);
    NearBlockInRegion(r, k);
    RemovedRegion(ram, ram', r, k);
    ReplacedRegion(ram, ram', heap, top, i, Remove(r, k));
    UnlinkKeepsPayloads(ram, ram', heap, top, i, k);
  }

  lemma RemovedFirst(r: Region, k: nat)
    requires k < |r.blocks|
    ensures FirstOf(Remove(r, k)) == if k == 0 then ExpectedMinor(r, 0).next else FirstOf(r)
    ensures Remove(r, k).base == r.base && Remove(r, k).pages == r.pages
  {
  }

  lemma UnlinkKeepsPayloads(ram: seq<byte>, ram': seq<byte>, heap: Layout, top: nat, i: nat, k: nat)
    requires LayoutOk(heap, top) && top <= |ram| == |ram'|
    requires i < |heap| && k < |heap[i].blocks|
    requires forall x :: 0 <= x < |ram| && !(heap[i].base <= x < heap[i].base + HEADER) && !NearBlock(heap[i], k, x) ==> ram'[x] == ram[x]
    ensures PayloadsKept(heap, ram, ram')
  {
    hide LayoutOk, RegionOk, NearBlock;
    RegionWithin(heap, top, i);
    NearBlockInRegion(heap[i], k);
    forall j, o | 0 <= j < |heap| && 0 <= o < |heap[j].blocks|
      ensures Agree(ram, ram', heap[j].blocks[o].Payload(), heap[j].blocks[o].End())
    {
      PayloadPlacement(heap[j].blocks[o]);
      RegionWithin(heap, top, j);
      BlockInRegion(heap[j], o);
      if j == i { AwayFromBlock(heap[i], k, o); } else { RegionsApart(heap, top, i, j); }
    }
  }

  lemma NearBlockInRegion(r: Region, k: nat)
    requires RegionOk(r) && k < |r.blocks|
    ensures forall x :: NearBlock(r, k, x) ==> r.base + HEADER <= x < r.End()
  {
  }

  // ---------- writes by the owner of a payload ----------

  /** Whatever a program stores in a payload it owns, every header and alignment byte still holds. */
  lemma PayloadWritten(ram: seq<byte>, ram': seq<byte>, heap: Layout, top: nat, i: nat, k: nat)
    requires LayoutOk(heap, top) && Encoded(ram, heap) && top <= |ram| == |ram'|
    requires i < |heap| && k < |heap[i].blocks|
    requires forall x :: 0 <= x < |ram| && !(heap[i].blocks[k].Payload() <= x < heap[i].blocks[k].End()) ==> ram'[x] == ram[x]
    ensures Encoded(ram', heap)
  {
    hide MajorAt, MinorAt, LayoutOk, RegionOk;
    var b := heap[i].blocks[k];
    PayloadPlacement(b);
    RegionWithin(heap, top, i);
    BlockInRegion(heap[i], k);
    forall j | 0 <= j < |heap| ensures MajorEncoded(ram', heap, j) && RegionEncoded(ram', heap[j]) {
      assert MajorEncoded(ram, heap, j) && RegionEncoded(ram, heap[j]);
      RegionWithin(heap, top, j);
      if j != i { RegionsApart(heap, top, i, j); }
      SixLoadsAgree(ram, ram', heap[j].base);
      if j != i {
        RegionFrame(ram, ram', heap[j]);
      } else {
        forall o | 0 <= o < |heap[i].blocks| ensures MinorEncoded(ram', heap[i], o) {
          assert MinorEncoded(ram, heap[i], o);
          PayloadPlacement(heap[i].blocks[o]);
          BlockInRegion(heap[i], o);
          if o != k { BlocksApart(heap[i], k, o); }
          SixLoadsAgree(ram, ram', heap[i].blocks[o].addr);
        }
      }
    }
  }

  /** Recording a smaller request in a minor's header. */
  function WithReq(r: Region, k: nat, req: nat): Region
    requires k < |r.blocks|
  {
    r.(blocks := r.blocks[k := r.blocks[k].(req := req)])
  }

  lemma {:induction false} SameSizes(a: seq<Block>, b: seq<Block>)
    requires |a| == |b| && forall j :: 0 <= j < |a| ==> a[j].size == b[j].size
    ensures Used(a) == Used(b) && Sizes(a) == Sizes(b)
  {
    if a != [] { SameSizes(a[1..], b[1..]); }
  }

  lemma WithReqOk(r: Region, k: nat, req: nat)
    requires RegionOk(r) && k < |r.blocks| && req <= r.blocks[k].req
    ensures RegionOk(WithReq(r, k, req))
    ensures Usage(WithReq(r, k, req)) == Usage(r) && FirstOf(WithReq(r, k, req)) == FirstOf(r)
    ensures Sizes(WithReq(r, k, req).blocks) == Sizes(r.blocks)
  {
    var r' := WithReq(r, k, req);
    SameSizes(r'.blocks, r.blocks);
    assert forall j :: 0 <= j < |r.blocks| ==> r'.blocks[j].addr == r.blocks[j].addr && r'.blocks[j].size == r.blocks[j].size;
  }

  lemma ShrunkRegion(ram: seq<byte>, ram': seq<byte>, r: Region, k: nat, req: nat)
    requires RegionOk(r) && RegionEncoded(ram, r) && r.End() <= |ram| == |ram'|
    requires k < |r.blocks| && req <= r.blocks[k].req
    requires MinorAt(ram', r.blocks[k].addr) == ExpectedMinor(r, k).(reqSize := req)
    requires forall x :: 0 <= x < |ram| && !(r.blocks[k].addr <= x < r.blocks[k].addr + HEADER) ==> ram'[x] == ram[x]
    ensures RegionEncoded(ram', WithReq(r, k, req))
  {
    hide MinorAt, RegionOk;
    var r' := WithReq(r, k, req);
    forall o | 0 <= o < |r'.blocks| ensures MinorEncoded(ram', r', o) {
      assert MinorEncoded(ram, r, o);
      PayloadPlacement(r.blocks[o]);
      BlockInRegion(r, o);
      BlockInRegion(r, k);
      if o != k {
        BlocksApart(r, k, o);
        SixLoadsAgree(ram, ram', r.blocks[o].addr);
      }
    }
  }

  lemma ShrunkHeap(ram: seq<byte>, ram': seq<byte>, heap: Layout, top: nat, i: nat, k: nat, req: nat)
    requires LayoutOk(heap, top) && Encoded(ram, heap) && top <= |ram| == |ram'|
    requires i < |heap| && k < |heap[i].blocks| && req <= heap[i].blocks[k].req
    requires MinorAt(ram', heap[i].blocks[k].addr) == ExpectedMinor(heap[i], k).(reqSize := req)
    requires forall x :: 0 <= x < |ram| && !(heap[i].blocks[k].addr <= x < heap[i].blocks[k].addr + HEADER) ==> ram'[x] == ram[x]
    ensures var heap' := heap[i := WithReq(heap[i], k, req)];
            && LayoutOk(heap', top) && Encoded(ram', heap')
            && InUse(heap') == InUse(heap) && Allocated(heap') == Allocated(heap)
  {
    hide MajorAt, MinorAt, LayoutOk, RegionOk, RegionEncoded, InUse, Allocated, Usage, FirstOf, Sizes;
    var r := heap[i];
    RegionWithin(heap, top, i);
    BlockInRegion(r, k);
    assert RegionEncoded(ram, r) && MajorEncoded(ram, heap, i);
    WithReqOk(r, k, req);
    TotalsUpdate(heap, i, WithReq(r, k, req));
    SixLoadsAgree(ram, ram', r.base);
    ShrunkRegion(ram, ram', r, k, req);
    ReplacedRegion(ram, ram', heap, top, i, WithReq(r, k, req));
  }
}
