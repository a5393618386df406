/** pmm_init of kernel/kernel/mem/pmm.c: the stack of free frames filled from the memory map of the boot loader. */
module FramePool {
  import opened PageTables
  import opened Paging

  const TWO32: int := 0x1_0000_0000

  /** The low words of an entry of the map, and whether its type is "available". */
  datatype Region = Region(start: nat, length: nat, available: bool)

  /** The address `j` bytes into the region, in 32 bits. */
  function Address(r: Region, j: nat): nat { (r.start + j) % TWO32 }

  /** Page addresses of a region from offset `j` on that lie above the end of the kernel image. */
  function PagesFrom(r: Region, kernelEnd: nat, j: nat): seq<nat>
    decreases r.length - j
  {
    if j >= r.length then [] else
    (if Address(r, j) > kernelEnd then [Address(r, j)] else []) + PagesFrom(r, kernelEnd, j + PAGE)
  }

  function Frames(regions: seq<Region>, kernelEnd: nat): seq<nat> {
    if regions == [] then [] else
    var last := regions[|regions| - 1];
    Frames(regions[..|regions| - 1], kernelEnd) + if last.available then PagesFrom(last, kernelEnd, 0) else []
  }

  /** Available regions start on pages, and the offset in them, a 32-bit number, reaches their end. */
  ghost predicate MapOk(regions: seq<Region>) {
    forall i :: 0 <= i < |regions| && regions[i].available ==> RegionOk(regions[i])
  }

  predicate RegionOk(r: Region) { r.start % PAGE == 0 && r.start < TWO32 && r.length <= TWO32 - PAGE }

  /** How far into the region address `p` lies, in 32 bits. */
  function Offset(r: Region, p: int): nat { (p - r.start) % TWO32 }

  /** Address `p` is the first byte of a page that starts inside the region. */
  predicate PageIn(r: Region, p: int) { 0 <= p < TWO32 && p % PAGE == 0 && Offset(r, p) < r.length }

  /** Available memory has a page at `p`. */
  ghost predicate Available(regions: seq<Region>, p: int) {
    exists i :: 0 <= i < |regions| && regions[i].available && PageIn(regions[i], p)
  }

  /** In 32 bits no two available regions share a page above the kernel image. */
  ghost predicate Apart(regions: seq<Region>, kernelEnd: nat) {
    forall i, j, p :: 0 <= i < j < |regions| && regions[i].available && regions[j].available && kernelEnd < p ==>
      !(PageIn(regions[i], p) && PageIn(regions[j], p))
  }

  lemma AddressOffset(r: Region, j: nat)
    requires RegionOk(r) && j < TWO32 && j % PAGE == 0
    ensures var p := Address(r, j); 0 <= p < TWO32 && p % PAGE == 0 && Offset(r, p) == j
  {
    if r.start + j < TWO32 {
      assert Address(r, j) == r.start + j;
    } else {
      assert Address(r, j) == r.start + j - TWO32;
    }
  }

  lemma OffsetAddress(r: Region, p: nat)
    requires RegionOk(r) && p < TWO32 && p % PAGE == 0
    ensures Offset(r, p) % PAGE == 0 && Address(r, Offset(r, p)) == p
  {
    assert Offset(r, p) == if r.start <= p then p - r.start else p - r.start + TWO32;
  }

  lemma {:induction false} PagesFromExact(r: Region, kernelEnd: nat, j: nat)
    requires RegionOk(r) && j % PAGE == 0
    ensures forall p: nat :: p in PagesFrom(r, kernelEnd, j) <==> PageIn(r, p) && j <= Offset(r, p) && kernelEnd < p
    ensures Distinct(PagesFrom(r, kernelEnd, j))
    decreases r.length - j
  {
    hide Address, Offset;
    if j < r.length {
      PagesFromExact(r, kernelEnd, j + PAGE);
      AddressOffset(r, j);
      var rest := PagesFrom(r, kernelEnd, j + PAGE);
      var head := if Address(r, j) > kernelEnd then [Address(r, j)] else [];
      forall p: nat ensures p in head + rest <==> PageIn(r, p) && j <= Offset(r, p) && kernelEnd < p {
        assert p in head + rest <==> p in head || p in rest;
        if PageIn(r, p) {
          OffsetAddress(r, p);
          if j < Offset(r, p) { NextPage(Offset(r, p), j); }
        }
      }
      assert forall i :: 0 <= i < |rest| ==> rest[i] in rest;
    }
  }

  /** Multiples of the page size are a page apart. */
  lemma NextPage(a: nat, j: nat)
    requires a % PAGE == 0 && j % PAGE == 0 && j < a
    ensures j + PAGE <= a
  {
    assert a == PAGE * (a / PAGE) && j == PAGE * (j / PAGE);
  }

  /** The pool holds every page of available memory above the kernel, and nothing else. */
  lemma {:induction false} FramesExact(regions: seq<Region>, kernelEnd: nat)
    requires MapOk(regions)
    ensures forall p: nat :: p in Frames(regions, kernelEnd) <==> kernelEnd < p && Available(regions, p)
    ensures forall k :: 0 <= k < |Frames(regions, kernelEnd)| ==> FrameAddress(Frames(regions, kernelEnd)[k])
  {
    hide PageIn;
    if regions != [] {
      var n := |regions| - 1;
      var before, last := regions[..n], regions[n];
      FramesExact(before, kernelEnd);
      if last.available {
        PagesFromExact(last, kernelEnd, 0);
      }
      var a, b := Frames(before, kernelEnd), if last.available then PagesFrom(last, kernelEnd, 0) else [];
      forall p: nat ensures p in a + b <==> kernelEnd < p && Available(regions, p) {
        LastRegion(regions, before, p);
      }
      FrameAddresses(a + b, regions, kernelEnd);
    }
  }

  lemma LastRegion(regions: seq<Region>, before: seq<Region>, p: int)
    requires regions != [] && before == regions[..|regions| - 1]
    ensures Available(regions, p) <==>
            Available(before, p) || (regions[|regions| - 1].available && PageIn(regions[|regions| - 1], p))
  {
    if i :| 0 <= i < |regions| && regions[i].available && PageIn(regions[i], p) {
      assert i < |regions| - 1 ==> before[i] == regions[i];
    }
    if i :| 0 <= i < |before| && before[i].available && PageIn(before[i], p) {
      assert before[i] == regions[i];
    }
  }

  lemma FrameAddresses(ps: seq<nat>, regions: seq<Region>, kernelEnd: nat)
    requires forall p: nat :: p in ps <==> kernelEnd < p && Available(regions, p)
    ensures forall k :: 0 <= k < |ps| ==> FrameAddress(ps[k])
  {
    forall k | 0 <= k < |ps| ensures FrameAddress(ps[k]) {
      assert ps[k] in ps;
      var i :| 0 <= i < |regions| && regions[i].available && PageIn(regions[i], ps[k]);
    }
  }

  /** No page is in the pool twice exactly if no two regions share one. */
  lemma {:induction false} FramesDistinct(regions: seq<Region>, kernelEnd: nat)
    requires MapOk(regions)
    ensures Distinct(Frames(regions, kernelEnd)) <==> Apart(regions, kernelEnd)
  {
    hide PageIn, RegionOk;
    if regions != [] {
      var n := |regions| - 1;
      var before, last := regions[..n], regions[n];
      FramesDistinct(before, kernelEnd);
      FramesExact(before, kernelEnd);
      if last.available {
        PagesFromExact(last, kernelEnd, 0);
      }
      var a, b := Frames(before, kernelEnd), if last.available then PagesFrom(last, kernelEnd, 0) else [];
      DistinctConcat(a, b);
      ApartLast(regions, before, kernelEnd);
      if !NoneShared(a, b) {
        var p: nat :| p in a && p in b;
        assert Available(before, p) && PageIn(last, p);
      }
      if p :| last.available && kernelEnd < p && PageIn(last, p) && Available(before, p) {
        PagePositive(last, p);
        assert p in a && p in b;
      }
    }
  }

  lemma PagePositive(r: Region, p: int)
    requires PageIn(r, p)
    ensures 0 <= p
  {
  }

  ghost predicate NoneShared(a: seq<nat>, b: seq<nat>) { forall p :: !(p in a && p in b) }

  lemma DistinctConcat(a: seq<nat>, b: seq<nat>)
    ensures Distinct(a + b) <==> Distinct(a) && Distinct(b) && NoneShared(a, b)
  {
    if Distinct(a + b) {
      forall i, j | 0 <= i < j < |a| ensures a[i] != a[j] { assert (a + b)[i] != (a + b)[j]; }
      forall i, j | 0 <= i < j < |b| ensures b[i] != b[j] { assert (a + b)[|a| + i] != (a + b)[|a| + j]; }
      forall i, j | 0 <= i < |a| && 0 <= j < |b| ensures a[i] != b[j] { assert (a + b)[i] != (a + b)[|a| + j]; }
    }
    if NoneShared(a, b) {
      forall i, j | 0 <= i < |a| && 0 <= j < |b| ensures a[i] != b[j] {
        assert a[i] in a && b[j] in b;
      }
    }
  }

  lemma ApartLast(regions: seq<Region>, before: seq<Region>, kernelEnd: nat)
    requires regions != [] && before == regions[..|regions| - 1]
    ensures Apart(regions, kernelEnd) <==>
            && Apart(before, kernelEnd)
            && (regions[|regions| - 1].available ==>
                  forall p :: kernelEnd < p && PageIn(regions[|regions| - 1], p) ==> !Available(before, p))
  {
    hide PageIn;
    var n := |regions| - 1;
    if Apart(regions, kernelEnd) {
      forall i, j, p | 0 <= i < j < |before| && before[i].available && before[j].available && kernelEnd < p
        ensures !(PageIn(before[i], p) && PageIn(before[j], p))
      {
        assert before[i] == regions[i] && before[j] == regions[j];
      }
      forall p | regions[n].available && kernelEnd < p && PageIn(regions[n], p) ensures !Available(before, p) {
        assert forall i :: 0 <= i < n ==> before[i] == regions[i];
      }
    }
    if Apart(before, kernelEnd) && (regions[n].available ==> forall p :: kernelEnd < p && PageIn(regions[n], p) ==> !Available(before, p)) {
      forall i, j, p | 0 <= i < j < |regions| && regions[i].available && regions[j].available && kernelEnd < p
        ensures !(PageIn(regions[i], p) && PageIn(regions[j], p))
      {
        assert before[i] == regions[i];
        if j < n { assert before[j] == regions[j]; }
      }
    }
  }

  /** Then the static array is large enough. */
  lemma FramesFit(regions: seq<Region>, kernelEnd: nat)
    requires MapOk(regions) && Apart(regions, kernelEnd)
    ensures Distinct(Frames(regions, kernelEnd)) && |Frames(regions, kernelEnd)| < MAX_PAGES
  {
    FramesExact(regions, kernelEnd);
    FramesDistinct(regions, kernelEnd);
    PoolBounded(Frames(regions, kernelEnd));
  }

  function PcMap(): seq<Region> {
    [Region(0, 0x9_FC00, true), Region(0x9_FC00, 0x400, false), Region(0xF_0000, 0x1_0000, false),
     Region(0x10_0000, 0x7EE_0000, true), Region(0x7FE_0000, 0x2_0000, false), Region(0xFFFC_0000, 0x4_0000, false)]
  }

  /** The map of an ordinary PC, with an unaligned reserved region and one at the top of memory, is such a map. */
  lemma PcMapOk(kernelEnd: nat)
    ensures MapOk(PcMap()) && Apart(PcMap(), kernelEnd)
    ensures forall p: nat :: p in Frames(PcMap(), kernelEnd) <==>
              kernelEnd < p && p % PAGE == 0 && (p < 0x9_FC00 || 0x10_0000 <= p < 0x7FE_0000)
  {
    FramesExact(PcMap(), kernelEnd);
    forall p: nat ensures Available(PcMap(), p) <==> p % PAGE == 0 && (p < 0x9_FC00 || 0x10_0000 <= p < 0x7FE_0000) {
      PcPages(p);
      assert PageIn(PcMap()[0], p) || PageIn(PcMap()[3], p) ==> Available(PcMap(), p);
    }
    forall p | PageIn(PcMap()[0], p) ensures !PageIn(PcMap()[3], p) { PcPages(p); }
  }

  lemma PcPages(p: nat)
    ensures PageIn(PcMap()[0], p) <==> p % PAGE == 0 && p < 0x9_FC00
    ensures PageIn(PcMap()[3], p) <==> p % PAGE == 0 && 0x10_0000 <= p < 0x7FE_0000
  {
  }

  /**
   With memory above 4 GiB the low words of its address meet those of memory below: here 1 GiB at 4 GiB, besides
   3 GiB from 1 MiB on. The pages from 16 MiB on, say, are on the stack twice.
   */
  lemma HighMemoryTwice(kernelEnd: nat)
    requires kernelEnd < 0x100_0000
    ensures var regions := [Region(0x10_0000, 0xBFF0_0000, true), Region(0x1_0000_0000 % TWO32, 0x4000_0000, true)];
            MapOk(regions) && !Distinct(Frames(regions, kernelEnd))
  {
    var regions := [Region(0x10_0000, 0xBFF0_0000, true), Region(0x1_0000_0000 % TWO32, 0x4000_0000, true)];
    FramesDistinct(regions, kernelEnd);
    assert PageIn(regions[0], 0x100_0000) && PageIn(regions[1], 0x100_0000);
  }

  /** The two nested loops. The array has no room for more than 2^20 pages, which the source does not check. */
  method FillStack(regions: seq<Region>, kernelEnd: nat, stack: array<nat>) returns (top: nat)
    requires MapOk(regions) && |Frames(regions, kernelEnd)| <= MAX_PAGES == stack.Length
    modifies stack
    ensures top <= MAX_PAGES && stack[..top] == Frames(regions, kernelEnd)
  {
    hide Frames, MapOk;
    top := 0;
    var i := 0;
    NoFrames(kernelEnd);
    while i < |regions|
      invariant i <= |regions| && top <= MAX_PAGES && stack[..top] == Frames(regions[..i], kernelEnd)
    {
      var r := regions[i];
      FramesOfPrefix(regions, kernelEnd, i);
      if r.available {
        var j := 0;
        FramesPrefix(regions, kernelEnd, i + 1);
        while j < r.length
          invariant top <= MAX_PAGES
          invariant stack[..top] + PagesFrom(r, kernelEnd, j) == Frames(regions[..i + 1], kernelEnd)
          decreases r.length - j
        {
          if Address(r, j) > kernelEnd {
            ghost var rest := PagesFrom(r, kernelEnd, j + PAGE);
            stack[top] := Address(r, j);
            top := top + 1;
            assert stack[..top] == stack[..top - 1] + [Address(r, j)];
          }
          j := j + PAGE;
        }
      }
      i := i + 1;
    }
    assert regions[..i] == regions;
  }

  lemma NoFrames(kernelEnd: nat)
    ensures Frames([], kernelEnd) == []
  {
  }

  lemma FramesOfPrefix(regions: seq<Region>, kernelEnd: nat, i: nat)
    requires i < |regions|
    ensures Frames(regions[..i + 1], kernelEnd) ==
            Frames(regions[..i], kernelEnd) + (if regions[i].available then PagesFrom(regions[i], kernelEnd, 0) else [])
  {
    assert regions[..i + 1][..i] == regions[..i];
  }

  lemma {:induction false} FramesPrefix(regions: seq<Region>, kernelEnd: nat, n: nat)
    requires n <= |regions|
    ensures |Frames(regions[..n], kernelEnd)| <= |Frames(regions, kernelEnd)|
  {
    if n == |regions| {
      assert regions[..n] == regions;
    } else {
      FramesPrefix(regions[..|regions| - 1], kernelEnd, n);
      assert regions[..|regions| - 1][..n] == regions[..n];
    }
  }

  // ---------- conservation of frames ----------

  /** A pop, or the return of a frame that is out; other returns are not events. */
  datatype FrameEvent = Pop | Push(p: nat)

  /** The stack, and the frames handed out. */
  datatype Stock = Stock(pool: seq<nat>, handed: set<nat>)

  function FrameStep(s: Stock, e: FrameEvent): Stock {
    match e
    case Pop => if s.pool == [] then s else Stock(s.pool[..|s.pool| - 1], s.handed + {s.pool[|s.pool| - 1]})
    case Push(p) => if p in s.handed then Stock(s.pool + [p], s.handed - {p}) else s
  }

  function FrameRun(pool: seq<nat>, events: seq<FrameEvent>): Stock {
    if events == [] then Stock(pool, {}) else FrameStep(FrameRun(pool, events[..|events| - 1]), events[|events| - 1])
  }

  /** Free and handed-out frames partition the initial pool. */
  ghost predicate Partition(pool: seq<nat>, s: Stock) {
    && Distinct(s.pool)
    && (forall p :: p in pool <==> p in s.pool || p in s.handed)
    && (forall p :: p in s.pool ==> p !in s.handed)
    && |s.pool| + |s.handed| == |pool|
  }

  /** In every run in which frames are freed once, none is lost, and none is free and in use or free twice. */
  lemma {:induction false} FramesConserved(pool: seq<nat>, events: seq<FrameEvent>)
    requires Distinct(pool)
    ensures Partition(pool, FrameRun(pool, events))
  {
    if events != [] {
      var before, e := events[..|events| - 1], events[|events| - 1];
      FramesConserved(pool, before);
      var s := FrameRun(pool, before);
      if e.Pop? && s.pool != [] {
        var n := |s.pool| - 1;
        assert s.pool == s.pool[..n] + [s.pool[n]];
        assert s.pool[n] in s.pool && s.pool[n] !in s.pool[..n];
      }
    }
  }
}
