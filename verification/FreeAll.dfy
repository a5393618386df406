/** sched_free_all: the heap of a dead process and the memory its program was loaded into are given back. */
module FreeAll {
  import opened Wrappers
  import opened Bytes
  import opened PageTables
  import opened Paging
  import opened ProgramBreak

  /** Memory of a loaded program segment: `pages` pages from address `offset` on. */
  datatype Region = Region(offset: nat, pages: nat)

  ghost predicate RegionOk(r: Region) { r.offset % PAGE == 0 && r.offset + r.pages * PAGE <= KERNEL_START }

  /** The `n` page numbers from `lo` on. */
  function Interval(lo: nat, n: nat): (vs: set<nat>)
    ensures forall v :: v in vs <==> lo <= v < lo + n
  {
    if n == 0 then {} else Interval(lo, n - 1) + {lo + n - 1}
  }

  function RegionPages(r: Region, n: nat): set<nat> {
    Interval(r.offset / PAGE, n)
  }

  function PagesOf(regions: seq<Region>): set<nat> {
    if regions == [] then {} else PagesOf(regions[..|regions| - 1]) + RegionPages(regions[|regions| - 1], regions[|regions| - 1].pages)
  }

  /** Mapped pages of the space hold data, never page tables. */
  ghost predicate DataPages(m: Phys, spaces: set<nat>, c: nat, vs: set<nat>)
    requires AllOk(m, spaces) && c in spaces
  {
    forall v, f :: v in vs && v < PAGES && MapsTo(m, c, v, f) ==> 0 < f && !IsTable(m, spaces, f)
  }

  /** The pages `vs` of space `c` are not mapped any more; no other page of any space and no directory changed. */
  ghost predicate Cleared(m0: Phys, m: Phys, spaces: set<nat>, c: nat, vs: set<nat>)
    requires AllOk(m0, spaces) && AllOk(m, spaces)
  {
    && (forall d, v :: d in spaces && 0 <= v < PAGES ==> Lookup(m, d, v) == if d == c && v in vs then None else Lookup(m0, d, v))
    && (forall f :: IsTable(m, spaces, f) == IsTable(m0, spaces, f))
    && (forall d :: d in spaces ==> m[d] == m0[d])
    && DataKept(m0, m, spaces)
  }

  /** Address `p` is that of the frame behind one of the pages `vs`. */
  ghost predicate Behind(m: Phys, c: nat, vs: set<nat>, p: nat)
    requires Shaped(m) && c < FRAMES
  {
    exists v :: v in vs && v < PAGES && FrameBehind(m, c, v, p)
  }

  predicate FrameBehind(m: Phys, c: nat, v: nat, p: nat)
    requires Shaped(m) && c < FRAMES && v < PAGES
  {
    Lookup(m, c, v).Some? && FrameOf(Lookup(m, c, v).value) * PAGE == p
  }

  /** Exactly the frames behind the pages `vs` have been pushed on the stack. */
  ghost predicate Returned(m0: Phys, c: nat, vs: set<nat>, pool0: seq<nat>, pool: seq<nat>)
    requires Shaped(m0) && c < FRAMES
  {
    && |pool0| <= |pool| && pool[..|pool0|] == pool0
    && forall p: nat :: p in pool[|pool0|..] <==> Behind(m0, c, vs, p)
  }

  ghost predicate Freed(m0: Phys, m: Phys, spaces: set<nat>, c: nat, vs: set<nat>, pool0: seq<nat>, pool: seq<nat>)
    requires AllOk(m0, spaces) && AllOk(m, spaces) && c in spaces
  {
    Cleared(m0, m, spaces, c, vs) && Returned(m0, c, vs, pool0, pool)
  }

  lemma FreedNothing(m: Phys, spaces: set<nat>, c: nat, pool: seq<nat>)
    requires AllOk(m, spaces) && c in spaces
    ensures Freed(m, m, spaces, c, {}, pool, pool)
  {
  }

  lemma ClearedStep(m0: Phys, m1: Phys, m2: Phys, spaces: set<nat>, c: nat, vs: set<nat>, v: nat)
    requires AllOk(m0, spaces) && AllOk(m1, spaces) && AllOk(m2, spaces) && c in spaces && v < KERNEL_PAGES
    requires Cleared(m0, m1, spaces, c, vs) && Gone(m1, m2, spaces, c, v, 1)
    ensures Cleared(m0, m2, spaces, c, vs + {v})
  {
    hide Lookup, SpaceOk, IsTable, DataKept;
    DataKeptTwice(m0, m1, m2, spaces);
  }

  lemma ReturnedStep(m0: Phys, m1: Phys, spaces: set<nat>, c: nat, vs: set<nat>, pool0: seq<nat>, pool1: seq<nat>, v: nat)
    requires AllOk(m0, spaces) && AllOk(m1, spaces) && c in spaces && v < KERNEL_PAGES
    requires Cleared(m0, m1, spaces, c, vs) && Returned(m0, c, vs, pool0, pool1)
    ensures var l := Lookup(m1, c, v);
            Returned(m0, c, vs + {v}, pool0, pool1 + (if l.Some? then [FrameOf(l.value) * PAGE] else []))
  {
    hide Lookup, SpaceOk, IsTable;
    var l := Lookup(m1, c, v);
    var more := if l.Some? then [FrameOf(l.value) * PAGE] else [];
    assert (pool1 + more)[|pool0|..] == pool1[|pool0|..] + more;
    assert (pool1 + more)[..|pool0|] == pool1[..|pool0|];
    forall p: nat ensures p in pool1[|pool0|..] + more <==> Behind(m0, c, vs + {v}, p) {
      BehindOneMore(m0, c, vs, v, p);
      assert l == if v in vs then None else Lookup(m0, c, v);
      assert p in more <==> v !in vs && FrameBehind(m0, c, v, p);
    }
  }

  lemma BehindOneMore(m: Phys, c: nat, vs: set<nat>, v: nat, p: nat)
    requires Shaped(m) && c < FRAMES && v < PAGES
    ensures Behind(m, c, vs + {v}, p) <==> Behind(m, c, vs, p) || FrameBehind(m, c, v, p)
  {
    hide FrameBehind;
    if FrameBehind(m, c, v, p) {
      assert v in vs + {v};
    }
    if u :| u in vs && u < PAGES && FrameBehind(m, c, u, p) {
      assert u in vs + {v};
    }
  }

  /** The inner loop; pages that are not mapped (any more) are passed over. */
  method FreeRegion(k: Machine, r: Region, ghost m0: Phys, ghost vs: set<nat>, ghost pool0: seq<nat>, ghost x: set<nat>)
    requires k.ValidBut(x) && RegionOk(r) && AllOk(m0, k.spaces)
    requires Freed(m0, k.phys, k.spaces, k.cr3, vs, pool0, k.Pool())
    requires DataPages(m0, k.spaces, k.cr3, RegionPages(r, r.pages))
    modifies k`phys, k`top, k.stack
    ensures k.ValidBut(x) && Freed(m0, k.phys, k.spaces, k.cr3, vs + RegionPages(r, r.pages), pool0, k.Pool())
  {
    hide SpaceOk, Lookup, Spare, IsTable, IsMapped, PoolOk, Injective, Cleared, Returned, Gone;
    var i := 0;
    assert vs + RegionPages(r, 0) == vs;
    while i < r.pages
      invariant i <= r.pages && k.ValidBut(x) && Freed(m0, k.phys, k.spaces, k.cr3, vs + RegionPages(r, i), pool0, k.Pool())
    {
      var va := r.offset + i * PAGE;
      ghost var v, m1, pool1 := va / PAGE, k.phys, k.Pool();
      assert v == r.offset / PAGE + i;
      StillData(m0, m1, k.spaces, k.cr3, vs + RegionPages(r, i), RegionPages(r, r.pages), v);
      var _ := k.ReleasePage(va, x);
      ClearedStep(m0, m1, k.phys, k.spaces, k.cr3, vs + RegionPages(r, i), v);
      ReturnedStep(m0, m1, k.spaces, k.cr3, vs + RegionPages(r, i), pool0, pool1, v);
      assert vs + RegionPages(r, i + 1) == vs + RegionPages(r, i) + {v};
      k.GoneParts(m1, v, 1);
      UnmapKeepsTail(k, m1, v, 1);
      i := i + 1;
    }
  }

  lemma StillData(m0: Phys, m1: Phys, spaces: set<nat>, c: nat, vs: set<nat>, data: set<nat>, v: nat)
    requires AllOk(m0, spaces) && AllOk(m1, spaces) && c in spaces && v in data && v < PAGES
    requires Cleared(m0, m1, spaces, c, vs) && DataPages(m0, spaces, c, data)
    ensures forall f :: MapsTo(m1, c, v, f) ==> 0 < f && !IsTable(m1, spaces, f)
  {
    hide SpaceOk, Lookup, IsTable;
    forall f | MapsTo(m1, c, v, f) ensures 0 < f && !IsTable(m1, spaces, f) {
      assert MapsTo(m0, c, v, f);
    }
  }

  /** The outer loop over the regions of the process. */
  method FreeRegions(k: Machine, regions: seq<Region>, ghost x: set<nat>)
    requires k.ValidBut(x) && forall i :: 0 <= i < |regions| ==> RegionOk(regions[i])
    requires DataPages(k.phys, k.spaces, k.cr3, PagesOf(regions))
    modifies k`phys, k`top, k.stack
    ensures k.ValidBut(x) && Freed(old(k.phys), k.phys, k.spaces, k.cr3, PagesOf(regions), old(k.Pool()), k.Pool())
  {
    hide SpaceOk, Lookup, Spare, IsTable, IsMapped, PoolOk, Injective, Freed, DataPages, RegionOk;
    ghost var m0, pool0 := k.phys, k.Pool();
    FreedNothing(m0, k.spaces, k.cr3, pool0);
    var i := 0;
    while i < |regions|
      invariant i <= |regions| && k.ValidBut(x) && Freed(m0, k.phys, k.spaces, k.cr3, PagesOf(regions[..i]), pool0, k.Pool())
    {
      PagesPart(m0, k.spaces, k.cr3, regions, i);
      FreeRegion(k, regions[i], m0, PagesOf(regions[..i]), pool0, x);
      assert regions[..i + 1][..i] == regions[..i];
      i := i + 1;
    }
    assert regions[..i] == regions;
  }

  lemma {:induction false} PagesPart(m: Phys, spaces: set<nat>, c: nat, regions: seq<Region>, i: nat)
    requires AllOk(m, spaces) && c in spaces && i < |regions| && DataPages(m, spaces, c, PagesOf(regions))
    ensures DataPages(m, spaces, c, RegionPages(regions[i], regions[i].pages))
    decreases |regions|
  {
    hide SpaceOk, Lookup, IsTable;
    var n := |regions| - 1;
    if i < n {
      assert DataPages(m, spaces, c, PagesOf(regions[..n]));
      PagesPart(m, spaces, c, regions[..n], i);
    }
  }

  /** The shrinking of the heap, as the clearing of its pages. */
  lemma HeapCleared(m0: Phys, m1: Phys, spaces: set<nat>, c: nat, pool0: seq<nat>, pool1: seq<nat>, lo: nat, n: nat)
    requires AllOk(m0, spaces) && AllOk(m1, spaces) && c in spaces && lo + n <= KERNEL_PAGES
    requires Shrinking(m0, m1, spaces, c, pool0, pool1, lo, n) && forall d :: d in spaces ==> m1[d] == m0[d]
    ensures Cleared(m0, m1, spaces, c, Interval(lo, n))
    ensures forall p: nat :: p in pool1 <==> p in pool0 || Behind(m0, c, Interval(lo, n), p)
  {
    hide SpaceOk, Lookup, IsTable;
    var frames := FramesAt(m0, c, lo, n);
    forall p: nat ensures p in frames <==> Behind(m0, c, Interval(lo, n), p) {
      if p in frames {
        var i :| 0 <= i < n && frames[i] == p;
        var v := lo + i;
        assert v in Interval(lo, n) && Lookup(m0, c, v).Some? && frames[i] == FrameAt(m0, c, lo + i);
        assert FrameBehind(m0, c, v, p);
      }
      if v :| v in Interval(lo, n) && v < PAGES && FrameBehind(m0, c, v, p) {
        var i := v - lo;
        assert frames[i] == FrameAt(m0, c, lo + i);
      }
    }
    forall p: nat ensures p in pool1 <==> p in pool0 || p in frames {
      assert p in pool1 <==> p in multiset(pool1);
    }
  }

  /** First the pages `us`, then the pages `vs`: together the pages of both. */
  lemma BothCleared(m0: Phys, m1: Phys, m2: Phys, spaces: set<nat>, c: nat, us: set<nat>, vs: set<nat>,
                    pool0: seq<nat>, pool1: seq<nat>, pool2: seq<nat>)
    requires AllOk(m0, spaces) && AllOk(m1, spaces) && AllOk(m2, spaces) && c in spaces
    requires Cleared(m0, m1, spaces, c, us) && Freed(m1, m2, spaces, c, vs, pool1, pool2)
    requires forall p: nat :: p in pool1 <==> p in pool0 || Behind(m0, c, us, p)
    ensures Cleared(m0, m2, spaces, c, us + vs)
    ensures forall p: nat :: p in pool2 <==> p in pool0 || Behind(m0, c, us + vs, p)
  {
    hide SpaceOk, Lookup, IsTable;
    forall p: nat ensures Behind(m0, c, us + vs, p) <==> Behind(m0, c, us, p) || Behind(m1, c, vs, p) {
      if v :| v in us + vs && v < PAGES && FrameBehind(m0, c, v, p) {
        assert v !in us ==> FrameBehind(m1, c, v, p);
      }
      if v :| v in us && v < PAGES && FrameBehind(m0, c, v, p) {
        assert v in us + vs;
      }
      if v :| v in vs && v < PAGES && FrameBehind(m1, c, v, p) {
        assert v in us + vs && FrameBehind(m0, c, v, p);
      }
    }
    assert pool2 == pool1 + pool2[|pool1|..];
  }

  lemma ClearedNothing(m: Phys, spaces: set<nat>, c: nat, lo: nat)
    requires AllOk(m, spaces) && c in spaces
    ensures Cleared(m, m, spaces, c, Interval(lo, 0))
    ensures forall p: nat :: !Behind(m, c, Interval(lo, 0), p)
  {
  }

  lemma ClearedKeepsData(m0: Phys, m1: Phys, spaces: set<nat>, c: nat, us: set<nat>, vs: set<nat>)
    requires AllOk(m0, spaces) && AllOk(m1, spaces) && c in spaces
    requires Cleared(m0, m1, spaces, c, us) && DataPages(m0, spaces, c, vs)
    ensures DataPages(m1, spaces, c, vs)
  {
    hide SpaceOk, Lookup, IsTable;
    forall v, f | v in vs && v < PAGES && MapsTo(m1, c, v, f) ensures 0 < f && !IsTable(m1, spaces, f) {
      assert MapsTo(m0, c, v, f);
    }
  }

  /** The break goes down to the loader's end of data, if there is a heap at all. */
  method FreeHeap(k: Machine, ps: Process, ghost x: set<nat>)
    requires k.ValidBut(x) && HeapOk(k, ps) && (0 < ps.pgbrk - ps.brkOffset || ps.pgbrk == 0)
    modifies k`phys, k`top, k`endMapped, k`cr3, k.stack, ps
    ensures k.ValidBut(x) && k.cr3 == old(k.cr3) && HeapOk(k, ps) && ps.brk == ps.pgbrk == old(ps.pgbrk - ps.brkOffset)
    ensures ps.brkOffset == 0 && old(k.Pool()) <= k.Pool()
    ensures var heap := Interval(ps.pgbrk / PAGE, old(ps.brkOffset) / PAGE);
            && Cleared(old(k.phys), k.phys, k.spaces, ps.directory, heap)
            && forall p: nat :: p in k.Pool() <==> p in old(k.Pool()) || Behind(old(k.phys), ps.directory, heap, p)
  {
    hide SpaceOk, Lookup, Spare, IsTable, IsMapped, PoolOk, Injective, Shrinking, Cleared, Behind, HeapMapped, Growing;
    ghost var m0, pool0, minbrk, size := k.phys, k.Pool(), ps.pgbrk - ps.brkOffset, ps.brkOffset;
    AlignedBreak(ps.pgbrk - ps.brkOffset);
    var _, _, _ := SetBrk(k, ps.pgbrk - ps.brkOffset, ps, x);
    if size == 0 {
      ClearedNothing(m0, k.spaces, ps.directory, minbrk / PAGE);
    } else {
      HeapCleared(m0, k.phys, k.spaces, ps.directory, pool0, k.Pool(), minbrk / PAGE, size / PAGE);
    }
  }

  lemma AlignedBreak(brk: nat)
    ensures brk % PAGE == 0 ==> PageUp(brk) == brk
  {
  }

  /** The address pushed for a page of a region is that of a frame exactly if the region starts on a page. */
  lemma PushedAddress(m: Phys, c: nat, va: word)
    requires Shaped(m) && c < FRAMES && va < WINDOW && Lookup(m, c, va / PAGE).Some?
    requires 0 < FrameOf(Lookup(m, c, va / PAGE).value)
    ensures FrameAddress(FrameAt(m, c, va / PAGE) + va % PAGE) <==> va % PAGE == 0
  {
  }

  /**
   Afterwards no page of the heap or of a region is mapped and no other translation has changed; exactly the
   frames behind these pages have been pushed, and nothing has left the stack. All this holds with the frames
   of directories `x`, such as that of the process, on the stack already; no directory has been written.
   */
  method SchedFreeAll(k: Machine, ps: Process, regions: seq<Region>, ghost x: set<nat>)
    requires k.ValidBut(x) && HeapOk(k, ps) && forall i :: 0 <= i < |regions| ==> RegionOk(regions[i])
    requires DataPages(k.phys, k.spaces, ps.directory, PagesOf(regions))
    requires 0 < ps.pgbrk - ps.brkOffset || ps.pgbrk == 0
    modifies k`phys, k`top, k`endMapped, k`cr3, k.stack, ps
    ensures k.ValidBut(x) && k.cr3 == old(k.cr3) && HeapOk(k, ps) && ps.brk == ps.pgbrk == old(ps.pgbrk - ps.brkOffset)
    ensures old(k.Pool()) <= k.Pool()
    ensures var pages := Interval(ps.pgbrk / PAGE, old(ps.brkOffset) / PAGE) + PagesOf(regions);
            && Cleared(old(k.phys), k.phys, k.spaces, ps.directory, pages)
            && forall p: nat :: p in k.Pool() <==> p in old(k.Pool()) || Behind(old(k.phys), ps.directory, pages, p)
  {
    hide SpaceOk, Lookup, Spare, IsTable, IsMapped, PoolOk, Injective, Cleared, Behind, HeapMapped, DataPages, RegionOk;
    ghost var m0, pool0, heap := k.phys, k.Pool(), Interval((ps.pgbrk - ps.brkOffset) / PAGE, ps.brkOffset / PAGE);
    var oldcr3 := k.cr3;
    k.cr3 := ps.directory;
    FreeHeap(k, ps, x);
    ClearedKeepsData(m0, k.phys, k.spaces, k.cr3, heap, PagesOf(regions));
    ghost var m1, pool1 := k.phys, k.Pool();
    FreeRegions(k, regions, x);
    BothCleared(m0, m1, k.phys, k.spaces, k.cr3, heap, PagesOf(regions), pool0, pool1, k.Pool());
    EmptyHeap(k.phys, k.spaces, k.cr3, ps.pgbrk / PAGE);
    k.cr3 := oldcr3;
  }

  lemma EmptyHeap(m: Phys, spaces: set<nat>, c: nat, lo: nat)
    requires AllOk(m, spaces) && c in spaces && lo <= PAGES
    ensures HeapMapped(m, spaces, c, lo, lo)
  {
  }
}
