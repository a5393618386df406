/**
 Address spaces come and go: the page directory of a new process (sched_create_process), and the memory of an
 ended one, whose directory's frame is given back first (sched_reap_process).
 */
module AddressSpaces {
  import opened Wrappers
  import opened Bytes
  import opened PageTables
  import opened Paging
  import opened ProgramBreak
  import opened FreeAll

  // ---------- a new space ----------

  /** Frame `f` holds a directory with the kernel tables of space `c`, no user tables, and itself in the last slot. */
  ghost predicate NewDirectory(m: Phys, c: nat, f: nat)
    requires Shaped(m) && c < FRAMES && f < FRAMES
  {
    && (forall i :: 0 <= i < KERNEL_SLOT ==> !Present(m[f][i]))
    && (forall i :: KERNEL_SLOT <= i < SELF_SLOT ==> m[f][i] == m[c][i])
    && Present(m[f][SELF_SLOT]) && FrameOf(m[f][SELF_SLOT]) == f
  }

  lemma NewSpaceTables(m: Phys, spaces: set<nat>, c: nat, f: nat)
    requires AllOk(m, spaces) && c in spaces && f < FRAMES && !IsTable(m, spaces, f) && NewDirectory(m, c, f)
    ensures forall d, i :: d in spaces && KERNEL_SLOT <= i < SELF_SLOT ==> SameTable(m[d][i], m[f][i]) && SameTable(m[f][i], m[d][i])
    ensures forall d, i, j :: d in spaces && 0 <= i < KERNEL_SLOT && 0 <= j < SELF_SLOT ==>
              ApartTables(m[d][i], m[f][j]) && ApartTables(m[f][i], m[d][j])
    ensures forall d, i :: d in spaces && 0 <= i < SELF_SLOT ==>
              (Present(m[d][i]) ==> FrameOf(m[d][i]) != f) && (Present(m[f][i]) ==> FrameOf(m[f][i]) != d && FrameOf(m[f][i]) != f)
  {
    hide SpaceOk, FrameOf;
    forall d, i, j | d in spaces && 0 <= i < KERNEL_SLOT && 0 <= j < SELF_SLOT ensures ApartTables(m[f][i], m[d][j]) {
      assert !Present(m[f][i]);
    }
    forall d, i, j | d in spaces && 0 <= i < KERNEL_SLOT && 0 <= j < SELF_SLOT ensures ApartTables(m[d][i], m[f][j]) {
      assert if j < KERNEL_SLOT then !Present(m[f][j]) else m[f][j] == m[c][j];
      if Present(m[d][i]) && Present(m[f][j]) { WhoseTable(m, spaces, d, i, c, j); }
    }
  }

  lemma NewSpaceOk(m: Phys, spaces: set<nat>, c: nat, f: nat)
    requires AllOk(m, spaces) && c in spaces && f < FRAMES && !IsTable(m, spaces, f) && NewDirectory(m, c, f)
    ensures AllOk(m, spaces + {f})
  {
    NewSpaceTables(m, spaces, c, f);
    assert SpaceOk(m, f) by { assert SpaceOk(m, c); }
    assert forall i :: 0 <= i < SELF_SLOT ==> SameTable(m[f][i], m[f][i]);
    hide SpaceOk, NewDirectory, IsTable, SameTable, ApartTables, FrameOf;
  }

  /** The new space shows the kernel's pages and no others, and its directory is the only new table. */
  lemma NewSpaceView(m: Phys, spaces: set<nat>, c: nat, f: nat)
    requires AllOk(m, spaces) && c in spaces && f < FRAMES && !IsTable(m, spaces, f) && NewDirectory(m, c, f)
    ensures AllOk(m, spaces + {f})
    ensures forall v :: 0 <= v < PAGES ==> Lookup(m, f, v) == if v < KERNEL_PAGES then None else Lookup(m, c, v)
    ensures forall g :: IsTable(m, spaces + {f}, g) <==> IsTable(m, spaces, g) || g == f
  {
    hide SpaceOk;
    NewSpaceOk(m, spaces, c, f);
    forall g ensures IsTable(m, spaces + {f}, g) <==> IsTable(m, spaces, g) || g == f {
      forall i | 0 <= i < SELF_SLOT && Present(m[f][i]) ensures IsTable(m, spaces, FrameOf(m[f][i])) {
        assert m[f][i] == m[c][i];
      }
    }
  }

  /** The old space in which a page of the new directory is seen: the one its kernel tables came from. */
  function SeenIn(c: nat, f: nat, d: nat): nat { if d == f then c else d }

  lemma NewSpaceUses(m: Phys, spaces: set<nat>, c: nat, f: nat, d: nat, v: nat, g: nat)
    requires AllOk(m, spaces) && c in spaces && f < FRAMES && !IsTable(m, spaces, f) && NewDirectory(m, c, f)
    requires d in spaces + {f} && v < PAGES && (d < FRAMES && Uses(m, d, v, g))
    ensures SeenIn(c, f, d) in spaces && Uses(m, SeenIn(c, f, d), v, g) && (d == f ==> KERNEL_PAGES <= v)
  {
    hide Lookup, SpaceOk, IsTable, NewDirectory;
    NewSpaceView(m, spaces, c, f);
  }

  lemma NewSpaceInjective(m: Phys, spaces: set<nat>, c: nat, f: nat)
    requires AllOk(m, spaces) && c in spaces && f < FRAMES && !IsTable(m, spaces, f) && NewDirectory(m, c, f)
    requires Injective(m, spaces)
    ensures AllOk(m, spaces + {f}) && Injective(m, spaces + {f})
  {
    hide Lookup, SpaceOk, IsTable, NewDirectory, Uses;
    NewSpaceView(m, spaces, c, f);
    forall a, v, d, u, g | a in spaces + {f} && d in spaces + {f} && 0 <= v < PAGES && 0 <= u < PAGES && Uses(m, a, v, g) && Uses(m, d, u, g)
      ensures SamePage(a, v, d, u)
    {
      NewSpaceUses(m, spaces, c, f, a, v, g);
      NewSpaceUses(m, spaces, c, f, d, u, g);
      assert SamePage(SeenIn(c, f, a), v, SeenIn(c, f, d), u);
    }
  }

  lemma NewSpacePool(m: Phys, spaces: set<nat>, c: nat, f: nat, pool: seq<nat>)
    requires AllOk(m, spaces) && c in spaces && f < FRAMES && !IsTable(m, spaces, f) && NewDirectory(m, c, f)
    requires PoolOk(m, spaces, pool, {}) && f * PAGE !in pool
    ensures AllOk(m, spaces + {f}) && PoolOk(m, spaces + {f}, pool, {})
  {
    hide Lookup, SpaceOk, IsTable, NewDirectory, Uses;
    NewSpaceView(m, spaces, c, f);
    forall k | 0 <= k < |pool| ensures Spare(m, spaces + {f}, {}, pool[k] / PAGE) {
      var g := pool[k] / PAGE;
      assert Spare(m, spaces, {}, g) && g * PAGE == pool[k];
      forall d, v | d in spaces + {f} && 0 <= v < PAGES ensures !Uses(m, d, v, g) {
        if Uses(m, d, v, g) { NewSpaceUses(m, spaces, c, f, d, v, g); }
      }
    }
  }

  lemma NewSpaceTail(k: Machine, c: nat, f: nat)
    requires k.Core() && k.TailFree(PAGES) && c in k.spaces && f < FRAMES && !IsTable(k.phys, k.spaces, f)
    requires NewDirectory(k.phys, c, f)
    ensures AllOk(k.phys, k.spaces + {f})
    ensures forall d, v :: d in k.spaces + {f} && k.endMapped / PAGE <= v < PAGES ==> Lookup(k.phys, d, v) == None
  {
    hide Lookup, SpaceOk, IsTable, NewDirectory, Injective;
    NewSpaceView(k.phys, k.spaces, c, f);
  }

  /** The copying loop of sched_create_process and the store of the last slot; `f` is the frame behind `page`. */
  method FillDirectory(k: Machine, page: word, physaddr: word, ghost f: nat)
    requires AllOk(k.phys, k.spaces) && k.cr3 in k.spaces && page < WINDOW && page % PAGE == 0
    requires MapsTo(k.phys, k.cr3, page / PAGE, f) && !IsTable(k.phys, k.spaces, f) && f * PAGE == physaddr
    requires forall i :: 0 <= i < WORDS ==> !Present(k.phys[f][i])
    modifies k`phys
    ensures AllOk(k.phys, k.spaces) && !IsTable(k.phys, k.spaces, f) && NewDirectory(k.phys, k.cr3, f)
    ensures forall c, v :: c in k.spaces && 0 <= v < PAGES ==> Lookup(k.phys, c, v) == Lookup(old(k.phys), c, v)
    ensures forall c :: c in k.spaces ==> k.phys[c] == old(k.phys)[c]
    ensures forall g :: 0 <= g < FRAMES && g != f ==> k.phys[g] == old(k.phys)[g]
  {
    hide Store, SpaceOk, Lookup, IsTable;
    var i := KERNEL_SLOT;
    while i < WORDS
      invariant KERNEL_SLOT <= i <= WORDS && AllOk(k.phys, k.spaces) && !IsTable(k.phys, k.spaces, f)
      invariant forall c, v :: c in k.spaces && 0 <= v < PAGES ==> Lookup(k.phys, c, v) == Lookup(old(k.phys), c, v)
      invariant forall c :: c in k.spaces ==> k.phys[c] == old(k.phys)[c]
      invariant forall g :: 0 <= g < FRAMES && g != f ==> k.phys[g] == old(k.phys)[g]
      invariant forall j :: 0 <= j < KERNEL_SLOT ==> !Present(k.phys[f][j])
      invariant forall j :: KERNEL_SLOT <= j < i ==> k.phys[f][j] == k.phys[k.cr3][j]
    {
      DirectoryWord(k, i);
      var w := k.ReadWord(DIRECTORY + 4 * i);
      k.PutWord(page, i, w, f);
      i := i + 1;
    }
    SelfEntry(physaddr);
    k.PutWord(page, SELF_SLOT, physaddr + 3, f);
  }

  lemma DirectoryWord(k: Machine, i: nat)
    requires AllOk(k.phys, k.spaces) && k.cr3 in k.spaces && i < WORDS
    ensures Resolve(k.phys, k.cr3, DIRECTORY + 4 * i) == Some((k.cr3, i))
  {
    DirectoryWindow(k.phys, k.cr3, i);
  }

  lemma SelfEntry(p: nat)
    requires p % PAGE == 0 && p < 0x1_0000_0000
    ensures p + 3 < 0x1_0000_0000 && Present(p + 3) && FrameOf(p + 3) * PAGE == p
  {
  }

  /**
   The page directory of a new process: on the top frame of the stack, visible as one more kernel page. The new
   space has the kernel's pages and no others; no other space changes.
   */
  method CreateSpace(k: Machine) returns (page: word, physaddr: word)
    requires k.Valid() && 0 < k.top && k.endMapped + PAGE < WINDOW
    modifies k`phys, k`top, k`endMapped, k`spaces
    ensures k.Valid() && page == old(k.endMapped) && k.endMapped == page + PAGE
    ensures FrameAddress(physaddr) && k.Pool() + [physaddr] == old(k.Pool())
    ensures k.spaces == old(k.spaces) + {physaddr / PAGE} && physaddr / PAGE !in old(k.spaces)
    ensures AllOk(k.phys, old(k.spaces))
    ensures Mapping(old(k.phys), k.phys, old(k.spaces), k.cr3, page / PAGE, [Entry(physaddr, 3)], 0, [])
    ensures forall f :: 0 <= f < FRAMES && !IsTable(old(k.phys), old(k.spaces), f) && f != physaddr / PAGE ==> k.phys[f] == old(k.phys)[f]
    ensures forall g :: IsTable(k.phys, k.spaces, g) <==> IsTable(old(k.phys), old(k.spaces), g) || g == physaddr / PAGE
    ensures forall v :: 0 <= v < PAGES ==>
              Lookup(k.phys, physaddr / PAGE, v) == if v < KERNEL_PAGES then None else Lookup(k.phys, k.cr3, v)
  {
    hide Injective, Spare, PoolOk, SpaceOk, Entry, Store, IsTable, IsMapped, Lookup, NewDirectory;
    page := k.endMapped;
    physaddr := k.ZeroedPage();
    ghost var m1, f := k.phys, physaddr / PAGE;
    NewPage(old(k.phys), k.phys, k.spaces, k.cr3, page / PAGE, physaddr);
    FillDirectory(k, page, physaddr, f);
    SameLookups(m1, k.phys, k.spaces);
    k.TablesAfterZero(m1);
    k.PoolSame(m1, k.phys, k.Pool());
    k.SameMapping(old(k.phys), m1, page / PAGE, [Entry(physaddr, 3)]);
    k.SameTail(m1, PAGES);
    NoDirectory(k.phys, k.spaces, f);
    NewSpaceView(k.phys, k.spaces, k.cr3, f);
    NewSpaceInjective(k.phys, k.spaces, k.cr3, f);
    NewSpacePool(k.phys, k.spaces, k.cr3, f, k.Pool());
    NewSpaceTail(k, k.cr3, f);
    k.spaces := k.spaces + {f};
  }

  lemma NoDirectory(m: Phys, spaces: set<nat>, f: nat)
    requires AllOk(m, spaces) && !IsTable(m, spaces, f)
    ensures f !in spaces
  {
  }

  lemma NewPage(m0: Phys, m1: Phys, spaces: set<nat>, c: nat, v: nat, p: nat)
    requires AllOk(m0, spaces) && AllOk(m1, spaces) && c in spaces && FrameAddress(p) && v < PAGES
    requires Mapping(m0, m1, spaces, c, v, [Entry(p, 3)], 0, [])
    ensures MapsTo(m1, c, v, p / PAGE) && p / PAGE * PAGE == p
  {
    hide Lookup, SpaceOk, Entry;
    EntryParts(p, 3);
  }

  // ---------- the end of a space ----------

  lemma HeapStays(m0: Phys, m: Phys, spaces: set<nat>, c: nat, v: nat, d: nat, lo: nat, hi: nat)
    requires AllOk(m0, spaces) && AllOk(m, spaces) && d in spaces && hi <= KERNEL_PAGES <= v < PAGES
    requires Gone(m0, m, spaces, c, v, 1) && HeapMapped(m0, spaces, d, lo, hi)
    ensures HeapMapped(m, spaces, d, lo, hi)
  {
    hide Lookup, SpaceOk, IsTable;
    forall u | lo <= u < hi ensures HeapPage(m, spaces, d, u) {
      assert HeapPage(m0, spaces, d, u);
    }
  }

  lemma DataStays(m0: Phys, m: Phys, spaces: set<nat>, c: nat, v: nat, d: nat, vs: set<nat>)
    requires AllOk(m0, spaces) && AllOk(m, spaces) && d in spaces && KERNEL_PAGES <= v < PAGES
    requires Gone(m0, m, spaces, c, v, 1) && DataPages(m0, spaces, d, vs)
    ensures DataPages(m, spaces, d, vs)
  {
    hide Lookup, SpaceOk, IsTable;
    forall u, f | u in vs && u < PAGES && MapsTo(m, d, u, f) ensures 0 < f && !IsTable(m, spaces, f) {
      assert MapsTo(m0, d, u, f);
    }
  }

  /** A process's directory, seen at kernel page `page`, is given back by liballoc_free like any other page. */
  method FreeDirectory(k: Machine, ps: Process, page: word)
    requires k.Valid() && HeapOk(k, ps) && LINEAR_END <= page && page + PAGE <= WINDOW && page % PAGE == 0
    requires MapsTo(k.phys, k.cr3, page / PAGE, ps.directory) && 0 < ps.directory
    modifies k`phys, k`top, k.stack
    ensures k.ValidBut({ps.directory}) && HeapOk(k, ps)
    ensures k.Pool() == old(k.Pool()) + [ps.directory * PAGE]
    ensures Gone(old(k.phys), k.phys, k.spaces, k.cr3, page / PAGE, 1)
  {
    hide Injective, Spare, SpaceOk, IsTable, IsMapped, Lookup, HeapMapped, Unmapping;
    ghost var v, m0 := page / PAGE, k.phys;
    MoreRetired(m0, k.spaces, k.Pool(), ps.directory);
    MappedHere(m0, k.cr3, v, ps.directory);
    var r, n := k.LiballocFree(page, 1, {ps.directory});
    OneFrame(m0, k.cr3, v, ps.directory);
    UnmapKeepsTail(k, m0, v, 1);
    HeapStays(m0, k.phys, k.spaces, k.cr3, v, ps.directory, (ps.pgbrk - ps.brkOffset) / PAGE, ps.pgbrk / PAGE);
  }

  lemma MoreRetired(m: Phys, spaces: set<nat>, pool: seq<nat>, d: nat)
    requires AllOk(m, spaces) && PoolOk(m, spaces, pool, {})
    ensures PoolOk(m, spaces, pool, {d})
  {
    hide IsTable, IsMapped;
    forall k | 0 <= k < |pool| ensures Spare(m, spaces, {d}, pool[k] / PAGE) {
      assert Spare(m, spaces, {}, pool[k] / PAGE);
    }
  }

  lemma MappedHere(m: Phys, c: nat, v: nat, f: nat)
    requires Shaped(m) && c < FRAMES && v < PAGES && MapsTo(m, c, v, f)
    ensures Lookup(m, c, v).Some? && forall u, g :: v <= u < v + 1 && u < PAGES && MapsTo(m, c, u, g) ==> g == f
  {
  }

  lemma OneFrame(m: Phys, c: nat, v: nat, f: nat)
    requires Shaped(m) && c < FRAMES && v < PAGES && MapsTo(m, c, v, f) && Lookup(m, c, v).Some?
    ensures v + 1 <= PAGES && FramesAt(m, c, v, 1) == [f * PAGE]
  {
    assert FramesAt(m, c, v, 1)[0] == FrameAt(m, c, v + 0);
  }

  ghost predicate UserPages(vs: set<nat>) { forall v :: v in vs ==> v < KERNEL_PAGES }

  lemma SameBehind(m0: Phys, m1: Phys, spaces: set<nat>, c: nat, v: nat, d: nat, vs: set<nat>)
    requires AllOk(m0, spaces) && AllOk(m1, spaces) && d in spaces && KERNEL_PAGES <= v < PAGES && UserPages(vs)
    requires Gone(m0, m1, spaces, c, v, 1)
    ensures forall p: nat :: Behind(m1, d, vs, p) == Behind(m0, d, vs, p)
  {
    hide Lookup, SpaceOk, IsTable;
    assert forall u, p :: u in vs && u < PAGES ==> FrameBehind(m1, d, u, p) == FrameBehind(m0, d, u, p);
  }

  lemma {:induction false} RegionsAreUser(regions: seq<Region>)
    requires forall i :: 0 <= i < |regions| ==> RegionOk(regions[i])
    ensures UserPages(PagesOf(regions))
  {
    if regions != [] {
      RegionsAreUser(regions[..|regions| - 1]);
    }
  }

  /** Both parts of the clearing together. */
  ghost predicate SpaceEmptied(m0: Phys, m: Phys, spaces: set<nat>, page: nat, c: nat, vs: set<nat>)
    requires AllOk(m0, spaces) && AllOk(m, spaces)
  {
    && (forall d, v :: d in spaces && 0 <= v < PAGES ==>
          Lookup(m, d, v) == if v == page || (d == c && v in vs) then None else Lookup(m0, d, v))
    && (forall d :: d in spaces ==> m[d] == m0[d])
    && (forall f :: IsTable(m, spaces, f) == IsTable(m0, spaces, f))
    && DataKept(m0, m, spaces)
  }

  lemma EmptiedBoth(m0: Phys, m1: Phys, m2: Phys, spaces: set<nat>, c: nat, v: nat, d: nat, vs: set<nat>)
    requires AllOk(m0, spaces) && AllOk(m1, spaces) && AllOk(m2, spaces) && KERNEL_PAGES <= v < PAGES
    requires Gone(m0, m1, spaces, c, v, 1) && Cleared(m1, m2, spaces, d, vs)
    ensures SpaceEmptied(m0, m2, spaces, v, d, vs)
  {
    hide Lookup, SpaceOk, IsTable, DataKept;
    DataKeptTwice(m0, m1, m2, spaces);
  }

  /**
   What sched_reap_process does to memory: the directory's frame goes on the stack first, and the space is
   emptied through it afterwards. In between and until the end frames are only pushed, so the directory stays
   where it is, and none of its words is written; exactly the directory, the heap and the regions are given back.
   */
  method ReapMemory(k: Machine, ps: Process, page: word, regions: seq<Region>)
    requires k.Valid() && HeapOk(k, ps) && LINEAR_END <= page && page + PAGE <= WINDOW && page % PAGE == 0
    requires MapsTo(k.phys, k.cr3, page / PAGE, ps.directory) && 0 < ps.directory
    requires forall i :: 0 <= i < |regions| ==> RegionOk(regions[i])
    requires DataPages(k.phys, k.spaces, ps.directory, PagesOf(regions))
    requires 0 < ps.pgbrk - ps.brkOffset || ps.pgbrk == 0
    modifies k`phys, k`top, k`endMapped, k`cr3, k.stack, ps
    ensures k.ValidBut({ps.directory}) && k.cr3 == old(k.cr3) && k.spaces == old(k.spaces)
    ensures ps.pgbrk == old(ps.pgbrk - ps.brkOffset)
    ensures old(k.Pool()) + [ps.directory * PAGE] <= k.Pool()
    ensures var pages := Interval(ps.pgbrk / PAGE, old(ps.brkOffset) / PAGE) + PagesOf(regions);
            && SpaceEmptied(old(k.phys), k.phys, k.spaces, page / PAGE, ps.directory, pages)
            && forall p: nat :: p in k.Pool() <==>
                 p in old(k.Pool()) || p == ps.directory * PAGE || Behind(old(k.phys), ps.directory, pages, p)
  {
    hide SpaceOk, Lookup, Spare, IsTable, IsMapped, PoolOk, Injective, Cleared, Behind, HeapMapped, DataPages, RegionOk,
         Gone, SpaceEmptied, UserPages;
    ghost var m0, heap := k.phys, Interval((ps.pgbrk - ps.brkOffset) / PAGE, ps.brkOffset / PAGE);
    ghost var v, pages := page / PAGE, heap + PagesOf(regions);
    UserPagesOf(k, ps, regions);
    FreeDirectory(k, ps, page);
    ghost var m1 := k.phys;
    DataStays(m0, m1, k.spaces, k.cr3, v, ps.directory, PagesOf(regions));
    SameBehind(m0, m1, k.spaces, k.cr3, v, ps.directory, pages);
    SchedFreeAll(k, ps, regions, {ps.directory});
    EmptiedBoth(m0, m1, k.phys, k.spaces, old(k.cr3), v, ps.directory, pages);
  }

  lemma UserPagesOf(k: Machine, ps: Process, regions: seq<Region>)
    requires k.Core() && HeapOk(k, ps) && forall i :: 0 <= i < |regions| ==> RegionOk(regions[i])
    ensures UserPages(Interval((ps.pgbrk - ps.brkOffset) / PAGE, ps.brkOffset / PAGE) + PagesOf(regions))
  {
    hide HeapMapped;
    RegionsAreUser(regions);
  }

  // ---------- the space is no longer there ----------

  lemma FewerSpaces(m: Phys, spaces: set<nat>, d: nat, pool: seq<nat>)
    requires AllOk(m, spaces) && Injective(m, spaces) && PoolOk(m, spaces, pool, {d}) && d in spaces
    ensures AllOk(m, spaces - {d}) && Injective(m, spaces - {d}) && PoolOk(m, spaces - {d}, pool, {})
  {
    hide Lookup, SpaceOk, Uses;
    forall k | 0 <= k < |pool| ensures Spare(m, spaces - {d}, {}, pool[k] / PAGE) {
      assert Spare(m, spaces, {d}, pool[k] / PAGE);
    }
  }

  /** Once another space is loaded, an ended one is none any more, and its directory is an ordinary free frame. */
  ghost method Retire(k: Machine, d: nat)
    requires k.ValidBut({d}) && d in k.spaces && k.cr3 != d
    modifies k`spaces
    ensures k.Valid() && k.spaces == old(k.spaces) - {d}
  {
    FewerSpaces(k.phys, k.spaces, d, k.Pool());
    k.spaces := k.spaces - {d};
  }

  // ---------- a freed directory that is still loaded ----------

  /**
   After exit() the directory of the ended process stays loaded until another one is, and frames may be taken from
   the stack in between. With nothing more given back, `n` frames taken one after the other contain the directory's
   exactly if more of them are taken than lie above it.
   */
  lemma WhenHandedOut(pool0: seq<nat>, p: nat, more: seq<nat>, n: nat)
    requires Distinct(pool0 + [p] + more) && n <= |pool0| + 1 + |more|
    ensures p in Taken(pool0 + [p] + more, n) <==> |more| < n
  {
    var pool, taken := pool0 + [p] + more, Taken(pool0 + [p] + more, n);
    assert pool[|pool0|] == p;
    if |more| < n {
      assert taken[|more|] == p;
    }
  }

  lemma HandedOut(m: Phys, spaces: set<nat>, pool: seq<nat>, d: nat)
    requires AllOk(m, spaces) && pool != [] && PoolOk(m, spaces, pool, {d}) && pool[|pool| - 1] == d * PAGE
    ensures PoolOk(m, spaces, pool[..|pool| - 1], {})
  {
    hide Lookup, SpaceOk, IsTable, IsMapped;
    forall k | 0 <= k < |pool| - 1 ensures Spare(m, spaces, {}, pool[k] / PAGE) {
      assert Spare(m, spaces, {d}, pool[k] / PAGE) && pool[k] != pool[|pool| - 1];
      assert pool[k] == pool[k] / PAGE * PAGE;
    }
  }

  /**
   `n` frames taken while the freed directory `d` may still be loaded. None of them is in use, except that they
   contain the directory's frame if and only if `n` exceeds the number of frames `above` it; the space stays
   whole until somebody writes to that frame.
   */
  method TakeWhileLoaded(k: Machine, d: nat, n: nat, ghost pool0: seq<nat>, ghost above: seq<nat>) returns (ps: seq<nat>)
    requires k.ValidBut({d}) && d in k.spaces && n <= k.top && k.Pool() == pool0 + [d * PAGE] + above
    modifies k`top
    ensures k.ValidBut({d}) && k.top == old(k.top) - n && ps == Taken(old(k.Pool()), n)
    ensures forall p :: p in ps ==> FrameAddress(p) && Spare(k.phys, k.spaces, {d}, p / PAGE) && p !in k.Pool()
    ensures d * PAGE in ps <==> |above| < n
    ensures |above| < n ==> k.Valid()
  {
    hide Spare, SpaceOk, IsTable, IsMapped, Lookup, Injective;
    ghost var old0 := k.Pool();
    ps := [];
    var i := 0;
    while i < n
      invariant 0 <= i <= n && |ps| == i && k.ValidBut({d}) && k.top == old(k.top) - i
      invariant k.Pool() == old0[..|old0| - i]
      invariant forall j :: 0 <= j < i ==> ps[j] == old0[|old0| - 1 - j]
      invariant forall j :: 0 <= j < i ==> FrameAddress(ps[j]) && Spare(k.phys, k.spaces, {d}, ps[j] / PAGE)
      invariant |above| < i ==> k.Valid()
    {
      ghost var pool1 := k.Pool();
      var p := k.AllocFrame({d});
      ps := ps + [p];
      i := i + 1;
      if i == |above| + 1 {
        assert p == d * PAGE;
        HandedOut(k.phys, k.spaces, pool1, d);
      }
    }
    assert ps == Taken(old0, n);
    WhenHandedOut(pool0, d * PAGE, above, n);
  }

  lemma SpaceGone(m0: Phys, m1: Phys, m2: Phys, spaces: set<nat>, more: set<nat>, c: nat, page: nat, p: nat, d: nat)
    requires AllOk(m0, spaces) && AllOk(m1, spaces) && AllOk(m1, more) && AllOk(m2, more) && spaces <= more && c in spaces && d !in spaces
    requires FrameAddress(p) && Mapping(m0, m1, spaces, c, page, [Entry(p, 3)], 0, [])
    requires KERNEL_PAGES <= page && forall a :: a in spaces && page < PAGES ==> Lookup(m0, a, page) == None
    requires SpaceEmptied(m1, m2, more, page, d, {})
    ensures forall a, v :: a in spaces && 0 <= v < PAGES ==> Lookup(m2, a, v) == Lookup(m0, a, v)
  {
    hide Lookup, SpaceOk, IsTable, Entry;
  }

  /** Creating a space and reaping it before anything is mapped in it restores free frames and all translations. */
  method SpaceRoundTrip(k: Machine)
    requires k.Valid() && 0 < k.top && k.endMapped + PAGE < WINDOW
    modifies k`phys, k`top, k`endMapped, k`spaces, k`cr3, k.stack
    ensures k.Valid() && k.spaces == old(k.spaces)
    ensures forall p: nat :: p in k.Pool() <==> p in old(k.Pool())
    ensures forall c, v :: c in k.spaces && 0 <= v < PAGES ==> Lookup(k.phys, c, v) == Lookup(old(k.phys), c, v)
  {
    hide Injective, Spare, PoolOk, SpaceOk, Entry, IsTable, IsMapped, Lookup, Behind, SpaceEmptied;
    ghost var m0, spaces, pool0 := k.phys, k.spaces, k.Pool();
    var page, physaddr := CreateSpace(k);
    var d := physaddr / PAGE;
    NewPage(m0, k.phys, spaces, k.cr3, page / PAGE, physaddr);
    ghost var m1, more := k.phys, k.spaces;
    var ps := new Process(d, 0);
    ReapMemory(k, ps, page, []);
    NothingBehind(m1, d);
    assert Interval(0, 0) + PagesOf([]) == {};
    SpaceGone(m0, m1, k.phys, spaces, more, k.cr3, page / PAGE, physaddr, d);
    Retire(k, d);
    assert more - {d} == spaces;
    assert forall p: nat :: p in pool0 <==> p in pool0[..|pool0| - 1] || p == physaddr;
  }

  lemma NothingBehind(m: Phys, c: nat)
    requires Shaped(m) && c < FRAMES
    ensures forall p: nat :: !Behind(m, c, {}, p)
  {
  }
}
