/** The other operations on memory leave the parked stack tables alone, and what those map hidden. */
module ParkedTables {
  import opened Wrappers
  import opened Bytes
  import opened PageTables
  import opened Paging
  import opened ProgramBreak
  import opened Heaps
  import FreeAll
  import opened AddressSpaces
  import opened StackTables

  /** Some user page shows frame `g`. */
  ghost predicate UserMapped(m: Phys, spaces: set<nat>, g: nat)
    requires AllOk(m, spaces)
  {
    exists d, v :: d in spaces && 0 <= v < KERNEL_PAGES && MapsTo(m, d, v, g)
  }

  /** Only tables, and frames that were free, are written; what becomes visible was visible or free. */
  ghost predicate Confined(m0: Phys, s0: set<nat>, pool0: seq<nat>, m1: Phys, s1: set<nat>, pool1: seq<nat>)
    requires AllOk(m0, s0) && AllOk(m1, s1)
  {
    && (forall f :: 0 <= f < FRAMES && !IsTable(m0, s0, f) && f * PAGE !in pool0 ==> m1[f] == m0[f])
    && (forall g: nat :: IsTable(m1, s1, g) ==> IsTable(m0, s0, g) || g * PAGE in pool0)
    && (forall d, v, g: nat :: d in s1 && 0 <= v < PAGES && Uses(m1, d, v, g) ==> IsMapped(m0, s0, g) || g * PAGE in pool0)
    && (forall d, v, g: nat :: d in s1 && 0 <= v < KERNEL_PAGES && MapsTo(m1, d, v, g) ==>
          UserMapped(m0, s0, g) || (g * PAGE in pool0 && !IsTable(m1, s1, g)))
    && (forall p: nat :: p in pool1 ==> p in pool0 || GivenBack(m0, s0, p))
  }

  /** The frame at `p` held a table, or data of a user page. */
  ghost predicate GivenBack(m: Phys, spaces: set<nat>, p: nat)
    requires AllOk(m, spaces)
  {
    IsTable(m, spaces, p / PAGE) || UserMapped(m, spaces, p / PAGE)
  }

  lemma KeepsParked(m0: Phys, s0: set<nat>, pool0: seq<nat>, m1: Phys, s1: set<nat>, pool1: seq<nat>, parked: set<nat>)
    requires AllOk(m0, s0) && AllOk(m1, s1) && PoolOk(m0, s0, pool0, {}) && ParkedOk(m0, s0, pool0, parked)
    requires Confined(m0, s0, pool0, m1, s1, pool1)
    ensures ParkedOk(m1, s1, pool1, parked)
  {
    hide Lookup, SpaceOk, IsTable, IsMapped, Uses, Holds, PoolOk, UserMapped;
    forall f | f in parked ensures ParkedTable(m1, s1, pool1, parked, f) && m1[f] == m0[f] {
      TableKept(m0, s0, pool0, m1, s1, pool1, parked, f);
    }
    assert forall f :: f in parked ==> ParkedTable(m0, s0, pool0, parked, f);
    forall f, i, f', i', g | f in parked && f' in parked && Holds(m1, f, i, g) && Holds(m1, f', i', g) ensures f == f' && i == i' {
      SameRow(m0, m1, f, i, g);
      SameRow(m0, m1, f', i', g);
    }
    forall d, v, g ensures UserData(m1, s1, parked, d, v, g) {
      DataKeptUser(m0, s0, pool0, m1, s1, pool1, parked, d, v, g);
    }
  }

  lemma SameRow(m0: Phys, m1: Phys, f: nat, i: nat, g: nat)
    requires Shaped(m0) && Shaped(m1) && f < FRAMES && m1[f] == m0[f]
    ensures Holds(m1, f, i, g) == Holds(m0, f, i, g)
  {
  }

  lemma TableKept(m0: Phys, s0: set<nat>, pool0: seq<nat>, m1: Phys, s1: set<nat>, pool1: seq<nat>, parked: set<nat>, f: nat)
    requires AllOk(m0, s0) && AllOk(m1, s1) && ParkedOk(m0, s0, pool0, parked) && f in parked
    requires Confined(m0, s0, pool0, m1, s1, pool1)
    ensures ParkedTable(m1, s1, pool1, parked, f) && m1[f] == m0[f]
  {
    hide Lookup, SpaceOk, IsTable, IsMapped, Uses, Holds;
    assert ParkedTable(m0, s0, pool0, parked, f);
    NotShown(m0, s0, pool0, parked, f);
    assert f * PAGE / PAGE == f;
    assert m1[f] == m0[f];
    forall i, g: nat | Holds(m1, f, i, g) ensures Hidden(m1, s1, pool1, parked, g) {
      SameRow(m0, m1, f, i, g);
      assert Hidden(m0, s0, pool0, parked, g);
      NotMappedUser(m0, s0, g);
      assert g * PAGE / PAGE == g;
      StillUnmapped(m0, s0, pool0, m1, s1, pool1, g);
    }
  }

  lemma NotShown(m: Phys, spaces: set<nat>, pool: seq<nat>, parked: set<nat>, f: nat)
    requires AllOk(m, spaces) && ParkedOk(m, spaces, pool, parked) && f in parked
    ensures !UserMapped(m, spaces, f)
  {
    hide Lookup, SpaceOk, IsTable, ParkedTable, Holds;
    forall d, v | d in spaces && 0 <= v < KERNEL_PAGES ensures !MapsTo(m, d, v, f) {
      assert UserData(m, spaces, parked, d, v, f);
    }
  }

  lemma NotMappedUser(m: Phys, spaces: set<nat>, g: nat)
    requires AllOk(m, spaces) && !IsMapped(m, spaces, g)
    ensures !UserMapped(m, spaces, g)
  {
    hide Lookup, SpaceOk;
    forall d, v | d in spaces && 0 <= v < KERNEL_PAGES ensures !MapsTo(m, d, v, g) {
      assert !Uses(m, d, v, g);
    }
  }

  lemma StillUnmapped(m0: Phys, s0: set<nat>, pool0: seq<nat>, m1: Phys, s1: set<nat>, pool1: seq<nat>, g: nat)
    requires AllOk(m0, s0) && AllOk(m1, s1) && Confined(m0, s0, pool0, m1, s1, pool1)
    requires !IsMapped(m0, s0, g) && g * PAGE !in pool0
    ensures !IsMapped(m1, s1, g)
  {
    hide Uses, SpaceOk, IsTable;
    forall d, v | d in s1 && 0 <= v < PAGES ensures !Uses(m1, d, v, g) {
    }
  }

  lemma DataKeptUser(m0: Phys, s0: set<nat>, pool0: seq<nat>, m1: Phys, s1: set<nat>, pool1: seq<nat>, parked: set<nat>, d: nat, v: nat, g: nat)
    requires AllOk(m0, s0) && AllOk(m1, s1) && PoolOk(m0, s0, pool0, {}) && ParkedOk(m0, s0, pool0, parked)
    requires Confined(m0, s0, pool0, m1, s1, pool1)
    ensures UserData(m1, s1, parked, d, v, g)
  {
    hide Lookup, SpaceOk, IsTable, ParkedTable, Holds, PoolOk;
    if d in s1 && v < KERNEL_PAGES && MapsTo(m1, d, v, g) {
      if UserMapped(m0, s0, g) {
        var c, u :| c in s0 && 0 <= u < KERNEL_PAGES && MapsTo(m0, c, u, g);
        assert UserData(m0, s0, parked, c, u, g) && Uses(m0, c, u, g);
        NotPooled(m0, s0, pool0, g);
      } else {
        NotParked(m0, s0, pool0, parked, g);
      }
    }
  }

  // ---------- kernel pages ----------

  /** A run of kernel pages on frames from the top of the stack. */
  lemma RunConfined(m0: Phys, m1: Phys, spaces: set<nat>, c: nat, pool0: seq<nat>, pool1: seq<nat>, end0: nat, pages: nat)
    requires AllOk(m0, spaces) && AllOk(m1, spaces) && c in spaces && pages <= |pool0| && KERNEL_START <= end0
    requires KernelRun(m0, m1, spaces, c, pool0, pool1, end0, pages)
    ensures Confined(m0, spaces, pool0, m1, spaces, pool1)
  {
    hide Lookup, SpaceOk, IsTable, Entry, Taken;
    var ps := Taken(pool0, pages);
    forall d, v, g: nat | d in spaces && 0 <= v < PAGES && Uses(m1, d, v, g) ensures IsMapped(m0, spaces, g) || g * PAGE in pool0 {
      if end0 / PAGE <= v < end0 / PAGE + pages {
        TakenFrame(pool0, pages, v - end0 / PAGE, g, Lookup(m1, d, v));
      } else {
        assert Uses(m0, d, v, g);
      }
    }
    forall d, v, g: nat | d in spaces && 0 <= v < KERNEL_PAGES && MapsTo(m1, d, v, g) ensures UserMapped(m0, spaces, g) {
      assert MapsTo(m0, d, v, g);
    }
  }

  lemma TakenFrame(pool: seq<nat>, n: nat, i: nat, g: nat, l: Option<word>)
    requires n <= |pool| && i < n && (forall j :: 0 <= j < n ==> FrameAddress(Taken(pool, n)[j]))
    requires l == Some(Entries(Taken(pool, n), 3)[i]) && FrameOf(l.value) == g
    ensures g * PAGE in pool
  {
    hide Entry;
    EntryParts(Taken(pool, n)[i], 3);
    assert Taken(pool, n)[i] == pool[|pool| - 1 - i];
  }

  /** liballoc_alloc. */
  method AllocKeepsParked(k: Machine, pages: nat, ghost parked: set<nat>) returns (start: nat)
    requires k.Valid() && pages <= k.top && k.endMapped + pages * PAGE < WINDOW && ParkedOk(k.phys, k.spaces, k.Pool(), parked)
    modifies k`phys, k`top, k`endMapped
    ensures k.Valid() && ParkedOk(k.phys, k.spaces, k.Pool(), parked)
  {
    hide Injective, Spare, PoolOk, SpaceOk, IsTable, IsMapped, Lookup, ParkedOk, KernelRun, Confined;
    ghost var m0, pool0, end0 := k.phys, k.Pool(), k.endMapped;
    start := k.LiballocAlloc(pages);
    RunConfined(m0, k.phys, k.spaces, k.cr3, pool0, k.Pool(), end0, pages);
    KeepsParked(m0, k.spaces, pool0, k.phys, k.spaces, k.Pool(), parked);
  }

  // ---------- the program break ----------

  lemma GrowthConfined(m0: Phys, m1: Phys, spaces: set<nat>, c: nat, pool0: seq<nat>, pool1: seq<nat>,
                       end0: nat, end1: nat, lo: nat, data: seq<nat>, tabs: seq<nat>)
    requires AllOk(m0, spaces) && AllOk(m1, spaces) && c in spaces
    requires Growing(m0, m1, spaces, c, pool0, pool1, end0, end1, lo, data, tabs)
    ensures Confined(m0, spaces, pool0, m1, spaces, pool1)
  {
    hide Lookup, SpaceOk, IsTable, Entry, Mapping;
    assert forall p :: p in data || p in tabs || p in pool1 ==> p in multiset(pool0);
    forall g: nat | IsTable(m1, spaces, g) ensures IsTable(m0, spaces, g) || g * PAGE in pool0 {
      if t :| t in tabs && t / PAGE == g { assert t == g * PAGE; }
    }
    forall d, v, g: nat | d in spaces && 0 <= v < PAGES && Uses(m1, d, v, g) ensures IsMapped(m0, spaces, g) || g * PAGE in pool0 {
      GrownPage(m0, m1, spaces, c, pool0, pool1, end0, end1, lo, data, tabs, d, v, g);
      assert MapsTo(m0, d, v, g) ==> Uses(m0, d, v, g);
    }
    forall d, v, g: nat | d in spaces && 0 <= v < KERNEL_PAGES && MapsTo(m1, d, v, g)
      ensures UserMapped(m0, spaces, g) || (g * PAGE in pool0 && !IsTable(m1, spaces, g))
    {
      GrownPage(m0, m1, spaces, c, pool0, pool1, end0, end1, lo, data, tabs, d, v, g);
    }
  }

  /** A page after a growth: as before, a new heap page, or a page for a new table. */
  lemma GrownPage(m0: Phys, m1: Phys, spaces: set<nat>, c: nat, pool0: seq<nat>, pool1: seq<nat>,
                  end0: nat, end1: nat, lo: nat, data: seq<nat>, tabs: seq<nat>, d: nat, v: nat, g: nat)
    requires AllOk(m0, spaces) && AllOk(m1, spaces) && c in spaces && d in spaces && v < PAGES && MapsTo(m1, d, v, g)
    requires Growing(m0, m1, spaces, c, pool0, pool1, end0, end1, lo, data, tabs)
    ensures MapsTo(m0, d, v, g) || (g * PAGE in data && !IsTable(m1, spaces, g)) || (g * PAGE in tabs && KERNEL_PAGES <= v)
  {
    hide Lookup, SpaceOk, IsTable, Entry, TablesGrew, Untouched;
    if lo <= v < lo + |data| && (d == c || KERNEL_PAGES <= v) {
      EntryParts(data[v - lo], 7);
      assert data[v - lo] in data;
    } else if end0 / PAGE <= v < end0 / PAGE + |tabs| {
      EntryParts(tabs[v - end0 / PAGE], 3);
      assert tabs[v - end0 / PAGE] in tabs;
    }
  }

  lemma ShrinkConfined(m0: Phys, m1: Phys, spaces: set<nat>, c: nat, pool0: seq<nat>, pool1: seq<nat>, lo: nat, n: nat)
    requires AllOk(m0, spaces) && AllOk(m1, spaces) && c in spaces && lo + n <= KERNEL_PAGES
    requires Shrinking(m0, m1, spaces, c, pool0, pool1, lo, n)
    ensures Confined(m0, spaces, pool0, m1, spaces, pool1)
  {
    hide Lookup, SpaceOk, IsTable, FramesAt;
    forall d, v, g: nat | d in spaces && 0 <= v < PAGES && Uses(m1, d, v, g) ensures IsMapped(m0, spaces, g) {
      assert Uses(m0, d, v, g);
    }
    forall d, v, g: nat | d in spaces && 0 <= v < KERNEL_PAGES && MapsTo(m1, d, v, g) ensures UserMapped(m0, spaces, g) {
      assert MapsTo(m0, d, v, g);
    }
    forall p: nat | p in pool1 ensures p in pool0 || GivenBack(m0, spaces, p) {
      assert p in multiset(pool1);
      if p in FramesAt(m0, c, lo, n) { PageFrame(m0, spaces, c, lo, n, p); }
    }
  }

  lemma PageFrame(m: Phys, spaces: set<nat>, c: nat, lo: nat, n: nat, p: nat)
    requires AllOk(m, spaces) && c in spaces && lo + n <= KERNEL_PAGES
    requires (forall v :: lo <= v < lo + n ==> Lookup(m, c, v).Some?) && p in FramesAt(m, c, lo, n)
    ensures UserMapped(m, spaces, p / PAGE)
  {
    hide Lookup, SpaceOk;
    var i :| 0 <= i < n && FramesAt(m, c, lo, n)[i] == p;
    assert FramesAt(m, c, lo, n)[i] == FrameAt(m, c, lo + i);
    assert MapsTo(m, c, lo + i, p / PAGE);
  }

  /** sched_setbrk_true. */
  method SetBrkKeepsParked(k: Machine, addr: word, ps: Process, ghost parked: set<nat>) returns (retval: word)
    requires k.Valid() && HeapOk(k, ps) && BreakRoom(k, addr, ps) && ParkedOk(k.phys, k.spaces, k.Pool(), parked)
    modifies k`phys, k`top, k`endMapped, k`cr3, k.stack, ps
    ensures k.Valid() && HeapOk(k, ps) && ParkedOk(k.phys, k.spaces, k.Pool(), parked)
  {
    hide SpaceOk, Lookup, Spare, IsTable, IsMapped, PoolOk, Injective, HeapMapped, Call, ParkedOk;
    ghost var m0, pool0, end0, lo0 := k.phys, k.Pool(), k.endMapped, ps.pgbrk / PAGE;
    retval := SetBrkCall(k, addr, ps);
    CallKeepsParked(m0, k.phys, k.spaces, ps.directory, pool0, k.Pool(), end0, k.endMapped, lo0, ps.pgbrk / PAGE, parked);
  }

  lemma CallKeepsParked(m0: Phys, m1: Phys, spaces: set<nat>, c: nat, pool0: seq<nat>, pool1: seq<nat>,
                        end0: nat, end1: nat, lo0: nat, lo1: nat, parked: set<nat>)
    requires AllOk(m0, spaces) && AllOk(m1, spaces) && c in spaces && PoolOk(m0, spaces, pool0, {}) && lo0 <= KERNEL_PAGES
    requires Call(m0, m1, spaces, c, pool0, pool1, end0, end1, lo0, lo1) && ParkedOk(m0, spaces, pool0, parked)
    ensures ParkedOk(m1, spaces, pool1, parked)
  {
    hide SpaceOk, Lookup, IsTable, PoolOk, ParkedOk, Growing, Shrinking, Confined;
    if m1 == m0 && pool1 == pool0 && end1 == end0 && lo1 == lo0 {
      return;
    } else if lo1 <= lo0 <= PAGES && end1 == end0 && Shrinking(m0, m1, spaces, c, pool0, pool1, lo1, lo0 - lo1) {
      ShrinkConfined(m0, m1, spaces, c, pool0, pool1, lo1, lo0 - lo1);
    } else {
      var data, tabs :| lo1 == lo0 + |data| && Growing(m0, m1, spaces, c, pool0, pool1, end0, end1, lo0, data, tabs);
      GrowthConfined(m0, m1, spaces, c, pool0, pool1, end0, end1, lo0, data, tabs);
    }
    KeepsParked(m0, spaces, pool0, m1, spaces, pool1, parked);
  }

  // ---------- the life of a process ----------

  lemma SpaceConfined(m0: Phys, m1: Phys, s0: set<nat>, s1: set<nat>, c: nat, pool0: seq<nat>, pool1: seq<nat>, page: nat, p: nat)
    requires AllOk(m0, s0) && AllOk(m1, s0) && AllOk(m1, s1) && c in s0 && FrameAddress(p) && KERNEL_PAGES <= page < PAGES
    requires s1 == s0 + {p / PAGE} && p / PAGE !in s0 && pool1 + [p] == pool0
    requires Mapping(m0, m1, s0, c, page, [Entry(p, 3)], 0, [])
    requires forall f :: 0 <= f < FRAMES && !IsTable(m0, s0, f) && f != p / PAGE ==> m1[f] == m0[f]
    requires forall g :: IsTable(m1, s1, g) <==> IsTable(m0, s0, g) || g == p / PAGE
    requires forall v :: 0 <= v < PAGES ==> Lookup(m1, p / PAGE, v) == if v < KERNEL_PAGES then None else Lookup(m1, c, v)
    ensures Confined(m0, s0, pool0, m1, s1, pool1)
  {
    hide Lookup, SpaceOk, IsTable, Entry;
    EntryParts(p, 3);
    assert p / PAGE * PAGE == p && p in pool0;
    forall d, v, g: nat | d in s1 && 0 <= v < PAGES && Uses(m1, d, v, g) ensures IsMapped(m0, s0, g) || g * PAGE in pool0 {
      var a := if d == p / PAGE then c else d;
      assert Lookup(m1, a, v) == Lookup(m1, d, v);
      if v != page { assert Uses(m0, a, v, g); }
    }
    forall d, v, g: nat | d in s1 && 0 <= v < KERNEL_PAGES && MapsTo(m1, d, v, g) ensures UserMapped(m0, s0, g) {
      assert MapsTo(m0, d, v, g);
    }
  }

  /** The memory part of sched_create_process. */
  method CreateKeepsParked(k: Machine, ghost parked: set<nat>) returns (page: word, physaddr: word)
    requires k.Valid() && 0 < k.top && k.endMapped + PAGE < WINDOW && ParkedOk(k.phys, k.spaces, k.Pool(), parked)
    modifies k`phys, k`top, k`endMapped, k`spaces
    ensures k.Valid() && ParkedOk(k.phys, k.spaces, k.Pool(), parked)
  {
    hide Injective, Spare, PoolOk, SpaceOk, IsTable, IsMapped, Lookup, ParkedOk, Entry, Mapping, Confined;
    ghost var m0, s0, pool0 := k.phys, k.spaces, k.Pool();
    page, physaddr := CreateSpace(k);
    SpaceConfined(m0, k.phys, s0, k.spaces, k.cr3, pool0, k.Pool(), page / PAGE, physaddr);
    KeepsParked(m0, s0, pool0, k.phys, k.spaces, k.Pool(), parked);
  }

  lemma EmptiedConfined(m0: Phys, m1: Phys, spaces: set<nat>, page: nat, d: nat, vs: set<nat>, pool0: seq<nat>, pool1: seq<nat>)
    requires AllOk(m0, spaces) && AllOk(m1, spaces) && d in spaces && UserPages(vs)
    requires SpaceEmptied(m0, m1, spaces, page, d, vs)
    requires forall p: nat :: p in pool1 <==> p in pool0 || p == d * PAGE || FreeAll.Behind(m0, d, vs, p)
    ensures Confined(m0, spaces, pool0, m1, spaces, pool1)
  {
    hide Lookup, SpaceOk, IsTable;
    forall a, v, g: nat | a in spaces && 0 <= v < PAGES && Uses(m1, a, v, g) ensures IsMapped(m0, spaces, g) {
      assert Uses(m0, a, v, g);
    }
    forall a, v, g: nat | a in spaces && 0 <= v < KERNEL_PAGES && MapsTo(m1, a, v, g) ensures UserMapped(m0, spaces, g) {
      assert MapsTo(m0, a, v, g);
    }
    DirectoryIsTable(m0, spaces, d);
    assert d * PAGE / PAGE == d;
    forall p: nat | p in pool1 && p !in pool0 && p != d * PAGE ensures GivenBack(m0, spaces, p) {
      var v :| v in vs && v < PAGES && FreeAll.FrameBehind(m0, d, v, p);
      assert MapsTo(m0, d, v, p / PAGE);
    }
  }

  /** The memory part of sched_reap_process. */
  method ReapKeepsParked(k: Machine, ps: Process, page: word, regions: seq<FreeAll.Region>, ghost parked: set<nat>)
    requires k.Valid() && HeapOk(k, ps) && LINEAR_END <= page && page + PAGE <= WINDOW && page % PAGE == 0
    requires MapsTo(k.phys, k.cr3, page / PAGE, ps.directory) && 0 < ps.directory
    requires forall i :: 0 <= i < |regions| ==> FreeAll.RegionOk(regions[i])
    requires FreeAll.DataPages(k.phys, k.spaces, ps.directory, FreeAll.PagesOf(regions))
    requires (0 < ps.pgbrk - ps.brkOffset || ps.pgbrk == 0) && ParkedOk(k.phys, k.spaces, k.Pool(), parked)
    modifies k`phys, k`top, k`endMapped, k`cr3, k.stack, ps
    ensures k.ValidBut({ps.directory}) && ParkedOk(k.phys, k.spaces, k.Pool(), parked)
  {
    hide Injective, Spare, PoolOk, SpaceOk, IsTable, IsMapped, Lookup, ParkedOk, SpaceEmptied, Confined, UserPages;
    ghost var m0, pool0 := k.phys, k.Pool();
    ghost var pages := FreeAll.Interval((ps.pgbrk - ps.brkOffset) / PAGE, ps.brkOffset / PAGE) + FreeAll.PagesOf(regions);
    UserPagesOf(k, ps, regions);
    ReapMemory(k, ps, page, regions);
    EmptiedConfined(m0, k.phys, k.spaces, page / PAGE, ps.directory, pages, pool0, k.Pool());
    KeepsParked(m0, k.spaces, pool0, k.phys, k.spaces, k.Pool(), parked);
  }
}
