/** sched_setbrk_true: the program break of a process, grown or shrunk page by page, with rollback. */
module ProgramBreak {
  import opened Wrappers
  import opened Bytes
  import opened PageTables
  import opened Paging

  // one 4 MiB region below kernel space is for the thread stacks
  const HEAP_END: nat := KERNEL_START - 0x40_0000
  // frames the growing loop never touches
  const RESERVE: nat := 8

  class Process {
    const directory: nat
    var brk: nat
    var pgbrk: nat
    var brkOffset: nat

    constructor (directory: nat, brk: nat)
      ensures this.directory == directory && this.brk == brk && pgbrk == brk && brkOffset == 0
    {
      this.directory, this.brk, pgbrk, brkOffset := directory, brk, brk, 0;
    }
  }

  /** The next page boundary at or above `brk`. */
  function PageUp(brk: nat): (r: nat)
    ensures r % PAGE == 0 && brk <= r < brk + PAGE
  {
    if brk % PAGE != 0 then brk + (PAGE - brk % PAGE) else brk
  }

  /** The break fields fit together, and every heap page is mapped to a data frame. */
  ghost predicate HeapOk(k: Machine, ps: Process)
    requires k.Core()
    reads k, ps
  {
    && ps.directory in k.spaces
    && ps.pgbrk % PAGE == 0 && ps.brkOffset % PAGE == 0 && ps.brkOffset <= ps.pgbrk <= HEAP_END
    && ps.brk <= ps.pgbrk < ps.brk + PAGE
    && HeapMapped(k.phys, k.spaces, ps.directory, (ps.pgbrk - ps.brkOffset) / PAGE, ps.pgbrk / PAGE)
  }

  ghost predicate HeapMapped(m: Phys, spaces: set<nat>, c: nat, lo: nat, hi: nat)
    requires AllOk(m, spaces) && c in spaces && hi <= PAGES
  {
    forall v :: lo <= v < hi ==> HeapPage(m, spaces, c, v)
  }

  ghost predicate HeapPage(m: Phys, spaces: set<nat>, c: nat, v: nat)
    requires AllOk(m, spaces) && c in spaces && v < PAGES
  {
    Lookup(m, c, v).Some? && 0 < FrameOf(Lookup(m, c, v).value) && !IsTable(m, spaces, FrameOf(Lookup(m, c, v).value))
  }

  /** The frames `tabs` are the tables that came into being between two memories. */
  ghost predicate TablesGrew(m0: Phys, m1: Phys, spaces: set<nat>, tabs: seq<nat>)
    requires AllOk(m0, spaces) && AllOk(m1, spaces)
  {
    && (forall t :: t in tabs ==> FrameAddress(t))
    && (forall f :: IsTable(m1, spaces, f) <==> IsTable(m0, spaces, f) || exists t :: t in tabs && t / PAGE == f)
  }

  /**
   A growth that started from memory `m0`, stack `pool0` and kernel end `end0` has mapped the frames `data`
   from page `lo` on and created the tables `tabs`.
   */
  ghost predicate Growing(m0: Phys, m: Phys, spaces: set<nat>, c: nat, pool0: seq<nat>, pool: seq<nat>,
                          end0: nat, end: nat, lo: nat, data: seq<nat>, tabs: seq<nat>)
    requires AllOk(m0, spaces) && AllOk(m, spaces) && c in spaces
  {
    && (forall i :: 0 <= i < |data| ==> FrameAddress(data[i]))
    && (forall i :: 0 <= i < |tabs| ==> FrameAddress(tabs[i]))
    && (forall p :: p in data ==> !IsTable(m, spaces, p / PAGE))
    && TablesGrew(m0, m, spaces, tabs) && Untouched(m0, m, spaces, tabs)
    && end == end0 + |tabs| * PAGE && KERNEL_START <= end0 && end0 % PAGE == 0
    && lo + |data| <= HEAP_END / PAGE
    && Mapping(m0, m, spaces, c, lo, Entries(data, 7), end0 / PAGE, Entries(tabs, 3))
    && (forall v :: lo <= v < lo + |data| ==> Lookup(m0, c, v) == None)
    && multiset(pool0) == multiset(pool) + multiset(data) + multiset(tabs)
  }

  lemma GrowingStart(m: Phys, spaces: set<nat>, c: nat, pool: seq<nat>, end: nat, lo: nat)
    requires AllOk(m, spaces) && c in spaces && lo <= HEAP_END / PAGE && KERNEL_START <= end && end % PAGE == 0
    ensures Growing(m, m, spaces, c, pool, pool, end, end, lo, [], [])
  {
    hide SpaceOk, Lookup;
    MappingNothing(m, spaces, c, lo, end / PAGE);
  }

  /** One more heap page on frame `page`; `more` is the table that was created for it, if any. */
  lemma GrowingStep(m0: Phys, m1: Phys, m2: Phys, spaces: set<nat>, c: nat, pool0: seq<nat>, pool1: seq<nat>, pool2: seq<nat>,
                    end0: nat, end1: nat, lo: nat, data: seq<nat>, tabs: seq<nat>, page: nat, more: seq<nat>)
    requires AllOk(m0, spaces) && AllOk(m1, spaces) && AllOk(m2, spaces) && c in spaces
    requires Growing(m0, m1, spaces, c, pool0, pool1, end0, end1, lo, data, tabs)
    requires PoolOk(m1, spaces, pool1, {}) && pool1 == pool2 + more + [page]
    requires lo + |data| < HEAP_END / PAGE && Lookup(m1, c, lo + |data|) == None
    requires forall i :: 0 <= i < |more| ==> FrameAddress(more[i])
    requires FrameAddress(page) && Mapping(m1, m2, spaces, c, lo + |data|, [Entry(page, 7)], end1 / PAGE, Entries(more, 3))
    requires TablesGrew(m1, m2, spaces, more) && Untouched(m1, m2, spaces, more)
    ensures Growing(m0, m2, spaces, c, pool0, pool2, end0, end1 + |more| * PAGE, lo, data + [page], tabs + more)
  {
    hide SpaceOk, Lookup, Spare, Entry, IsTable, IsMapped, Untouched;
    StepUntouched(m0, m1, m2, spaces, tabs, more);
    StepMapping(m0, m1, m2, spaces, c, end0, end1, lo, data, tabs, page, more);
    StepTables(m0, m1, m2, spaces, tabs, more);
    StepData(m0, m1, m2, spaces, c, pool0, pool1, pool2, end0, end1, lo, data, tabs, page, more);
    assert multiset(pool1) == multiset(pool2) + multiset(more) + multiset{page};
    StepHole(m0, m1, spaces, c, end0, lo, data, tabs);
  }

  /** A frame that is no table and no new one is not written. */
  lemma StepUntouched(m0: Phys, m1: Phys, m2: Phys, spaces: set<nat>, tabs: seq<nat>, more: seq<nat>)
    requires AllOk(m0, spaces) && AllOk(m1, spaces) && AllOk(m2, spaces)
    requires TablesGrew(m0, m1, spaces, tabs) && Untouched(m0, m1, spaces, tabs) && Untouched(m1, m2, spaces, more)
    ensures Untouched(m0, m2, spaces, tabs + more)
  {
    hide SpaceOk, IsTable;
    forall f | 0 <= f < FRAMES && !IsTable(m0, spaces, f) && f * PAGE !in tabs + more ensures m2[f] == m0[f] {
      assert f * PAGE !in tabs && f * PAGE !in more;
      assert forall t :: t in tabs && t / PAGE == f ==> t == f * PAGE;
    }
  }

  lemma StepHole(m0: Phys, m1: Phys, spaces: set<nat>, c: nat, end0: nat, lo: nat, data: seq<nat>, tabs: seq<nat>)
    requires AllOk(m0, spaces) && AllOk(m1, spaces) && c in spaces && KERNEL_START <= end0
    requires (forall i :: 0 <= i < |data| ==> FrameAddress(data[i])) && (forall i :: 0 <= i < |tabs| ==> FrameAddress(tabs[i]))
    requires lo + |data| < HEAP_END / PAGE
    requires Mapping(m0, m1, spaces, c, lo, Entries(data, 7), end0 / PAGE, Entries(tabs, 3))
    ensures Lookup(m1, c, lo + |data|) == Lookup(m0, c, lo + |data|)
  {
    hide Lookup, SpaceOk;
  }

  lemma StepMapping(m0: Phys, m1: Phys, m2: Phys, spaces: set<nat>, c: nat, end0: nat, end1: nat,
                    lo: nat, data: seq<nat>, tabs: seq<nat>, page: nat, more: seq<nat>)
    requires AllOk(m0, spaces) && AllOk(m1, spaces) && AllOk(m2, spaces) && FrameAddress(page)
    requires (forall i :: 0 <= i < |data| ==> FrameAddress(data[i])) && (forall i :: 0 <= i < |tabs| ==> FrameAddress(tabs[i]))
    requires forall i :: 0 <= i < |more| ==> FrameAddress(more[i])
    requires Mapping(m0, m1, spaces, c, lo, Entries(data, 7), end0 / PAGE, Entries(tabs, 3))
    requires Mapping(m1, m2, spaces, c, lo + |data|, [Entry(page, 7)], end1 / PAGE, Entries(more, 3))
    requires end1 == end0 + |tabs| * PAGE && end0 % PAGE == 0 && lo + |data| <= end0 / PAGE
    ensures forall i :: 0 <= i < |data| + 1 ==> FrameAddress((data + [page])[i])
    ensures forall i :: 0 <= i < |tabs| + |more| ==> FrameAddress((tabs + more)[i])
    ensures Mapping(m0, m2, spaces, c, lo, Entries(data + [page], 7), end0 / PAGE, Entries(tabs + more, 3))
  {
    hide SpaceOk, Lookup, Entry, Mapping;
    assert end1 / PAGE == end0 / PAGE + |tabs|;
    MappingAppend(m0, m1, m2, spaces, c, lo, Entries(data, 7), [Entry(page, 7)], end0 / PAGE, Entries(tabs, 3), Entries(more, 3));
    EntriesAppend(data, page, 7);
    assert forall i :: 0 <= i < |tabs| + |more| ==> FrameAddress((tabs + more)[i]);
    assert Entries(tabs + more, 3) == Entries(tabs, 3) + Entries(more, 3);
  }

  lemma StepTables(m0: Phys, m1: Phys, m2: Phys, spaces: set<nat>, tabs: seq<nat>, more: seq<nat>)
    requires AllOk(m0, spaces) && AllOk(m1, spaces) && AllOk(m2, spaces)
    requires TablesGrew(m0, m1, spaces, tabs) && TablesGrew(m1, m2, spaces, more)
    ensures TablesGrew(m0, m2, spaces, tabs + more)
  {
    hide SpaceOk, IsTable;
    forall f ensures IsTable(m2, spaces, f) <==> IsTable(m0, spaces, f) || exists t :: t in tabs + more && t / PAGE == f {
      assert forall t :: t in tabs + more <==> t in tabs || t in more;
    }
  }

  /** A frame that was on the stack is no heap frame, so heap frames never turn into tables. */
  lemma StepData(m0: Phys, m1: Phys, m2: Phys, spaces: set<nat>, c: nat, pool0: seq<nat>, pool1: seq<nat>, pool2: seq<nat>,
                 end0: nat, end1: nat, lo: nat, data: seq<nat>, tabs: seq<nat>, page: nat, more: seq<nat>)
    requires AllOk(m0, spaces) && AllOk(m1, spaces) && AllOk(m2, spaces) && c in spaces
    requires Growing(m0, m1, spaces, c, pool0, pool1, end0, end1, lo, data, tabs)
    requires PoolOk(m1, spaces, pool1, {}) && pool1 == pool2 + more + [page]
    requires TablesGrew(m1, m2, spaces, more)
    ensures forall p :: p in data + [page] ==> !IsTable(m2, spaces, p / PAGE)
  {
    hide SpaceOk, Lookup, Entry, IsTable;
    forall p | p in data + [page] ensures !IsTable(m2, spaces, p / PAGE) {
      forall t | t in more ensures t / PAGE != p / PAGE {
        var j :| 0 <= j < |more| && more[j] == t;
        assert pool1[|pool2| + j] == t && Spare(m1, spaces, {}, t / PAGE);
        if p in data {
          var i :| 0 <= i < |data| && data[i] == p;
          EntryParts(p, 7);
          assert Lookup(m1, c, lo + i) == Some(Entries(data, 7)[i]);
          assert Uses(m1, c, lo + i, p / PAGE);
        } else {
          assert pool1[|pool1| - 1] == p;
          assert t / PAGE * PAGE == t && p / PAGE * PAGE == p;
        }
      }
      if p !in data { assert pool1[|pool1| - 1] == p && Spare(m1, spaces, {}, p / PAGE); }
    }
  }

  /** Tables are created at most once per 4 MiB, so a run of `n` pages needs no more than this. */
  function TablesFor(n: nat): nat { n / WORDS + 2 }

  /** How many tables the run [lo, lo + n) has been given so far, bounded by the slots it touches. */
  ghost predicate TablesCounted(k: Machine, lo: nat, n: nat, tabs: nat)
    requires k.Core() && lo + n <= PAGES
    reads k
  {
    if n == 0 then tabs == 0
    else Present(k.phys[k.cr3][(lo + n - 1) / WORDS]) && tabs <= (lo + n - 1) / WORDS - lo / WORDS + 1
  }

  lemma TablesBound(k: Machine, lo: nat, n: nat, tabs: nat)
    requires k.Core() && lo + n < PAGES && TablesCounted(k, lo, n, tabs)
    ensures !Present(k.phys[k.cr3][(lo + n) / WORDS]) ==> tabs + 1 <= TablesFor(n)
  {
    if 0 < n && !Present(k.phys[k.cr3][(lo + n) / WORDS]) {
      assert (lo + n) / WORDS != (lo + n - 1) / WORDS;
      assert (lo + n) / WORDS <= lo / WORDS + n / WORDS + 1;
    }
  }

  lemma NextPage(m0: Phys, m1: Phys, spaces: set<nat>, c: nat, pool0: seq<nat>, pool1: seq<nat>,
                 end0: nat, end1: nat, lo: nat, data: seq<nat>, tabs: seq<nat>)
    requires AllOk(m0, spaces) && AllOk(m1, spaces) && c in spaces && lo + |data| < HEAP_END / PAGE
    requires Growing(m0, m1, spaces, c, pool0, pool1, end0, end1, lo, data, tabs)
    ensures Lookup(m1, c, lo + |data|) == Lookup(m0, c, lo + |data|)
    ensures end1 == end0 + |tabs| * PAGE
  {
    hide SpaceOk, Lookup;
    StepHole(m0, m1, spaces, c, end0, lo, data, tabs);
  }

  lemma MoreTables(m1: Phys, m2: Phys, spaces: set<nat>, p: nat)
    requires AllOk(m1, spaces) && AllOk(m2, spaces) && FrameAddress(p)
    requires forall f :: IsTable(m2, spaces, f) <==> IsTable(m1, spaces, f) || f == p / PAGE
    ensures TablesGrew(m1, m2, spaces, [p])
  {
    hide SpaceOk, IsTable;
    assert p in [p];
  }

  /** vmm_map_page for a heap page; `more` is the frame that became a page table for it, if one was needed. */
  method MapHeapPage(k: Machine, page: word, va: word) returns (r: int, ghost more: seq<nat>)
    requires k.Valid() && k.InHand(page) && va < HEAP_END
    requires !Present(k.phys[k.cr3][va / PAGE / WORDS]) ==> 0 < k.top && k.endMapped + PAGE < WINDOW
    modifies k`phys, k`top, k`endMapped
    ensures k.Valid() && (forall i :: 0 <= i < |more| ==> FrameAddress(more[i]))
    ensures r == if Lookup(old(k.phys), k.cr3, va / PAGE).Some? then -1 else 0
    ensures k.Pool() + more == old(k.Pool()) && k.endMapped == old(k.endMapped) + |more| * PAGE
    ensures |more| == if r == 0 && !old(Present(k.phys[k.cr3][va / PAGE / WORDS])) then 1 else 0
    ensures r != 0 ==> k.phys == old(k.phys)
    ensures r == 0 ==>
              && Present(k.phys[k.cr3][va / PAGE / WORDS])
              && Mapping(old(k.phys), k.phys, k.spaces, k.cr3, va / PAGE, [Entry(page, 7)], old(k.endMapped) / PAGE, Entries(more, 3))
              && TablesGrew(old(k.phys), k.phys, k.spaces, more)
              && Untouched(old(k.phys), k.phys, k.spaces, more)
  {
    hide SpaceOk, Lookup, Spare, Entry, IsTable, IsMapped, PoolOk, Injective, FrameAddress, Untouched, DataKept;
    ghost var present := Present(k.phys[k.cr3][va / PAGE / WORDS]);
    r := k.MapPage(page, va, 7, false);
    more := if r == 0 && !present then [old(k.Pool())[|old(k.Pool())| - 1]] else [];
    if more != [] {
      MoreTables(old(k.phys), k.phys, k.spaces, more[0]);
      assert Entries(more, 3) == [Entry(more[0], 3)];
    }
    if r == 0 && present { KeptUntouched(old(k.phys), k.phys, k.spaces); }
    if r == 0 {
      TailKept(k, old(k.phys), old(k.endMapped), va / PAGE, Entry(page, 7), Entries(more, 3));
    }
  }

  lemma KeptUntouched(m0: Phys, m1: Phys, spaces: set<nat>)
    requires AllOk(m0, spaces) && AllOk(m1, spaces) && DataKept(m0, m1, spaces)
    ensures Untouched(m0, m1, spaces, [])
  {
  }

  lemma TailKept(k: Machine, m0: Phys, end0: nat, v: nat, e: word, ks: seq<word>)
    requires k.Core() && AllOk(m0, k.spaces) && v < HEAP_END / PAGE
    requires end0 % PAGE == 0 && KERNEL_START <= end0 && k.endMapped == end0 + |ks| * PAGE
    requires Mapping(m0, k.phys, k.spaces, k.cr3, v, [e], end0 / PAGE, ks)
    requires forall c, u :: c in k.spaces && end0 / PAGE <= u < PAGES ==> Lookup(m0, c, u) == None
    ensures k.TailFree(PAGES)
  {
    hide Lookup, SpaceOk, Injective;
    assert k.endMapped / PAGE == end0 / PAGE + |ks|;
  }

  /** Maps one more heap page: one turn of the growing loop. */
  method GrowOnePage(k: Machine, ps: Process, ghost m0: Phys, ghost pool0: seq<nat>, ghost end0: nat,
                     ghost lo: nat, ghost data: seq<nat>, ghost tabs: seq<nat>)
    returns (failed: bool, ghost data': seq<nat>, ghost tabs': seq<nat>)
    requires k.Valid() && AllOk(m0, k.spaces)
    requires k.cr3 == ps.directory && ps.pgbrk % PAGE == 0 && ps.pgbrk < HEAP_END
    requires Growing(m0, k.phys, k.spaces, k.cr3, pool0, k.Pool(), end0, k.endMapped, lo, data, tabs)
    requires ps.pgbrk / PAGE == lo + |data| && TablesCounted(k, lo, |data|, |tabs|)
    requires end0 + TablesFor(|data|) * PAGE < WINDOW
    modifies k`phys, k`top, k`endMapped, k.stack, ps`pgbrk
    ensures k.Valid()
    ensures Growing(m0, k.phys, k.spaces, k.cr3, pool0, k.Pool(), end0, k.endMapped, lo, data', tabs')
    ensures TablesCounted(k, lo, |data'|, |tabs'|)
    ensures ps.pgbrk == old(ps.pgbrk) + (if failed then 0 else PAGE)
    ensures |data'| == |data| + (if failed then 0 else 1)
    ensures failed <==> old(k.top) < RESERVE || Lookup(m0, k.cr3, lo + |data|).Some?
  {
    hide SpaceOk, Lookup, Spare, Entry, IsTable, IsMapped, Growing, PoolOk, Injective;
    NextPage(m0, k.phys, k.spaces, k.cr3, pool0, k.Pool(), end0, k.endMapped, lo, data, tabs);
    TablesBound(k, lo, |data|, |tabs|);
    failed := true;
    data', tabs' := data, tabs;
    if k.Available() < RESERVE {
      return;
    }
    var page := k.AllocFrame({});
    ghost var m1, pool1, end1 := k.phys, k.Pool(), k.endMapped;
    var r;
    ghost var more;
    r, more := MapHeapPage(k, page, ps.pgbrk);
    if r != 0 {
      k.FreeFrame(page);
      assert k.Pool() == old(k.Pool());
      return;
    }
    ps.pgbrk := ps.pgbrk + PAGE;
    failed := false;
    data', tabs' := data + [page], tabs + more;
    GrowingStep(m0, m1, k.phys, k.spaces, k.cr3, pool0, old(k.Pool()), k.Pool(), end0, end1, lo, data, tabs, page, more);
  }

  lemma FramesLeft(m0: Phys, m1: Phys, spaces: set<nat>, c: nat, pool0: seq<nat>, pool1: seq<nat>,
                   end0: nat, end1: nat, lo: nat, data: seq<nat>, tabs: seq<nat>)
    requires AllOk(m0, spaces) && AllOk(m1, spaces) && c in spaces
    requires Growing(m0, m1, spaces, c, pool0, pool1, end0, end1, lo, data, tabs)
    ensures |pool0| == |pool1| + |data| + |tabs|
  {
    hide SpaceOk, Lookup, Mapping, TablesGrew, IsTable;
    assert |multiset(pool0)| == |multiset(pool1)| + |multiset(data)| + |multiset(tabs)|;
  }

  lemma TablesTotal(k: Machine, lo: nat, n: nat, tabs: nat)
    requires k.Core() && lo + n <= PAGES && TablesCounted(k, lo, n, tabs)
    ensures tabs <= TablesFor(n)
  {
    if 0 < n {
      assert (lo + n - 1) / WORDS <= lo / WORDS + n / WORDS + 1;
    }
  }

  /** The growing loop. With enough frames it stops early only at a page that is already mapped. */
  method GrowPages(k: Machine, ps: Process, pagecnt: nat) returns (failed: bool, ghost data: seq<nat>, ghost tabs: seq<nat>)
    requires k.Valid() && k.cr3 == ps.directory && ps.pgbrk % PAGE == 0 && ps.pgbrk + pagecnt * PAGE <= HEAP_END
    requires k.endMapped + TablesFor(pagecnt) * PAGE < WINDOW
    modifies k`phys, k`top, k`endMapped, k.stack, ps`pgbrk
    ensures k.Valid() && ps.pgbrk == old(ps.pgbrk) + |data| * PAGE && |data| <= pagecnt
    ensures Growing(old(k.phys), k.phys, k.spaces, k.cr3, old(k.Pool()), k.Pool(), old(k.endMapped), k.endMapped, old(ps.pgbrk) / PAGE, data, tabs)
    ensures !failed <==> |data| == pagecnt
    ensures failed && pagecnt + TablesFor(pagecnt) + RESERVE <= old(k.top) ==>
              Lookup(old(k.phys), k.cr3, old(ps.pgbrk) / PAGE + |data|).Some?
  {
    hide SpaceOk, Lookup, Spare, Entry, IsTable, IsMapped, Growing, PoolOk, Injective;
    ghost var m0, pool0, end0, lo := k.phys, k.Pool(), k.endMapped, ps.pgbrk / PAGE;
    GrowingStart(k.phys, k.spaces, k.cr3, k.Pool(), k.endMapped, lo);
    data, tabs, failed := [], [], false;
    var i := 0;
    while i < pagecnt && !failed
      invariant 0 <= i <= pagecnt && k.Valid() && |data| == i && ps.pgbrk == old(ps.pgbrk) + i * PAGE
      invariant Growing(m0, k.phys, k.spaces, k.cr3, pool0, k.Pool(), end0, k.endMapped, lo, data, tabs)
      invariant TablesCounted(k, lo, |data|, |tabs|)
      invariant failed ==> i < pagecnt
      invariant failed && pagecnt + TablesFor(pagecnt) + RESERVE <= old(k.top) ==> Lookup(m0, k.cr3, lo + |data|).Some?
      decreases pagecnt - i, !failed
    {
      TablesMonotone(i, pagecnt);
      FramesLeft(m0, k.phys, k.spaces, k.cr3, pool0, k.Pool(), end0, k.endMapped, lo, data, tabs);
      TablesTotal(k, lo, i, |tabs|);
      failed, data, tabs := GrowOnePage(k, ps, m0, pool0, end0, lo, data, tabs);
      if !failed {
        i := i + 1;
      }
    }
  }

  lemma TablesMonotone(i: nat, n: nat)
    requires i <= n
    ensures TablesFor(i) <= TablesFor(n)
  {
  }

  /** Giving back the last heap page of an unfinished growth. */
  lemma GrowingUndone(m0: Phys, m1: Phys, m2: Phys, spaces: set<nat>, c: nat, pool0: seq<nat>, pool1: seq<nat>,
                      end0: nat, end1: nat, lo: nat, data: seq<nat>, tabs: seq<nat>)
    requires AllOk(m0, spaces) && AllOk(m1, spaces) && AllOk(m2, spaces) && c in spaces && data != []
    requires Growing(m0, m1, spaces, c, pool0, pool1, end0, end1, lo, data, tabs)
    requires Gone(m1, m2, spaces, c, lo + |data| - 1, 1)
    ensures Growing(m0, m2, spaces, c, pool0, pool1 + [data[|data| - 1]], end0, end1, lo, data[..|data| - 1], tabs)
  {
    hide SpaceOk, Lookup, Entry, IsTable, Mapping, Unmapping, Untouched, DataKept;
    KeptUntouched(m1, m2, spaces);
    StepUntouched(m0, m1, m2, spaces, tabs, []);
    assert tabs + [] == tabs;
    var n := |data| - 1;
    assert data == data[..n] + [data[n]];
    MappingUndone(m0, m1, m2, spaces, c, lo, Entries(data, 7), end0 / PAGE, Entries(tabs, 3));
    assert Entries(data, 7)[..n] == Entries(data[..n], 7);
    assert forall p :: p in data[..n] ==> p in data;
    assert multiset(data) == multiset(data[..n]) + multiset{data[n]};
    SameTablesGrew(m0, m1, m2, spaces, tabs);
  }

  lemma SameTablesGrew(m0: Phys, m1: Phys, m2: Phys, spaces: set<nat>, tabs: seq<nat>)
    requires AllOk(m0, spaces) && AllOk(m1, spaces) && AllOk(m2, spaces) && TablesGrew(m0, m1, spaces, tabs)
    requires forall f :: IsTable(m2, spaces, f) == IsTable(m1, spaces, f)
    ensures TablesGrew(m0, m2, spaces, tabs)
  {
    hide IsTable, SpaceOk;
  }

  /** Every page a growth has mapped can be written by user code. */
  lemma GrownWritable(m0: Phys, m1: Phys, spaces: set<nat>, c: nat, pool0: seq<nat>, pool1: seq<nat>,
                      end0: nat, end1: nat, lo: nat, data: seq<nat>, tabs: seq<nat>)
    requires AllOk(m0, spaces) && AllOk(m1, spaces) && c in spaces
    requires Growing(m0, m1, spaces, c, pool0, pool1, end0, end1, lo, data, tabs)
    ensures forall v :: lo <= v < lo + |data| ==> v < KERNEL_PAGES && Lookup(m1, c, v).Some? && UserWritable(m1, c, v)
  {
    hide SpaceOk, Lookup, Entry, IsTable, TablesGrew, Untouched, UserWritable;
    forall v | lo <= v < lo + |data| ensures v < KERNEL_PAGES && Lookup(m1, c, v).Some? && UserWritable(m1, c, v) {
      assert Entries(data, 7)[v - lo] == Entry(data[v - lo], 7);
      assert Lookup(m1, c, v) == Some(Entries(data, 7)[v - lo]);
      MappedWritable(m1, spaces, c, v, data[v - lo], 7);
    }
  }

  /** The heap page last mapped by a growth holds the frame it was given. */
  lemma LastHeapPage(m0: Phys, m1: Phys, spaces: set<nat>, c: nat, pool0: seq<nat>, pool1: seq<nat>,
                     end0: nat, end1: nat, lo: nat, data: seq<nat>, tabs: seq<nat>)
    requires AllOk(m0, spaces) && AllOk(m1, spaces) && c in spaces && data != []
    requires Growing(m0, m1, spaces, c, pool0, pool1, end0, end1, lo, data, tabs)
    ensures HeapPage(m1, spaces, c, lo + |data| - 1)
    ensures FrameAt(m1, c, lo + |data| - 1) == data[|data| - 1]
    ensures lo + |data| <= HEAP_END / PAGE
  {
    hide SpaceOk, Lookup, Entry, IsTable;
    var n := |data| - 1;
    EntryParts(data[n], 7);
    assert Lookup(m1, c, lo + n) == Some(Entries(data, 7)[n]);
    assert data[n] in data;
  }

  /** Rolls back the pages a failed growth managed to map. */
  method RollBack(k: Machine, ps: Process, oldpgbrk: nat, ghost m0: Phys, ghost pool0: seq<nat>, ghost end0: nat,
                  ghost data: seq<nat>, ghost tabs: seq<nat>)
    requires k.Valid() && AllOk(m0, k.spaces) && k.cr3 == ps.directory && oldpgbrk % PAGE == 0
    requires ps.pgbrk == oldpgbrk + |data| * PAGE
    requires Growing(m0, k.phys, k.spaces, k.cr3, pool0, k.Pool(), end0, k.endMapped, oldpgbrk / PAGE, data, tabs)
    modifies k`phys, k`top, k.stack, ps`pgbrk
    ensures k.Valid() && ps.pgbrk == oldpgbrk
    ensures Growing(m0, k.phys, k.spaces, k.cr3, pool0, k.Pool(), end0, k.endMapped, oldpgbrk / PAGE, [], tabs)
  {
    hide SpaceOk, Lookup, Spare, Entry, IsTable, IsMapped, Growing, PoolOk, Injective, Gone;
    ghost var left, lo := data, oldpgbrk / PAGE;
    while ps.pgbrk > oldpgbrk
      invariant k.Valid() && ps.pgbrk == oldpgbrk + |left| * PAGE
      invariant Growing(m0, k.phys, k.spaces, k.cr3, pool0, k.Pool(), end0, k.endMapped, lo, left, tabs)
      decreases |left|
    {
      ghost var m1, pool1 := k.phys, k.Pool();
      LastHeapPage(m0, m1, k.spaces, k.cr3, pool0, pool1, end0, k.endMapped, lo, left, tabs);
      ps.pgbrk := ps.pgbrk - PAGE;
      assert ps.pgbrk / PAGE == lo + |left| - 1;
      var _ := k.ReleasePage(ps.pgbrk, {});
      GrowingUndone(m0, m1, k.phys, k.spaces, k.cr3, pool0, pool1, end0, k.endMapped, lo, left, tabs);
      k.GoneParts(m1, ps.pgbrk / PAGE, 1);
      UnmapKeepsTail(k, m1, ps.pgbrk / PAGE, 1);
      left := left[..|left| - 1];
    }
    assert left == [];
  }

  lemma UnmapKeepsTail(k: Machine, m1: Phys, lo: nat, n: nat)
    requires k.Core() && AllOk(m1, k.spaces) && Unmapping(m1, k.phys, k.spaces, k.cr3, lo, n)
    requires forall c, v :: c in k.spaces && k.endMapped / PAGE <= v < PAGES ==> Lookup(m1, c, v) == None
    ensures k.TailFree(PAGES)
  {
    hide Lookup, SpaceOk, Injective;
  }

  lemma FramesPrepend(m: Phys, c: nat, lo: nat, n: nat)
    requires Shaped(m) && c < FRAMES && 0 < lo && lo + n <= PAGES
    requires forall v :: lo - 1 <= v < lo + n ==> Lookup(m, c, v).Some?
    ensures multiset(FramesAt(m, c, lo - 1, n + 1)) == multiset(FramesAt(m, c, lo, n)) + multiset{FrameAt(m, c, lo - 1)}
  {
    assert FramesAt(m, c, lo - 1, n + 1) == [FrameAt(m, c, lo - 1)] + FramesAt(m, c, lo, n);
  }

  /** Exactly the `n` mapped pages from `lo` on have been unmapped and exactly their frames given back. */
  ghost predicate Shrinking(m0: Phys, m: Phys, spaces: set<nat>, c: nat, pool0: seq<nat>, pool: seq<nat>, lo: nat, n: nat)
    requires AllOk(m0, spaces) && AllOk(m, spaces) && c in spaces && lo + n <= PAGES
  {
    && (forall v :: lo <= v < lo + n ==> Lookup(m0, c, v).Some?)
    && Unmapping(m0, m, spaces, c, lo, n)
    && multiset(pool) == multiset(pool0) + multiset(FramesAt(m0, c, lo, n))
    && (forall f :: IsTable(m, spaces, f) == IsTable(m0, spaces, f))
    && DataKept(m0, m, spaces)
  }

  lemma ReturnedPrepend(m: Phys, c: nat, lo: nat, n: nat, pool0: seq<nat>, pool1: seq<nat>)
    requires Shaped(m) && c < FRAMES && 0 < lo && lo + n <= PAGES
    requires Lookup(m, c, lo - 1).Some? && forall v :: lo <= v < lo + n ==> Lookup(m, c, v).Some?
    requires multiset(pool1) == multiset(pool0) + multiset(FramesAt(m, c, lo, n))
    ensures forall v :: lo - 1 <= v < lo - 1 + (n + 1) ==> Lookup(m, c, v).Some?
    ensures multiset(pool1 + [FrameAt(m, c, lo - 1)]) == multiset(pool0) + multiset(FramesAt(m, c, lo - 1, n + 1))
  {
    hide Lookup, FramesAt, FrameAt;
    FramesPrepend(m, c, lo, n);
  }

  lemma GoneKeeps(m0: Phys, m1: Phys, m2: Phys, spaces: set<nat>, c: nat, v: nat)
    requires AllOk(m0, spaces) && AllOk(m1, spaces) && AllOk(m2, spaces) && Gone(m1, m2, spaces, c, v, 1)
    requires DataKept(m0, m1, spaces) && forall f :: IsTable(m1, spaces, f) == IsTable(m0, spaces, f)
    ensures Unmapping(m1, m2, spaces, c, v, 1)
    ensures DataKept(m0, m2, spaces) && forall f :: IsTable(m2, spaces, f) == IsTable(m0, spaces, f)
  {
    hide Unmapping, SpaceOk, IsTable, DataKept;
    DataKeptTwice(m0, m1, m2, spaces);
  }

  lemma ShrinkingStep(m0: Phys, m1: Phys, m2: Phys, spaces: set<nat>, c: nat, pool0: seq<nat>, pool1: seq<nat>, lo: nat, n: nat, p: nat)
    requires AllOk(m0, spaces) && AllOk(m1, spaces) && AllOk(m2, spaces) && c in spaces && lo + n <= PAGES && 0 < lo
    requires Lookup(m0, c, lo - 1).Some? && p == FrameAt(m0, c, lo - 1)
    requires Shrinking(m0, m1, spaces, c, pool0, pool1, lo, n) && Gone(m1, m2, spaces, c, lo - 1, 1)
    ensures Shrinking(m0, m2, spaces, c, pool0, pool1 + [p], lo - 1, n + 1)
  {
    hide Lookup, SpaceOk, IsTable, Unmapping, DataKept, FramesAt, FrameAt, Gone;
    GoneKeeps(m0, m1, m2, spaces, c, lo - 1);
    UnmappingPrepend(m0, m1, m2, spaces, c, lo, n);
    ReturnedPrepend(m0, c, lo, n, pool0, pool1);
  }

  lemma ShrinkingPage(m0: Phys, m1: Phys, spaces: set<nat>, c: nat, pool0: seq<nat>, pool1: seq<nat>, lo: nat, n: nat)
    requires AllOk(m0, spaces) && AllOk(m1, spaces) && c in spaces && lo + n <= PAGES && 0 < lo
    requires Shrinking(m0, m1, spaces, c, pool0, pool1, lo, n) && HeapPage(m0, spaces, c, lo - 1)
    ensures Lookup(m0, c, lo - 1).Some? && Lookup(m1, c, lo - 1) == Lookup(m0, c, lo - 1) && HeapPage(m1, spaces, c, lo - 1)
  {
    hide Lookup, SpaceOk, IsTable;
  }

  /** Frames have only been put on the stack, and no page directory has been written. */
  ghost predicate PushedOnly(m0: Phys, m: Phys, spaces: set<nat>, pool0: seq<nat>, pool: seq<nat>)
    requires AllOk(m0, spaces) && AllOk(m, spaces)
  {
    pool0 <= pool && forall c :: c in spaces ==> m[c] == m0[c]
  }

  lemma PushedNothing(m: Phys, spaces: set<nat>, pool: seq<nat>)
    requires AllOk(m, spaces)
    ensures PushedOnly(m, m, spaces, pool, pool)
  {
  }

  lemma PushedMore(m0: Phys, m1: Phys, m2: Phys, spaces: set<nat>, c: nat, v: nat, pool0: seq<nat>, pool1: seq<nat>, pool2: seq<nat>)
    requires AllOk(m0, spaces) && AllOk(m1, spaces) && AllOk(m2, spaces)
    requires PushedOnly(m0, m1, spaces, pool0, pool1) && Gone(m1, m2, spaces, c, v, 1) && pool1 <= pool2
    ensures PushedOnly(m0, m2, spaces, pool0, pool2)
  {
  }

  /** Unmaps the `pagecnt` pages below the current end, from the top down. */
  method ShrinkPages(k: Machine, ps: Process, pagecnt: nat, ghost x: set<nat>)
    requires k.ValidBut(x) && k.cr3 == ps.directory && ps.pgbrk % PAGE == 0 && pagecnt * PAGE <= ps.pgbrk <= HEAP_END
    requires HeapMapped(k.phys, k.spaces, k.cr3, ps.pgbrk / PAGE - pagecnt, ps.pgbrk / PAGE)
    modifies k`phys, k`top, k.stack, ps`pgbrk
    ensures k.ValidBut(x) && ps.pgbrk == old(ps.pgbrk) - pagecnt * PAGE
    ensures Shrinking(old(k.phys), k.phys, k.spaces, k.cr3, old(k.Pool()), k.Pool(), ps.pgbrk / PAGE, pagecnt)
    ensures PushedOnly(old(k.phys), k.phys, k.spaces, old(k.Pool()), k.Pool())
  {
    hide SpaceOk, Lookup, Spare, IsTable, IsMapped, PoolOk, Injective, Shrinking, Gone, PushedOnly;
    PushedNothing(k.phys, k.spaces, k.Pool());
    var i := 0;
    ghost var m0, pool0, hi := k.phys, k.Pool(), ps.pgbrk / PAGE;
    ShrinkingStart(m0, k.spaces, k.cr3, pool0, hi);
    while i < pagecnt
      invariant 0 <= i <= pagecnt && k.ValidBut(x) && ps.pgbrk == old(ps.pgbrk) - i * PAGE
      invariant Shrinking(m0, k.phys, k.spaces, k.cr3, pool0, k.Pool(), hi - i, i)
      invariant PushedOnly(m0, k.phys, k.spaces, pool0, k.Pool())
    {
      var page := ps.pgbrk - PAGE;
      ghost var m1, pool1 := k.phys, k.Pool();
      assert page / PAGE == hi - i - 1;
      assert HeapPage(m0, k.spaces, k.cr3, hi - i - 1);
      ShrinkingPage(m0, m1, k.spaces, k.cr3, pool0, pool1, hi - i, i);
      var _ := k.ReleasePage(page, x);
      PushedMore(m0, m1, k.phys, k.spaces, k.cr3, hi - i - 1, pool0, pool1, k.Pool());
      k.GoneParts(m1, hi - i - 1, 1);
      UnmapKeepsTail(k, m1, hi - i - 1, 1);
      ShrinkingStep(m0, m1, k.phys, k.spaces, k.cr3, pool0, pool1, hi - i, i, FrameAt(m0, k.cr3, hi - i - 1));
      ps.pgbrk := ps.pgbrk - PAGE;
      i := i + 1;
    }
  }

  lemma ShrinkingStart(m: Phys, spaces: set<nat>, c: nat, pool: seq<nat>, hi: nat)
    requires AllOk(m, spaces) && c in spaces && hi <= PAGES
    ensures Shrinking(m, m, spaces, c, pool, pool, hi, 0)
  {
    hide SpaceOk, Lookup, IsTable;
  }

  // ---------- the system call ----------

  /** A request the call looks at: not a query, not below the loader break, not in kernel or stack space. */
  predicate Considered(addr: nat, minbrk: nat) {
    addr != 0 && minbrk <= addr < KERNEL_START && PageUp(addr) <= HEAP_END
  }

  /** Kernel address space for the page tables a growth may need; the source panics without it. */
  predicate BreakRoom(k: Machine, addr: nat, ps: Process)
    reads k`endMapped, ps
  {
    Considered(addr, if ps.brkOffset <= ps.pgbrk then ps.pgbrk - ps.brkOffset else 0) && ps.pgbrk < PageUp(addr) ==>
      k.endMapped + TablesFor((PageUp(addr) - ps.pgbrk) / PAGE) * PAGE < WINDOW
  }

  /** Frames for the pages, for the tables they may need, and for the reserve. */
  predicate EnoughFrames(available: nat, pagecnt: nat) {
    pagecnt + TablesFor(pagecnt) + RESERVE <= available
  }

  lemma WholePages(a: nat, b: nat)
    requires a <= b && a % PAGE == 0 && b % PAGE == 0
    ensures (b - a) / PAGE * PAGE == b - a && b / PAGE == a / PAGE + (b - a) / PAGE && (b - a) % PAGE == 0
  {
  }

  /** The test for enough frames and the growing loop. */
  method TryGrow(k: Machine, ps: Process, pagecnt: nat) returns (failed: bool, ghost data: seq<nat>, ghost tabs: seq<nat>)
    requires k.Valid() && k.cr3 == ps.directory && ps.pgbrk % PAGE == 0 && ps.pgbrk + pagecnt * PAGE <= HEAP_END
    requires k.endMapped + TablesFor(pagecnt) * PAGE < WINDOW && 0 < pagecnt
    modifies k`phys, k`top, k`endMapped, k.stack, ps`pgbrk
    ensures k.Valid() && ps.pgbrk == old(ps.pgbrk) + |data| * PAGE && (!failed <==> |data| == pagecnt)
    ensures Growing(old(k.phys), k.phys, k.spaces, k.cr3, old(k.Pool()), k.Pool(), old(k.endMapped), k.endMapped, old(ps.pgbrk) / PAGE, data, tabs)
    ensures old(k.top) < pagecnt + pagecnt / 1024 + 2 ==> failed && k.phys == old(k.phys) && k.Pool() == old(k.Pool()) && data == []
    ensures failed && EnoughFrames(old(k.top), pagecnt) ==>
              exists v :: old(ps.pgbrk) / PAGE <= v < old(ps.pgbrk) / PAGE + pagecnt && Lookup(old(k.phys), k.cr3, v).Some?
  {
    hide SpaceOk, Lookup, Spare, IsTable, IsMapped, PoolOk, Injective, Growing;
    failed, data, tabs := true, [], [];
    var ptpages := pagecnt / 1024 + 2;
    if pagecnt + ptpages > k.Available() {
      GrowingStart(k.phys, k.spaces, k.cr3, k.Pool(), k.endMapped, ps.pgbrk / PAGE);
    } else {
      failed, data, tabs := GrowPages(k, ps, pagecnt);
    }
  }

  /** All pages, or none; heap pages stay mapped. */
  method GrowOrUndo(k: Machine, ps: Process, pagecnt: nat, ghost base: nat)
    returns (failed: bool, ghost data: seq<nat>, ghost tabs: seq<nat>)
    requires k.Valid() && k.cr3 == ps.directory && ps.pgbrk % PAGE == 0 && ps.pgbrk + pagecnt * PAGE <= HEAP_END
    requires k.endMapped + TablesFor(pagecnt) * PAGE < WINDOW && 0 < pagecnt
    requires HeapMapped(k.phys, k.spaces, k.cr3, base, ps.pgbrk / PAGE)
    modifies k`phys, k`top, k`endMapped, k.stack, ps`pgbrk
    ensures k.Valid() && |data| == (if failed then 0 else pagecnt) && ps.pgbrk == old(ps.pgbrk) + |data| * PAGE
    ensures Growing(old(k.phys), k.phys, k.spaces, k.cr3, old(k.Pool()), k.Pool(), old(k.endMapped), k.endMapped, old(ps.pgbrk) / PAGE, data, tabs)
    ensures HeapMapped(k.phys, k.spaces, k.cr3, base, ps.pgbrk / PAGE)
    ensures old(k.top) < pagecnt + pagecnt / 1024 + 2 ==> failed
    ensures failed && EnoughFrames(old(k.top), pagecnt) ==>
              exists v :: old(ps.pgbrk) / PAGE <= v < old(ps.pgbrk) / PAGE + pagecnt && Lookup(old(k.phys), k.cr3, v).Some?
  {
    hide SpaceOk, Lookup, Spare, IsTable, IsMapped, PoolOk, Injective, Growing, HeapMapped;
    var oldpgbrk := ps.pgbrk;
    ghost var m0, pool0, end0 := k.phys, k.Pool(), k.endMapped;
    failed, data, tabs := TryGrow(k, ps, pagecnt);
    if failed {
      RollBack(k, ps, oldpgbrk, m0, pool0, end0, data, tabs);
      data := [];
    }
    HeapGrown(m0, k.phys, k.spaces, k.cr3, pool0, k.Pool(), end0, k.endMapped, base, oldpgbrk / PAGE, data, tabs);
    assert ps.pgbrk / PAGE == oldpgbrk / PAGE + |data|;
  }

  /** The growing branch: all pages, or none and everything as before. */
  method GrowBreak(k: Machine, ps: Process, wantbrk: word) returns (retval: word, ghost data: seq<nat>, ghost tabs: seq<nat>)
    requires k.Valid() && HeapOk(k, ps) && k.cr3 == ps.directory
    requires ps.pgbrk < PageUp(wantbrk) <= HEAP_END && BreakRoom(k, wantbrk, ps) && ps.pgbrk - ps.brkOffset <= wantbrk && wantbrk != 0
    modifies k`phys, k`top, k`endMapped, k.stack, ps
    ensures k.Valid() && HeapOk(k, ps) && ps.pgbrk - ps.brkOffset == old(ps.pgbrk - ps.brkOffset)
    ensures Growing(old(k.phys), k.phys, k.spaces, k.cr3, old(k.Pool()), k.Pool(), old(k.endMapped), k.endMapped, old(ps.pgbrk) / PAGE, data, tabs)
    ensures if |data| == (PageUp(wantbrk) - old(ps.pgbrk)) / PAGE then
              retval == ps.brk == wantbrk && ps.pgbrk == PageUp(wantbrk)
            else
              data == [] && retval == ps.brk == old(ps.brk) && ps.pgbrk == old(ps.pgbrk) && ps.brkOffset == old(ps.brkOffset)
    ensures var n := (PageUp(wantbrk) - old(ps.pgbrk)) / PAGE; old(k.top) < n + n / 1024 + 2 ==> data == []
    ensures EnoughFrames(old(k.top), (PageUp(wantbrk) - old(ps.pgbrk)) / PAGE)
              && (forall v :: old(ps.pgbrk) / PAGE <= v < PageUp(wantbrk) / PAGE ==> Lookup(old(k.phys), k.cr3, v) == None) ==>
            retval == wantbrk && data != []
  {
    hide SpaceOk, Lookup, Spare, IsTable, IsMapped, PoolOk, Injective, Growing, HeapMapped, PageUp, EnoughFrames;
    retval := ps.brk;
    var realbrk := PageUp(wantbrk);
    WholePages(ps.pgbrk, realbrk);
    WholePages(ps.pgbrk - ps.brkOffset, ps.pgbrk);
    var pagecnt := (realbrk - ps.pgbrk) / PAGE;
    var oldpgbrk := ps.pgbrk;
    var failed;
    ghost var base := (ps.pgbrk - ps.brkOffset) / PAGE;
    failed, data, tabs := GrowOrUndo(k, ps, pagecnt, base);
    if !failed {
      ps.brkOffset := ps.brkOffset + (realbrk - oldpgbrk);
      ps.brk := wantbrk;
      retval := wantbrk;
    }
  }

  /** Old heap pages keep their frames, and frames of the stack that became tables were none of theirs. */
  lemma HeapGrown(m0: Phys, m1: Phys, spaces: set<nat>, c: nat, pool0: seq<nat>, pool1: seq<nat>,
                  end0: nat, end1: nat, base: nat, lo: nat, data: seq<nat>, tabs: seq<nat>)
    requires AllOk(m0, spaces) && AllOk(m1, spaces) && c in spaces && PoolOk(m0, spaces, pool0, {})
    requires Growing(m0, m1, spaces, c, pool0, pool1, end0, end1, lo, data, tabs)
    requires HeapMapped(m0, spaces, c, base, lo)
    ensures lo + |data| <= PAGES && HeapMapped(m1, spaces, c, base, lo + |data|)
  {
    hide SpaceOk, Lookup, Entry, IsTable, TablesGrew;
    forall v | base <= v < lo + |data| ensures HeapPage(m1, spaces, c, v) {
      if v < lo {
        assert HeapPage(m0, spaces, c, v);
        OldHeapPage(m0, m1, spaces, c, pool0, pool1, end0, end1, lo, data, tabs, v);
      } else {
        EntryParts(data[v - lo], 7);
        assert Lookup(m1, c, v) == Some(Entries(data, 7)[v - lo]);
        assert data[v - lo] in data;
      }
    }
  }

  lemma OldHeapPage(m0: Phys, m1: Phys, spaces: set<nat>, c: nat, pool0: seq<nat>, pool1: seq<nat>,
                    end0: nat, end1: nat, lo: nat, data: seq<nat>, tabs: seq<nat>, v: nat)
    requires AllOk(m0, spaces) && AllOk(m1, spaces) && c in spaces && PoolOk(m0, spaces, pool0, {})
    requires Growing(m0, m1, spaces, c, pool0, pool1, end0, end1, lo, data, tabs)
    requires v < lo && HeapPage(m0, spaces, c, v)
    ensures HeapPage(m1, spaces, c, v)
  {
    hide SpaceOk, Lookup, Entry, IsTable;
    var f := FrameOf(Lookup(m0, c, v).value);
    assert Uses(m0, c, v, f);
    forall t | t in tabs ensures t / PAGE != f {
      assert t in multiset(pool0);
      var j :| 0 <= j < |pool0| && pool0[j] == t;
      assert Spare(m0, spaces, {}, t / PAGE);
    }
  }

  lemma HeapMappedPart(m: Phys, spaces: set<nat>, c: nat, lo: nat, mid: nat, hi: nat)
    requires AllOk(m, spaces) && c in spaces && lo <= mid <= hi <= PAGES && HeapMapped(m, spaces, c, lo, hi)
    ensures HeapMapped(m, spaces, c, mid, hi)
  {
  }

  lemma HeapShrunk(m0: Phys, m1: Phys, spaces: set<nat>, c: nat, pool0: seq<nat>, pool1: seq<nat>, base: nat, lo: nat, n: nat)
    requires AllOk(m0, spaces) && AllOk(m1, spaces) && c in spaces && lo + n <= PAGES
    requires HeapMapped(m0, spaces, c, base, lo + n) && Shrinking(m0, m1, spaces, c, pool0, pool1, lo, n)
    ensures HeapMapped(m1, spaces, c, base, lo)
  {
    hide SpaceOk, Lookup, IsTable;
    forall v | base <= v < lo ensures HeapPage(m1, spaces, c, v) {
      assert HeapPage(m0, spaces, c, v);
    }
  }

  /** The shrinking branch. */
  method ShrinkBreak(k: Machine, ps: Process, wantbrk: word, ghost x: set<nat>) returns (retval: word)
    requires k.ValidBut(x) && HeapOk(k, ps) && k.cr3 == ps.directory
    requires PageUp(wantbrk) < ps.pgbrk && ps.pgbrk - ps.brkOffset <= wantbrk
    modifies k`phys, k`top, k.stack, ps
    ensures k.ValidBut(x) && HeapOk(k, ps) && ps.pgbrk - ps.brkOffset == old(ps.pgbrk - ps.brkOffset)
    ensures retval == ps.brk == wantbrk && ps.pgbrk == PageUp(wantbrk)
    ensures Shrinking(old(k.phys), k.phys, k.spaces, k.cr3, old(k.Pool()), k.Pool(), ps.pgbrk / PAGE, (old(ps.pgbrk) - ps.pgbrk) / PAGE)
    ensures PushedOnly(old(k.phys), k.phys, k.spaces, old(k.Pool()), k.Pool())
  {
    hide SpaceOk, Lookup, Spare, IsTable, IsMapped, PoolOk, Injective, Shrinking, HeapMapped, PageUp;
    var realbrk := PageUp(wantbrk);
    var pagecnt := (ps.pgbrk - realbrk) / PAGE;
    var oldpgbrk := ps.pgbrk;
    ghost var base := (ps.pgbrk - ps.brkOffset) / PAGE;
    ghost var m0, pool0 := k.phys, k.Pool();
    PageUpLeast(wantbrk, ps.pgbrk - ps.brkOffset);
    WholePages(realbrk, ps.pgbrk);
    WholePages(ps.pgbrk - ps.brkOffset, ps.pgbrk);
    WholePages(ps.pgbrk - ps.brkOffset, realbrk);
    HeapMappedPart(m0, k.spaces, k.cr3, base, realbrk / PAGE, ps.pgbrk / PAGE);
    ShrinkPages(k, ps, pagecnt, x);
    HeapShrunk(m0, k.phys, k.spaces, k.cr3, pool0, k.Pool(), base, realbrk / PAGE, pagecnt);
    ps.brkOffset := ps.brkOffset - (oldpgbrk - realbrk);
    ps.brk := wantbrk;
    retval := wantbrk;
  }

  lemma PageUpLeast(brk: nat, p: nat)
    requires p % PAGE == 0 && p <= brk
    ensures p <= PageUp(brk)
  {
  }

  /**
   The whole call. A request outside the heap's range changes nothing; one within the current last page only
   moves the break; growing is all or nothing; shrinking unmaps and returns exactly the pages above the break.
   */
  method SetBrk(k: Machine, addr: word, ps: Process, ghost x: set<nat>) returns (retval: word, ghost data: seq<nat>, ghost tabs: seq<nat>)
    requires k.ValidBut(x) && HeapOk(k, ps) && BreakRoom(k, addr, ps)
    requires x != {} ==> PageUp(addr) <= ps.pgbrk
    modifies k`phys, k`top, k`endMapped, k`cr3, k.stack, ps
    ensures k.ValidBut(x) && HeapOk(k, ps) && k.cr3 == old(k.cr3)
    ensures ps.pgbrk - ps.brkOffset == old(ps.pgbrk - ps.brkOffset) && retval == ps.brk
    ensures !Considered(addr, old(ps.pgbrk - ps.brkOffset)) ==> ps.brk == old(ps.brk)
    ensures !Considered(addr, old(ps.pgbrk - ps.brkOffset)) || PageUp(addr) == old(ps.pgbrk) ==>
              ps.pgbrk == old(ps.pgbrk) && k.phys == old(k.phys) && k.Pool() == old(k.Pool()) && k.endMapped == old(k.endMapped)
    ensures Considered(addr, old(ps.pgbrk - ps.brkOffset)) && PageUp(addr) <= old(ps.pgbrk) ==> ps.brk == addr && ps.pgbrk == PageUp(addr)
    ensures Considered(addr, old(ps.pgbrk - ps.brkOffset)) && PageUp(addr) < old(ps.pgbrk) ==>
              Shrinking(old(k.phys), k.phys, k.spaces, ps.directory, old(k.Pool()), k.Pool(), ps.pgbrk / PAGE, (old(ps.pgbrk) - ps.pgbrk) / PAGE)
    ensures PageUp(addr) <= old(ps.pgbrk) ==>
              k.endMapped == old(k.endMapped) && PushedOnly(old(k.phys), k.phys, k.spaces, old(k.Pool()), k.Pool())
    ensures Considered(addr, old(ps.pgbrk - ps.brkOffset)) && old(ps.pgbrk) < PageUp(addr) ==>
              && Growing(old(k.phys), k.phys, k.spaces, ps.directory, old(k.Pool()), k.Pool(), old(k.endMapped), k.endMapped,
                         old(ps.pgbrk) / PAGE, data, tabs)
              && (if |data| == (PageUp(addr) - old(ps.pgbrk)) / PAGE then ps.brk == addr && ps.pgbrk == PageUp(addr)
                  else data == [] && ps.brk == old(ps.brk) && ps.pgbrk == old(ps.pgbrk))
              && (var n := (PageUp(addr) - old(ps.pgbrk)) / PAGE; old(k.top) < n + n / 1024 + 2 ==> data == [])
              && (EnoughFrames(old(k.top), (PageUp(addr) - old(ps.pgbrk)) / PAGE)
                  && (forall v :: old(ps.pgbrk) / PAGE <= v < PageUp(addr) / PAGE ==> Lookup(old(k.phys), ps.directory, v) == None) ==>
                    ps.brk == addr)
  {
    hide SpaceOk, Lookup, Spare, IsTable, IsMapped, PoolOk, Injective, Growing, Shrinking, HeapMapped, PageUp, PushedOnly;
    PushedNothing(k.phys, k.spaces, k.Pool());
    data, tabs := [], [];
    retval := ps.brk;
    if addr == 0 {
      return;
    }
    var minbrk := ps.pgbrk - ps.brkOffset;
    if addr < minbrk || addr >= KERNEL_START {
      return;
    }
    var realbrk := PageUp(addr);
    assert realbrk >= addr; // rounding up cannot overflow below kernel space
    if realbrk > HEAP_END {
      return;
    }
    if ps.pgbrk == realbrk {
      ps.brk := addr;
      retval := addr;
      return;
    }
    var oldcr3 := k.cr3;
    k.cr3 := ps.directory;
    if ps.pgbrk < realbrk {
      retval, data, tabs := GrowBreak(k, ps, addr);
    } else {
      retval := ShrinkBreak(k, ps, addr, x);
    }
    k.cr3 := oldcr3;
  }

  // ---------- sched_setbrk, in numbers ----------

  lemma PageUpIs(addr: nat, pg: nat, n: int)
    requires pg % 4096 == 0 && pg + (n - 1) * 4096 < addr <= pg + n * 4096
    ensures PageUp(addr) == pg + n * 4096
  {
    NextPageIs(addr, PageUp(addr), pg + n * 4096);
  }

  lemma NextPageIs(addr: nat, a: nat, b: nat)
    requires a % 4096 == 0 && b % 4096 == 0 && addr <= a < addr + 4096 && addr <= b < addr + 4096
    ensures a == b
  {
    var i, j := a / 4096, b / 4096;
    assert a == 4096 * i && b == 4096 * j;
    assert -4096 < 4096 * i - 4096 * j < 4096;
  }

  /**
   The system call, for a request that ends `n` pages above the heap. It succeeds whenever the pages are free and
   frames suffice for them, for the tables they may need and for the reserve; then exactly these pages are new, and
   user code may write them. Otherwise it fails and no user page changes.
   */
  method GrowBy(k: Machine, addr: word, ps: Process, ghost n: nat) returns (retval: word)
    requires k.Valid() && HeapOk(k, ps) && 1 <= n
    requires ps.pgbrk + (n - 1) * 4096 < addr <= ps.pgbrk + n * 4096 <= 0xBFC0_0000
    requires k.endMapped + (n / 1024 + 2) * 4096 < 0xFFC0_0000
    modifies k`phys, k`top, k`endMapped, k`cr3, k.stack, ps
    ensures k.Valid() && HeapOk(k, ps) && k.cr3 == old(k.cr3) && retval == ps.brk && old(ps.pgbrk) / 4096 + n <= PAGES
    ensures n + n / 1024 + 10 <= old(k.top)
            && (forall v :: old(ps.pgbrk) / 4096 <= v < old(ps.pgbrk) / 4096 + n ==> Lookup(old(k.phys), ps.directory, v) == None) ==>
              retval == addr
    ensures old(k.top) < n + n / 1024 + 2
            || (exists v :: old(ps.pgbrk) / 4096 <= v < old(ps.pgbrk) / 4096 + n && Lookup(old(k.phys), ps.directory, v) != None) ==>
              retval == old(ps.brk)
    ensures retval == addr || retval == old(ps.brk)
    ensures retval == addr ==> ps.pgbrk == old(ps.pgbrk) + n * 4096
    ensures retval == addr ==> forall v :: old(ps.pgbrk) / 4096 <= v < old(ps.pgbrk) / 4096 + n ==>
              Lookup(k.phys, ps.directory, v) != None && UserWritable(k.phys, ps.directory, v)
    ensures retval != addr ==> ps.pgbrk == old(ps.pgbrk)
    ensures forall c, v :: c in k.spaces && 0 <= v < 0xC0000 ==>
              || (retval == addr && c == ps.directory && old(ps.pgbrk) / 4096 <= v < old(ps.pgbrk) / 4096 + n)
              || Lookup(k.phys, c, v) == Lookup(old(k.phys), c, v)
  {
    hide SpaceOk, Lookup, Spare, IsTable, IsMapped, PoolOk, Injective, HeapMapped, PageUp, PushedOnly, Growing, Shrinking, UserWritable;
    PageUpIs(addr, ps.pgbrk, n);
    assert (PageUp(addr) - ps.pgbrk) / 4096 == n;
    ghost var m0, pool0, end0, lo := k.phys, k.Pool(), k.endMapped, ps.pgbrk / 4096;
    ghost var data, tabs;
    retval, data, tabs := SetBrk(k, addr, ps, {});
    GrownPages(m0, k.phys, k.spaces, ps.directory, pool0, k.Pool(), end0, k.endMapped, lo, data, tabs);
  }

  lemma GrownPages(m0: Phys, m1: Phys, spaces: set<nat>, c: nat, pool0: seq<nat>, pool1: seq<nat>,
                   end0: nat, end1: nat, lo: nat, data: seq<nat>, tabs: seq<nat>)
    requires AllOk(m0, spaces) && AllOk(m1, spaces) && c in spaces
    requires Growing(m0, m1, spaces, c, pool0, pool1, end0, end1, lo, data, tabs)
    ensures forall v :: lo <= v < lo + |data| ==>
              v < 0xC0000 && Lookup(m0, c, v) == None && Lookup(m1, c, v) != None && UserWritable(m1, c, v)
    ensures forall d, v :: d in spaces && 0 <= v < 0xC0000 && !(d == c && lo <= v < lo + |data|) ==> Lookup(m1, d, v) == Lookup(m0, d, v)
  {
    GrownWritable(m0, m1, spaces, c, pool0, pool1, end0, end1, lo, data, tabs);
    hide SpaceOk, Lookup, Entry, IsTable, TablesGrew, Untouched, UserWritable;
  }

  /** For a request that ends `n` pages below the end of the heap: it succeeds, and exactly these pages are given back. */
  method ShrinkBy(k: Machine, addr: word, ps: Process, ghost n: nat) returns (retval: word)
    requires k.Valid() && HeapOk(k, ps) && addr != 0 && ps.pgbrk - ps.brkOffset <= addr
    requires ps.pgbrk - (n + 1) * 4096 < addr <= ps.pgbrk - n * 4096
    modifies k`phys, k`top, k`endMapped, k`cr3, k.stack, ps
    ensures k.Valid() && HeapOk(k, ps) && k.cr3 == old(k.cr3)
    ensures retval == ps.brk == addr && ps.pgbrk == old(ps.pgbrk) - n * 4096 && k.top == old(k.top) + n
    ensures forall c, v :: c in k.spaces && 0 <= v < 0xC0000 ==>
              Lookup(k.phys, c, v) == if c == ps.directory && old(ps.pgbrk) / 4096 - n <= v < old(ps.pgbrk) / 4096 then None
                                      else Lookup(old(k.phys), c, v)
  {
    hide SpaceOk, Lookup, Spare, IsTable, IsMapped, PoolOk, Injective, HeapMapped, PageUp, PushedOnly, Growing, Shrinking;
    PageUpIs(addr, ps.pgbrk, 0 - (n as int));
    ghost var m0, pool0, hi := k.phys, k.Pool(), ps.pgbrk / 4096;
    assert (ps.pgbrk - PageUp(addr)) / 4096 == n && PageUp(addr) / 4096 == hi - n;
    ghost var data, tabs;
    retval, data, tabs := SetBrk(k, addr, ps, {});
    if 0 < n { ShrunkPages(m0, k.phys, k.spaces, ps.directory, pool0, k.Pool(), hi - n, n); }
  }

  lemma ShrunkPages(m0: Phys, m1: Phys, spaces: set<nat>, c: nat, pool0: seq<nat>, pool1: seq<nat>, lo: nat, n: nat)
    requires AllOk(m0, spaces) && AllOk(m1, spaces) && c in spaces && lo + n <= KERNEL_PAGES
    requires Shrinking(m0, m1, spaces, c, pool0, pool1, lo, n)
    ensures |pool1| == |pool0| + n
    ensures forall d, v :: d in spaces && 0 <= v < 0xC0000 ==>
              Lookup(m1, d, v) == if d == c && lo <= v < lo + n then None else Lookup(m0, d, v)
  {
    hide SpaceOk, Lookup, IsTable, DataKept, FramesAt;
    assert |multiset(pool1)| == |multiset(pool0)| + |multiset(FramesAt(m0, c, lo, n))|;
  }

  /** A query, and requests below the loader's break or above the heap's range, change nothing. */
  method RefuseBreak(k: Machine, addr: word, ps: Process) returns (retval: word)
    requires k.Valid() && HeapOk(k, ps)
    requires addr == 0 || addr < ps.pgbrk - ps.brkOffset || 0xBFC0_0000 < addr
    modifies k`phys, k`top, k`endMapped, k`cr3, k.stack, ps
    ensures k.Valid() && HeapOk(k, ps) && k.cr3 == old(k.cr3) && retval == ps.brk == old(ps.brk)
    ensures ps.pgbrk == old(ps.pgbrk) && k.phys == old(k.phys) && k.Pool() == old(k.Pool()) && k.endMapped == old(k.endMapped)
  {
    hide SpaceOk, Lookup, Spare, IsTable, IsMapped, PoolOk, Injective, HeapMapped, PushedOnly, Growing, Shrinking;
    ghost var data, tabs;
    retval, data, tabs := SetBrk(k, addr, ps, {});
  }
}
