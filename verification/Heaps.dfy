/** The heaps of all processes together: a call of sched_setbrk_true for one leaves those of the others intact. */
module Heaps {
  import opened Wrappers
  import opened Bytes
  import opened PageTables
  import opened Paging
  import opened ProgramBreak

  // ---------- one call, seen from another heap ----------

  /** Pages of another space keep their frames when a heap grows, and none of these becomes a table. */
  lemma OtherGrows(m0: Phys, m1: Phys, spaces: set<nat>, c: nat, pool0: seq<nat>, pool1: seq<nat>,
                   end0: nat, end1: nat, base: nat, data: seq<nat>, tabs: seq<nat>, d: nat, lo: nat, hi: nat)
    requires AllOk(m0, spaces) && AllOk(m1, spaces) && c in spaces && d in spaces && c != d && PoolOk(m0, spaces, pool0, {})
    requires Growing(m0, m1, spaces, c, pool0, pool1, end0, end1, base, data, tabs)
    requires hi <= KERNEL_PAGES && HeapMapped(m0, spaces, d, lo, hi)
    ensures HeapMapped(m1, spaces, d, lo, hi)
    ensures forall v :: 0 <= v < KERNEL_PAGES ==> Lookup(m1, d, v) == Lookup(m0, d, v)
  {
    hide SpaceOk, Lookup, Entry, IsTable;
    forall v | lo <= v < hi ensures HeapPage(m1, spaces, d, v) {
      assert HeapPage(m0, spaces, d, v);
      var f := FrameOf(Lookup(m0, d, v).value);
      assert Uses(m0, d, v, f);
      forall t | t in tabs ensures t / PAGE != f {
        assert t in multiset(pool0);
        var j :| 0 <= j < |pool0| && pool0[j] == t;
        assert Spare(m0, spaces, {}, t / PAGE);
      }
    }
  }

  lemma OtherShrinks(m0: Phys, m1: Phys, spaces: set<nat>, c: nat, pool0: seq<nat>, pool1: seq<nat>, base: nat, n: nat, d: nat, lo: nat, hi: nat)
    requires AllOk(m0, spaces) && AllOk(m1, spaces) && c in spaces && d in spaces && c != d && base + n <= PAGES
    requires Shrinking(m0, m1, spaces, c, pool0, pool1, base, n)
    requires hi <= KERNEL_PAGES && HeapMapped(m0, spaces, d, lo, hi)
    ensures HeapMapped(m1, spaces, d, lo, hi)
    ensures forall v :: 0 <= v < KERNEL_PAGES ==> Lookup(m1, d, v) == Lookup(m0, d, v)
  {
    hide SpaceOk, Lookup, IsTable;
    forall v | lo <= v < hi ensures HeapPage(m1, spaces, d, v) {
      assert HeapPage(m0, spaces, d, v);
    }
  }

  lemma OnlyUse(m: Phys, spaces: set<nat>, c: nat, v: nat, d: nat, u: nat, f: nat)
    requires AllOk(m, spaces) && Injective(m, spaces) && c in spaces && d in spaces && v < PAGES && u < PAGES
    requires Uses(m, c, v, f) && !SamePage(c, v, d, u)
    ensures !Uses(m, d, u, f)
  {
    hide SpaceOk, Uses;
  }

  /** No frame is a heap page of two processes. */
  lemma HeapsApart(m: Phys, spaces: set<nat>, c: nat, v: nat, d: nat, u: nat)
    requires AllOk(m, spaces) && Injective(m, spaces) && c in spaces && d in spaces && c != d
    requires v < KERNEL_PAGES && u < KERNEL_PAGES && HeapPage(m, spaces, c, v) && HeapPage(m, spaces, d, u)
    ensures FrameAt(m, c, v) != FrameAt(m, d, u)
  {
    hide SpaceOk, Lookup, IsTable;
    var f, g := FrameOf(Lookup(m, c, v).value), FrameOf(Lookup(m, d, u).value);
    assert Uses(m, c, v, f) && Uses(m, d, u, g);
    OnlyUse(m, spaces, c, v, d, u, f);
  }

  // ---------- all heaps ----------

  /** Every process has a sound heap in a space of its own. */
  ghost predicate HeapsOk(k: Machine, all: seq<Process>)
    requires k.Core()
    reads k, all
  {
    && (forall i :: 0 <= i < |all| ==> HeapOk(k, all[i]))
    && (forall i, j :: 0 <= i < j < |all| ==> all[i].directory != all[j].directory)
  }

  function Offsets(all: seq<Process>): (os: seq<nat>)
    reads all
    ensures |os| == |all| && forall i :: 0 <= i < |all| ==> os[i] == all[i].brkOffset
  {
    seq(|all|, i requires 0 <= i < |all| reads all => all[i].brkOffset)
  }

  /** Pages in heaps of these sizes. */
  function Pages(os: seq<nat>): nat {
    if os == [] then 0 else Pages(os[..|os| - 1]) + os[|os| - 1] / PAGE
  }

  /** Frames on the stack, pages in heaps, and kernel pages mapped so far: what one loses another gains. */
  function Total(k: Machine, all: seq<Process>): nat
    reads k, all
  {
    k.top + Pages(Offsets(all)) + k.endMapped / PAGE
  }

  lemma {:induction false} OneSize(os: seq<nat>, i: nat, o: nat)
    requires i < |os|
    ensures Pages(os[i := o]) == Pages(os) - os[i] / PAGE + o / PAGE
  {
    var n := |os| - 1;
    if i == n {
      assert os[i := o][..n] == os[..n];
    } else {
      assert os[i := o][..n] == os[..n][i := o];
      OneSize(os[..n], i, o);
    }
  }

  lemma GrownTotals(m0: Phys, m1: Phys, spaces: set<nat>, c: nat, pool0: seq<nat>, pool1: seq<nat>,
                    end0: nat, end1: nat, lo: nat, data: seq<nat>, tabs: seq<nat>)
    requires AllOk(m0, spaces) && AllOk(m1, spaces) && c in spaces
    requires Growing(m0, m1, spaces, c, pool0, pool1, end0, end1, lo, data, tabs)
    ensures |pool0| + end0 / PAGE == |pool1| + |data| + end1 / PAGE
  {
    hide SpaceOk, Lookup, Mapping, TablesGrew, IsTable;
    FramesLeft(m0, m1, spaces, c, pool0, pool1, end0, end1, lo, data, tabs);
    assert (end0 + |tabs| * PAGE) / PAGE == end0 / PAGE + |tabs|;
  }

  lemma ShrunkTotals(m0: Phys, m1: Phys, spaces: set<nat>, c: nat, pool0: seq<nat>, pool1: seq<nat>, lo: nat, n: nat)
    requires AllOk(m0, spaces) && AllOk(m1, spaces) && c in spaces && lo + n <= PAGES
    requires Shrinking(m0, m1, spaces, c, pool0, pool1, lo, n)
    ensures |pool1| == |pool0| + n
  {
    hide SpaceOk, Lookup, Unmapping, IsTable;
    assert |multiset(pool1)| == |multiset(pool0)| + |multiset(FramesAt(m0, c, lo, n))|;
  }

  // ---------- sequences of calls ----------

  /** What a call for the heap of space `c` may do to memory; its heap ended at page `lo0` and ends at `lo1`. */
  ghost predicate Call(m0: Phys, m1: Phys, spaces: set<nat>, c: nat, pool0: seq<nat>, pool1: seq<nat>,
                       end0: nat, end1: nat, lo0: nat, lo1: nat)
    requires AllOk(m0, spaces) && AllOk(m1, spaces) && c in spaces
  {
    || (m1 == m0 && pool1 == pool0 && end1 == end0 && lo1 == lo0)
    || (lo1 <= lo0 <= PAGES && end1 == end0 && Shrinking(m0, m1, spaces, c, pool0, pool1, lo1, lo0 - lo1))
    || (exists data, tabs :: lo1 == lo0 + |data| && Growing(m0, m1, spaces, c, pool0, pool1, end0, end1, lo0, data, tabs))
  }

  lemma CallKeepsOther(m0: Phys, m1: Phys, spaces: set<nat>, c: nat, pool0: seq<nat>, pool1: seq<nat>,
                       end0: nat, end1: nat, lo0: nat, lo1: nat, d: nat, lo: nat, hi: nat)
    requires AllOk(m0, spaces) && AllOk(m1, spaces) && c in spaces && d in spaces && c != d && PoolOk(m0, spaces, pool0, {})
    requires Call(m0, m1, spaces, c, pool0, pool1, end0, end1, lo0, lo1)
    requires hi <= KERNEL_PAGES && HeapMapped(m0, spaces, d, lo, hi)
    ensures HeapMapped(m1, spaces, d, lo, hi)
    ensures forall v :: 0 <= v < KERNEL_PAGES ==> Lookup(m1, d, v) == Lookup(m0, d, v)
  {
    hide SpaceOk, Lookup, IsTable, PoolOk, HeapMapped, Growing, Shrinking;
    if m1 == m0 && pool1 == pool0 && end1 == end0 && lo1 == lo0 {
    } else if lo1 <= lo0 <= PAGES && end1 == end0 && Shrinking(m0, m1, spaces, c, pool0, pool1, lo1, lo0 - lo1) {
      OtherShrinks(m0, m1, spaces, c, pool0, pool1, lo1, lo0 - lo1, d, lo, hi);
    } else {
      var data, tabs :| lo1 == lo0 + |data| && Growing(m0, m1, spaces, c, pool0, pool1, end0, end1, lo0, data, tabs);
      OtherGrows(m0, m1, spaces, c, pool0, pool1, end0, end1, lo0, data, tabs, d, lo, hi);
    }
  }

  lemma CallTotals(m0: Phys, m1: Phys, spaces: set<nat>, c: nat, pool0: seq<nat>, pool1: seq<nat>,
                   end0: nat, end1: nat, lo0: nat, lo1: nat)
    requires AllOk(m0, spaces) && AllOk(m1, spaces) && c in spaces
    requires Call(m0, m1, spaces, c, pool0, pool1, end0, end1, lo0, lo1)
    ensures |pool0| + end0 / PAGE + lo0 == |pool1| + end1 / PAGE + lo1
  {
    hide SpaceOk, Lookup, IsTable, Growing, Shrinking;
    if m1 == m0 && pool1 == pool0 && end1 == end0 && lo1 == lo0 {
    } else if lo1 <= lo0 <= PAGES && end1 == end0 && Shrinking(m0, m1, spaces, c, pool0, pool1, lo1, lo0 - lo1) {
      ShrunkTotals(m0, m1, spaces, c, pool0, pool1, lo1, lo0 - lo1);
    } else {
      var data, tabs :| lo1 == lo0 + |data| && Growing(m0, m1, spaces, c, pool0, pool1, end0, end1, lo0, data, tabs);
      GrownTotals(m0, m1, spaces, c, pool0, pool1, end0, end1, lo0, data, tabs);
    }
  }

  /** SetBrk, seen as such a call. */
  method SetBrkCall(k: Machine, addr: word, ps: Process) returns (retval: word)
    requires k.Valid() && HeapOk(k, ps) && BreakRoom(k, addr, ps)
    modifies k`phys, k`top, k`endMapped, k`cr3, k.stack, ps
    ensures k.Valid() && HeapOk(k, ps) && k.cr3 == old(k.cr3) && retval == ps.brk
    ensures ps.pgbrk - ps.brkOffset == old(ps.pgbrk - ps.brkOffset)
    ensures Call(old(k.phys), k.phys, k.spaces, ps.directory, old(k.Pool()), k.Pool(), old(k.endMapped), k.endMapped,
                 old(ps.pgbrk) / PAGE, ps.pgbrk / PAGE)
  {
    hide SpaceOk, Lookup, Spare, IsTable, IsMapped, PoolOk, Injective, Growing, Shrinking, HeapMapped, PageUp, PushedOnly;
    ghost var data: seq<nat>, tabs: seq<nat>, pg := [], [], ps.pgbrk;
    retval, data, tabs := SetBrk(k, addr, ps, {});
    if ps.pgbrk <= pg { WholePages(ps.pgbrk, pg); } else { WholePages(pg, ps.pgbrk); }
  }

  /** A call for one process keeps the heaps of all, page for page those of the others, and the total. */
  method SetBrkAmong(k: Machine, addr: word, all: seq<Process>, i: nat) returns (retval: word)
    requires k.Valid() && i < |all| && HeapsOk(k, all) && BreakRoom(k, addr, all[i])
    modifies k`phys, k`top, k`endMapped, k`cr3, k.stack, all[i]
    ensures k.Valid() && HeapsOk(k, all) && k.cr3 == old(k.cr3) && retval == all[i].brk
    ensures all[i].pgbrk - all[i].brkOffset == old(all[i].pgbrk - all[i].brkOffset)
    ensures Total(k, all) == old(Total(k, all))
    ensures forall j, v :: 0 <= j < |all| && j != i && 0 <= v < KERNEL_PAGES ==>
              Lookup(k.phys, all[j].directory, v) == Lookup(old(k.phys), all[j].directory, v)
  {
    hide SpaceOk, Lookup, Spare, IsTable, IsMapped, PoolOk, Injective, HeapMapped, PageUp, Call;
    ghost var m0, pool0, end0, os := k.phys, k.Pool(), k.endMapped, Offsets(all);
    ghost var lo0 := all[i].pgbrk / PAGE;
    retval := SetBrkCall(k, addr, all[i]);
    ghost var lo1 := all[i].pgbrk / PAGE;
    forall j | 0 <= j < |all| && j != i
      ensures HeapOk(k, all[j])
      ensures forall v :: 0 <= v < KERNEL_PAGES ==> Lookup(k.phys, all[j].directory, v) == Lookup(m0, all[j].directory, v)
    {
      var d := all[j];
      CallKeepsOther(m0, k.phys, k.spaces, all[i].directory, pool0, k.Pool(), end0, k.endMapped, lo0, lo1,
                     d.directory, (d.pgbrk - d.brkOffset) / PAGE, d.pgbrk / PAGE);
    }
    CallTotals(m0, k.phys, k.spaces, all[i].directory, pool0, k.Pool(), end0, k.endMapped, lo0, lo1);
    assert Offsets(all) == os[i := all[i].brkOffset];
    OneSize(os, i, all[i].brkOffset);
  }

  /** A request of one of the processes; the kernel panics when the address space for new page tables is gone. */
  datatype Request = Request(who: nat, addr: word)

  /** Any sequence of calls by any of the processes. */
  method SetBrkRun(k: Machine, all: seq<Process>, requests: seq<Request>)
    requires k.Valid() && HeapsOk(k, all)
    modifies k`phys, k`top, k`endMapped, k`cr3, k.stack, all
    ensures k.Valid() && HeapsOk(k, all) && k.cr3 == old(k.cr3)
    ensures Total(k, all) == old(Total(k, all))
    ensures forall i :: 0 <= i < |all| ==> all[i].pgbrk - all[i].brkOffset == old(all[i].pgbrk - all[i].brkOffset)
  {
    hide SpaceOk, Lookup, Spare, IsTable, IsMapped, PoolOk, Injective, HeapMapped, BreakRoom;
    var n := 0;
    while n < |requests|
      invariant n <= |requests| && k.Valid() && HeapsOk(k, all) && k.cr3 == old(k.cr3)
      invariant Total(k, all) == old(Total(k, all))
      invariant forall i :: 0 <= i < |all| ==> all[i].pgbrk - all[i].brkOffset == old(all[i].pgbrk - all[i].brkOffset)
    {
      var r := requests[n];
      if r.who < |all| && BreakRoom(k, r.addr, all[r.who]) {
        var _ := SetBrkAmong(k, r.addr, all, r.who);
      }
      n := n + 1;
    }
  }
}
