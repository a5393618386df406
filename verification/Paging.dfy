/**
 The frame stack (pmm.c), the page-table walks (vmm.c), kernel page runs (liballoc-vmm.c) and the
 program break (sched_setbrk_true in sched.c), all working on one physical memory.
 */
module Paging {
  import opened Wrappers
  import opened Bytes
  import opened PageTables

  const MAX_PAGES: nat := 0x10_0000
  const KERNEL_START: nat := 0xC000_0000

  /** Page-aligned physical addresses; address 0 means "none" to the callers, so it is never pooled. */
  predicate FrameAddress(p: nat) { 0 < p < 0x1_0000_0000 && p % PAGE == 0 }

  ghost predicate Distinct(s: seq<nat>) {
    forall i, j :: 0 <= i < j < |s| ==> s[i] != s[j]
  }

  /** The frames on the stack are distinct and spare; some may be directories `x` of processes that have ended. */
  ghost predicate PoolOk(m: Phys, spaces: set<nat>, pool: seq<nat>, x: set<nat>)
    requires AllOk(m, spaces)
  {
    && Distinct(pool)
    && forall k :: 0 <= k < |pool| ==> FrameAddress(pool[k]) && Spare(m, spaces, x, pool[k] / PAGE)
  }

  /** The page-table word `vmm_map_page` writes for a frame: its address, the low flag bits, and present. */
  function Entry(p: nat, flags: nat): word
    requires FrameAddress(p)
  {
    var f := flags % 0x1000;
    p + (if f % 2 == 1 then f else f + 1)
  }

  function Entries(ps: seq<nat>, flags: nat): (es: seq<word>)
    requires forall i :: 0 <= i < |ps| ==> FrameAddress(ps[i])
    ensures |es| == |ps|
  {
    seq(|ps|, i requires 0 <= i < |ps| => Entry(ps[i], flags))
  }

  /** The frames that `n` pops take from a stack, in the order they come. */
  function Taken(pool: seq<nat>, n: nat): (ps: seq<nat>)
    requires n <= |pool|
    ensures |ps| == n
  {
    seq(n, i requires 0 <= i < n => pool[|pool| - 1 - i])
  }

  lemma EntriesAppend(ps: seq<nat>, p: nat, flags: nat)
    requires FrameAddress(p) && forall i :: 0 <= i < |ps| ==> FrameAddress(ps[i])
    ensures Entries(ps + [p], flags) == Entries(ps, flags) + [Entry(p, flags)]
  {
    assert forall i :: 0 <= i < |ps + [p]| ==> FrameAddress((ps + [p])[i]);
  }

  lemma OneTaken(pool: seq<nat>)
    requires pool != [] && FrameAddress(pool[|pool| - 1])
    ensures Taken(pool, 1) == [pool[|pool| - 1]] && Entries(Taken(pool, 1), 3) == [Entry(pool[|pool| - 1], 3)]
  {
  }

  /** physaddr | 7 for an aligned address: a present, writable user table. */
  lemma NewTableEntry(p: nat)
    requires FrameAddress(p)
    ensures p + 7 < 0x1_0000_0000 && Present(p + 7) && UserBits(p + 7) && FrameOf(p + 7) == p / PAGE
  {
    EntryParts(p, 7);
    assert Entry(p, 7) == p + 7;
    PageAndUserBits(p / PAGE);
  }

  lemma PageAndUserBits(q: nat)
    ensures (q * PAGE + 7) % 8 == 7
  {
  }

  /** Bit 0 of an entry is set, bits 1 to 11 are those of the flags, and bits 12 to 31 those of the frame's address. */
  lemma EntryBits(p: nat, flags: nat)
    requires FrameAddress(p)
    ensures Entry(p, flags) % 2 == 1
    ensures Entry(p, flags) / 2 % 2048 == flags / 2 % 2048
    ensures Entry(p, flags) / 4096 == p / 4096
    ensures flags % 8 == 7 ==> Entry(p, flags) % 8 == 7
    ensures flags % 8 == 3 ==> Entry(p, flags) % 8 == 3
  {
    var f := flags % 4096;
    var g := if f % 2 == 1 then f else f + 1;
    HalfOf(flags);
    LowHalf(p / 4096, g);
    assert g / 2 == f / 2;
  }

  lemma HalfOf(flags: nat)
    ensures flags % 4096 / 2 == flags / 2 % 2048 && flags % 4096 % 8 == flags % 8
  {
    var q, f := flags / 4096, flags % 4096;
    assert flags == 4096 * q + f;
    assert flags / 2 == 2048 * q + f / 2;
    assert flags == 8 * (512 * q) + f;
  }

  lemma LowHalf(q: nat, g: nat)
    requires g < 4096
    ensures (q * 4096 + g) / 2 % 2048 == g / 2 && (q * 4096 + g) / 4096 == q
    ensures (q * 4096 + g) % 8 == g % 8 && (q * 4096 + g) % 2 == g % 2
  {
    assert (q * 4096 + g) / 2 == q * 2048 + g / 2;
    assert q * 4096 + g == 8 * (512 * q) + g;
  }

  lemma SameTables(m: Phys, m': Phys, spaces: set<nat>, f: nat)
    requires AllOk(m, spaces) && AllOk(m', spaces) && forall c :: c in spaces ==> m'[c] == m[c]
    ensures IsTable(m', spaces, f) == IsTable(m, spaces, f)
  {
  }

  lemma EntryParts(p: nat, flags: nat)
    requires FrameAddress(p)
    ensures Present(Entry(p, flags)) && FrameOf(Entry(p, flags)) == p / PAGE && FrameOf(Entry(p, flags)) * PAGE == p
  {
    hide Entry;
    FlagBits(p, flags);
    PageAndOffset(p / PAGE, Entry(p, flags) - p);
  }

  lemma FlagBits(p: nat, flags: nat)
    requires FrameAddress(p)
    ensures 0 <= Entry(p, flags) - p < PAGE && (Entry(p, flags) - p) % 2 == 1
  {
    var f := flags % 0x1000;
    assert Entry(p, flags) - p == if f % 2 == 1 then f else f + 1;
  }

  lemma PageAndOffset(q: nat, g: nat)
    requires g < PAGE && g % 2 == 1
    ensures (q * PAGE + g) / PAGE == q && (q * PAGE + g) % 2 == 1
  {
  }

  /** The two indices the source takes out of an address are those of its page number. */
  lemma PageIndices(va: word)
    ensures va / PAGE / WORDS == va / 0x40_0000 && va / PAGE % WORDS == va / 0x1000 % 0x400
  {
  }

  /** Mapping one page takes nothing from the frames that stay spare. */
  lemma MappingKeepsSpare(m: Phys, m': Phys, spaces: set<nat>, c: nat, vpn: nat, e: word, f: nat)
    requires AllOk(m, spaces) && AllOk(m', spaces) && Mapping(m, m', spaces, c, vpn, [e], 0, [])
    requires IsTable(m', spaces, f) == IsTable(m, spaces, f)
    requires Spare(m, spaces, {}, f) && f != FrameOf(e)
    ensures Spare(m', spaces, {}, f)
  {
    hide Lookup, SpaceOk;
    forall d, v | d in spaces && 0 <= v < PAGES ensures !Uses(m', d, v, f) {
      assert !Uses(m, d, v, f);
    }
  }

  lemma MappingKeepsPool(m: Phys, m': Phys, spaces: set<nat>, c: nat, vpn: nat, e: word, pool: seq<nat>)
    requires AllOk(m, spaces) && AllOk(m', spaces) && Mapping(m, m', spaces, c, vpn, [e], 0, [])
    requires forall f :: IsTable(m', spaces, f) == IsTable(m, spaces, f)
    requires PoolOk(m, spaces, pool, {}) && FrameOf(e) * PAGE !in pool
    ensures PoolOk(m', spaces, pool, {})
  {
    hide Lookup, SpaceOk, IsTable, IsMapped, Mapping, Spare;
    forall k | 0 <= k < |pool| ensures Spare(m', spaces, {}, pool[k] / PAGE) {
      assert pool[k] == pool[k] / PAGE * PAGE;
      MappingKeepsSpare(m, m', spaces, c, vpn, e, pool[k] / PAGE);
    }
  }

  /** Frames that hold no table have not been written. */
  ghost predicate DataKept(m0: Phys, m1: Phys, spaces: set<nat>)
    requires AllOk(m0, spaces) && AllOk(m1, spaces)
  {
    forall f :: 0 <= f < FRAMES && !IsTable(m0, spaces, f) ==> m1[f] == m0[f]
  }

  /** Nor have frames that are none of `ps`. */
  ghost predicate Untouched(m0: Phys, m1: Phys, spaces: set<nat>, ps: seq<nat>)
    requires AllOk(m0, spaces) && AllOk(m1, spaces)
  {
    forall f :: 0 <= f < FRAMES && !IsTable(m0, spaces, f) && f * PAGE !in ps ==> m1[f] == m0[f]
  }

  lemma DataKeptTwice(m0: Phys, m1: Phys, m2: Phys, spaces: set<nat>)
    requires AllOk(m0, spaces) && AllOk(m1, spaces) && AllOk(m2, spaces)
    requires DataKept(m0, m1, spaces) && DataKept(m1, m2, spaces)
    requires forall f :: IsTable(m1, spaces, f) == IsTable(m0, spaces, f)
    ensures DataKept(m0, m2, spaces)
  {
    hide IsTable, SpaceOk;
  }

  /** From page `lo` on, `n` pages are unmapped; no table, no directory and no data frame is written or comes to be. */
  ghost predicate Gone(m0: Phys, m1: Phys, spaces: set<nat>, c: nat, lo: nat, n: nat)
    requires AllOk(m0, spaces) && AllOk(m1, spaces)
  {
    && Unmapping(m0, m1, spaces, c, lo, n)
    && (forall f :: IsTable(m1, spaces, f) == IsTable(m0, spaces, f))
    && (forall d :: d in spaces ==> m1[d] == m0[d])
    && DataKept(m0, m1, spaces)
  }

  lemma GoneAppend(m0: Phys, m1: Phys, m2: Phys, spaces: set<nat>, c: nat, lo: nat, n: nat, k: nat)
    requires AllOk(m0, spaces) && AllOk(m1, spaces) && AllOk(m2, spaces)
    requires Gone(m0, m1, spaces, c, lo, n) && Gone(m1, m2, spaces, c, lo + n, k)
    ensures Gone(m0, m2, spaces, c, lo, n + k)
  {
    hide IsTable, SpaceOk, DataKept, Unmapping;
    UnmappingAppend(m0, m1, m2, spaces, c, lo, n, k);
    DataKeptTwice(m0, m1, m2, spaces);
  }

  lemma NothingGone(m: Phys, spaces: set<nat>, c: nat, lo: nat)
    requires AllOk(m, spaces)
    ensures Gone(m, m, spaces, c, lo, 0)
  {
  }

  lemma TableStore(m: Phys, spaces: set<nat>, c: nat, i: nat, j: nat, w: word)
    requires AllOk(m, spaces) && c in spaces && i < SELF_SLOT && Present(m[c][i]) && j < WORDS
    requires AllOk(Store(m, FrameOf(m[c][i]), j, w), spaces)
    ensures DataKept(m, Store(m, FrameOf(m[c][i]), j, w), spaces)
  {
    hide Store, SpaceOk;
  }

  /** `pages` more kernel pages from `end0` on, on the frames that were on top of the stack; no table added. */
  ghost predicate KernelRun(m0: Phys, m1: Phys, spaces: set<nat>, c: nat, pool0: seq<nat>, pool1: seq<nat>, end0: nat, pages: nat)
    requires AllOk(m0, spaces) && AllOk(m1, spaces) && pages <= |pool0|
  {
    && pool1 == pool0[..|pool0| - pages]
    && (forall i :: 0 <= i < pages ==> FrameAddress(Taken(pool0, pages)[i]))
    && Mapping(m0, m1, spaces, c, end0 / PAGE, Entries(Taken(pool0, pages), 3), 0, [])
    && (forall d :: d in spaces ==> m1[d] == m0[d])
    && (forall f :: IsTable(m1, spaces, f) == IsTable(m0, spaces, f))
    && DataKept(m0, m1, spaces)
  }

  lemma KernelRunEmpty(m: Phys, spaces: set<nat>, c: nat, pool: seq<nat>, end: nat)
    requires AllOk(m, spaces)
    ensures KernelRun(m, m, spaces, c, pool, pool, end, 0)
  {
    MappingNothing(m, spaces, c, end / PAGE, 0);
  }

  /** Kernel pages are writable and not for user code. */
  lemma RunBits(m0: Phys, m1: Phys, spaces: set<nat>, c: nat, pool0: seq<nat>, pool1: seq<nat>, end0: nat, pages: nat)
    requires AllOk(m0, spaces) && AllOk(m1, spaces) && c in spaces && pages <= |pool0| && end0 / PAGE + pages <= PAGES
    requires KernelRun(m0, m1, spaces, c, pool0, pool1, end0, pages)
    ensures forall v :: end0 / PAGE <= v < end0 / PAGE + pages ==>
              Lookup(m1, c, v).Some? && Lookup(m1, c, v).value % 8 == 3
              && Lookup(m1, c, v).value / 4096 == pool0[|pool0| - 1 - (v - end0 / PAGE)] / 4096
  {
    hide Lookup, SpaceOk, IsTable, Entry, DataKept;
    var ps := Taken(pool0, pages);
    forall v | end0 / PAGE <= v < end0 / PAGE + pages
      ensures Lookup(m1, c, v).Some? && Lookup(m1, c, v).value % 8 == 3
              && Lookup(m1, c, v).value / 4096 == pool0[|pool0| - 1 - (v - end0 / PAGE)] / 4096
    {
      var i := v - end0 / PAGE;
      EntryBits(ps[i], 3);
      assert Entries(ps, 3)[i] == Entry(ps[i], 3);
      assert Lookup(m1, c, v) == Some(Entries(ps, 3)[i]);
    }
  }

  lemma TakenAppend(pool: seq<nat>, n: nat, k: nat)
    requires n + k <= |pool|
    ensures Taken(pool, n + k) == Taken(pool, n) + Taken(pool[..|pool| - n], k)
  {
  }

  lemma KernelRunAppend(m0: Phys, m1: Phys, m2: Phys, spaces: set<nat>, c: nat,
                        pool0: seq<nat>, pool1: seq<nat>, pool2: seq<nat>, end0: nat, n: nat, k: nat)
    requires AllOk(m0, spaces) && AllOk(m1, spaces) && AllOk(m2, spaces) && n + k <= |pool0| && end0 % PAGE == 0
    requires KernelRun(m0, m1, spaces, c, pool0, pool1, end0, n)
    requires KernelRun(m1, m2, spaces, c, pool1, pool2, end0 + n * PAGE, k)
    ensures KernelRun(m0, m2, spaces, c, pool0, pool2, end0, n + k)
  {
    hide Mapping, Lookup, SpaceOk, IsTable, DataKept;
    var ps, qs := Taken(pool0, n), Taken(pool1, k);
    TakenAppend(pool0, n, k);
    DataKeptTwice(m0, m1, m2, spaces);
    assert (end0 + n * PAGE) / PAGE == end0 / PAGE + n;
    MappingAppend(m0, m1, m2, spaces, c, end0 / PAGE, Entries(ps, 3), Entries(qs, 3), 0, [], []);
    assert forall i :: 0 <= i < n + k ==> FrameAddress((ps + qs)[i]);
    assert Entries(ps + qs, 3) == Entries(ps, 3) + Entries(qs, 3);
    var none: seq<word> := [];
    assert none + none == none;
    assert pool2 == pool0[..|pool0| - (n + k)];
  }

  function FrameAt(m: Phys, c: nat, v: nat): nat
    requires Shaped(m) && c < FRAMES && v < PAGES && Lookup(m, c, v).Some?
  {
    FrameOf(Lookup(m, c, v).value) * PAGE
  }

  /** The frames behind `n` mapped pages from `lo` on. */
  function FramesAt(m: Phys, c: nat, lo: nat, n: nat): (ps: seq<nat>)
    requires Shaped(m) && c < FRAMES && lo + n <= PAGES
    requires forall v :: lo <= v < lo + n ==> Lookup(m, c, v).Some?
    ensures |ps| == n
  {
    seq<nat>(n, i requires 0 <= i < n => FrameAt(m, c, lo + i))
  }

  lemma FramesAtAppend(m: Phys, c: nat, lo: nat, n: nat)
    requires Shaped(m) && c < FRAMES && lo + n < PAGES
    requires forall v :: lo <= v < lo + n ==> Lookup(m, c, v).Some?
    requires Lookup(m, c, lo + n).Some?
    ensures FramesAt(m, c, lo, n + 1) == FramesAt(m, c, lo, n) + [FrameAt(m, c, lo + n)]
  {
  }

  lemma {:induction false} ReversedTail(pool: seq<nat>, n: nat)
    requires n <= |pool|
    ensures multiset(pool) == multiset(pool[..|pool| - n]) + multiset(Taken(pool, n))
  {
    if n == 0 {
      assert pool[..|pool|] == pool;
    } else {
      ReversedTail(pool, n - 1);
      var k := |pool| - n;
      TakenAppend(pool, n - 1, 1);
      assert pool[..k + 1] == pool[..k] + [pool[k]];
      assert Taken(pool[..k + 1], 1) == [pool[k]];
      assert multiset(Taken(pool, n)) == multiset(Taken(pool, n - 1)) + multiset{pool[k]};
    }
  }

  /** liballoc_free of a run from liballoc_alloc returns exactly its frames and restores every translation. */
  lemma AllocFreeRoundTrip(m0: Phys, m1: Phys, m2: Phys, spaces: set<nat>, c: nat,
                           pool0: seq<nat>, pool1: seq<nat>, pool2: seq<nat>, end0: nat, n: nat)
    requires AllOk(m0, spaces) && AllOk(m1, spaces) && AllOk(m2, spaces) && c in spaces
    requires n <= |pool0| && end0 % PAGE == 0 && KERNEL_START <= end0 && end0 + n * PAGE <= WINDOW
    requires forall d, v :: d in spaces && end0 / PAGE <= v < PAGES ==> Lookup(m0, d, v) == None
    requires KernelRun(m0, m1, spaces, c, pool0, pool1, end0, n)
    requires end0 / PAGE + n <= PAGES && Unmapping(m1, m2, spaces, c, end0 / PAGE, n)
    requires forall v :: end0 / PAGE <= v < end0 / PAGE + n ==> Lookup(m1, c, v).Some?
    requires pool2 == pool1 + FramesAt(m1, c, end0 / PAGE, n)
    ensures multiset(pool2) == multiset(pool0)
    ensures forall d, v :: d in spaces && 0 <= v < PAGES ==> Lookup(m2, d, v) == Lookup(m0, d, v)
  {
    hide Lookup, SpaceOk, Entry, IsTable;
    var lo, ps := end0 / PAGE, Taken(pool0, n);
    ReversedTail(pool0, n);
    forall i | 0 <= i < n ensures FramesAt(m1, c, lo, n)[i] == ps[i] {
      EntryParts(ps[i], 3);
      assert Entries(ps, 3)[i] == Entry(ps[i], 3);
      assert Lookup(m1, c, lo + i) == Some(Entries(ps, 3)[i]);
      assert FramesAt(m1, c, lo, n)[i] == FrameAt(m1, c, lo + i);
    }
    assert FramesAt(m1, c, lo, n) == ps;
  }

  // ---------- the stack never overflows ----------

  lemma {:induction false} BelowBound(s: set<nat>, n: nat)
    requires forall x :: x in s ==> 1 <= x < n
    ensures |s| < n || n == 0
  {
    if n > 1 {
      BelowBound(s - {n - 1}, n - 1);
    } else {
      assert s == {};
    }
  }

  lemma {:induction false} DistinctFrames(pool: seq<nat>) returns (s: set<nat>)
    requires Distinct(pool) && forall k :: 0 <= k < |pool| ==> FrameAddress(pool[k])
    ensures |s| == |pool| && forall x :: x in s ==> exists k :: 0 <= k < |pool| && x == pool[k] / PAGE
    ensures forall x :: x in s ==> 1 <= x < FRAMES
  {
    if pool == [] {
      s := {};
    } else {
      var last := |pool| - 1;
      var t := DistinctFrames(pool[..last]);
      forall x | x in t ensures x != pool[last] / PAGE {
        var k :| 0 <= k < last && x == pool[..last][k] / PAGE;
        assert pool[k] == pool[k] / PAGE * PAGE && pool[last] == pool[last] / PAGE * PAGE;
      }
      s := t + {pool[last] / PAGE};
    }
  }

  /** Distinct frames fit the static stack, so freeing a frame that is not on it never overflows. */
  lemma PoolBounded(pool: seq<nat>)
    requires Distinct(pool) && forall k :: 0 <= k < |pool| ==> FrameAddress(pool[k])
    ensures |pool| < MAX_PAGES
  {
    var s := DistinctFrames(pool);
    BelowBound(s, FRAMES);
  }

  /** A frame whose only page has been unmapped can go back on the stack. */
  lemma ReleasedPool(m0: Phys, m1: Phys, spaces: set<nat>, c: nat, vpn: nat, f: nat, pool: seq<nat>, x: set<nat>)
    requires AllOk(m0, spaces) && AllOk(m1, spaces) && c in spaces && vpn < PAGES
    requires PoolOk(m0, spaces, pool, x) && Injective(m0, spaces)
    requires Uses(m0, c, vpn, f) && (IsTable(m0, spaces, f) ==> f in x) && 0 < f
    requires Unmapping(m0, m1, spaces, c, vpn, 1)
    requires forall g :: IsTable(m1, spaces, g) == IsTable(m0, spaces, g)
    ensures PoolOk(m1, spaces, pool + [f * PAGE], x)
  {
    hide Lookup, SpaceOk, IsTable;
    assert IsMapped(m0, spaces, f);
    forall d, v | d in spaces && 0 <= v < PAGES ensures !Uses(m1, d, v, f) {
      assert Uses(m0, d, v, f) ==> SamePage(c, vpn, d, v);
    }
    forall k | 0 <= k < |pool| ensures Spare(m1, spaces, x, pool[k] / PAGE) && pool[k] != f * PAGE {
      assert Spare(m0, spaces, x, pool[k] / PAGE);
      forall d, v | d in spaces && 0 <= v < PAGES ensures !Uses(m1, d, v, pool[k] / PAGE) {
        assert !Uses(m0, d, v, pool[k] / PAGE);
      }
    }
    assert Spare(m1, spaces, x, f);
    assert f * PAGE / PAGE == f && (f * PAGE) % PAGE == 0;
  }

  /** A user page that may be written: present, writable and user bits in both levels. */
  predicate UserWritable(m: Phys, c: nat, v: nat)
    requires Shaped(m) && c < FRAMES && v < PAGES
  {
    m[c][v / WORDS] % 8 == 7 && m[FrameOf(m[c][v / WORDS])][v % WORDS] % 8 == 7
  }

  /** Bits 0, 1 and 2 of both words: present, writable, user. */
  lemma WritableBits(m: Phys, c: nat, v: nat)
    requires Shaped(m) && c < FRAMES && v < PAGES
    ensures var pde := m[c][v / 1024];
            var pte := m[pde / 4096][v % 1024];
            UserWritable(m, c, v) <==>
              pde % 2 == 1 && pde / 2 % 2 == 1 && pde / 4 % 2 == 1 && pte % 2 == 1 && pte / 2 % 2 == 1 && pte / 4 % 2 == 1
  {
    ThreeBits(m[c][v / 1024]);
    ThreeBits(m[m[c][v / 1024] / 4096][v % 1024]);
  }

  lemma ThreeBits(w: word)
    ensures w % 8 == 7 <==> w % 2 == 1 && w / 2 % 2 == 1 && w / 4 % 2 == 1
  {
    EightAndRest(w / 8, w % 8);
    var r := w % 8;
    assert r == 0 || r == 1 || r == 2 || r == 3 || r == 4 || r == 5 || r == 6 || r == 7;
  }

  lemma EightAndRest(q: nat, r: nat)
    requires r < 8
    ensures (8 * q + r) % 2 == r % 2 && (8 * q + r) / 2 % 2 == r / 2 % 2 && (8 * q + r) / 4 % 2 == r / 4 % 2
  {
    assert (8 * q + r) / 2 == 4 * q + r / 2 && (8 * q + r) / 4 == 2 * q + r / 4;
  }

  /** A user page mapped with the three low flags can be written by user code. */
  lemma MappedWritable(m: Phys, spaces: set<nat>, c: nat, v: nat, p: nat, flags: nat)
    requires AllOk(m, spaces) && c in spaces && v < KERNEL_PAGES && FrameAddress(p)
    requires Lookup(m, c, v) == Some(Entry(p, flags)) && flags % 8 == 7
    ensures UserWritable(m, c, v)
  {
    hide Entry;
    EntryBits(p, flags);
    assert SpaceOk(m, c);
  }

  class Machine {
    // the static stack of free frames
    const stack: array<nat>
    var top: nat
    var phys: Phys
    var cr3: nat
    var endMapped: nat
    ghost var spaces: set<nat>

    /** The static variables before the first call, on memory `m` with directory `c` loaded. */
    constructor (m: Phys, c: nat)
      ensures fresh(stack) && stack.Length == MAX_PAGES && top == 0
      ensures phys == m && cr3 == c && spaces == {c} && endMapped == LINEAR_END
    {
      stack := new nat[MAX_PAGES];
      top, phys, cr3, spaces, endMapped := 0, m, c, {c}, LINEAR_END;
    }

    /** The free frames, the next one to be handed out last. */
    ghost function Pool(): seq<nat>
      requires top <= stack.Length
      reads this, stack
    {
      stack[..top]
    }

    ghost predicate Core()
      reads this
    {
      && AllOk(phys, spaces) && cr3 in spaces
      && Injective(phys, spaces)
      && LINEAR_END <= endMapped < WINDOW && endMapped % PAGE == 0
    }

    /** Apart from page `hole`, nothing is mapped from `endMapped` up to the window. */
    ghost predicate TailFree(hole: nat)
      requires Core()
      reads this
    {
      forall c, v :: c in spaces && endMapped / PAGE <= v < PAGES && v != hole ==> Lookup(phys, c, v) == None
    }

    /** The directories `x` may be on the stack although their spaces still exist. */
    ghost predicate BaseBut(x: set<nat>)
      reads this, stack
    {
      && stack.Length == MAX_PAGES && top <= MAX_PAGES
      && Core() && PoolOk(phys, spaces, Pool(), x)
    }

    ghost predicate Base()
      reads this, stack
    {
      BaseBut({})
    }

    ghost predicate ValidBut(x: set<nat>)
      reads this, stack
    {
      BaseBut(x) && TailFree(PAGES)
    }

    ghost predicate Valid()
      reads this, stack
    {
      ValidBut({})
    }

    // ---------- pmm.c ----------

    function Available(): nat
      reads this`top
    {
      top
    }

    /** The source panics on an empty stack. */
    method AllocFrame(ghost x: set<nat>) returns (p: nat)
      requires BaseBut(x) && 0 < top
      modifies this`top
      ensures BaseBut(x) && Pool() + [p] == old(Pool())
      ensures FrameAddress(p) && Spare(phys, spaces, x, p / PAGE) && p !in Pool()
    {
      hide Spare, AllOk, Injective;
      top := top - 1;
      p := stack[top];
      assert old(Pool()) == Pool() + [p];
      assert forall k :: 0 <= k < |Pool()| ==> Pool()[k] == old(Pool())[k];
      assert p == old(Pool())[top];
    }

    method FreeFrame(p: nat)
      requires top < stack.Length
      modifies this`top, stack
      ensures top <= stack.Length && Pool() == old(Pool()) + [p]
    {
      stack[top] := p;
      top := top + 1;
    }

    // ---------- word access through the page tables ----------

    function ReadWord(va: word): (w: word)
      requires Shaped(phys) && cr3 < FRAMES && Resolve(phys, cr3, va).Some?
      reads this
    {
      var (f, i) := Resolve(phys, cr3, va).value;
      phys[f][i]
    }

    method WriteWord(va: word, w: word)
      requires Shaped(phys) && cr3 < FRAMES && Resolve(phys, cr3, va).Some?
      modifies this`phys
      ensures var (f, i) := Resolve(old(phys), cr3, va).value; phys == Store(old(phys), f, i, w)
    {
      var (f, i) := Resolve(phys, cr3, va).value;
      phys := Store(phys, f, i, w);
    }

    // ---------- vmm.c ----------

    /** The physical address behind `va`, 0 when there is none. */
    method GetPhysaddr(va: word) returns (p: word)
      requires AllOk(phys, spaces) && cr3 in spaces && va < WINDOW
      ensures p == match Lookup(phys, cr3, va / PAGE) case None => 0 case Some(e) => FrameOf(e) * PAGE + va % PAGE
    {
      hide Injective;
      assert SpaceOk(phys, cr3);
      var pdindex := va / 0x40_0000;
      var ptindex := va / 0x1000 % 0x400;
      DirectoryWindow(phys, cr3, pdindex);
      TableWindow(phys, cr3, pdindex, ptindex);
      PageIndices(va);
      if ReadWord(DIRECTORY + 4 * pdindex) % 2 == 0 {
        return 0;
      }
      var pte := ReadWord(WINDOW + 0x1000 * pdindex + 4 * ptindex);
      if pte % 2 == 0 {
        return 0;
      }
      p := pte - pte % PAGE + va % PAGE;
    }

    /** Takes one page out of the current space; 0 when there was none. */
    method UnmapPage(va: word) returns (r: nat)
      requires Core() && va < WINDOW
      modifies this`phys
      ensures Core() && Gone(old(phys), phys, spaces, cr3, va / PAGE, 1)
      ensures r == if Lookup(old(phys), cr3, va / PAGE) == None then 0 else 1
    {
      hide Injective, Store, SpaceOk, IsTable, Gone;
      assert SpaceOk(phys, cr3);
      var pdindex := va / 0x40_0000;
      var ptindex := va / 0x1000 % 0x400;
      DirectoryWindow(phys, cr3, pdindex);
      TableWindow(phys, cr3, pdindex, ptindex);
      PageIndices(va);
      if ReadWord(DIRECTORY + 4 * pdindex) % 2 == 0 {
        UnmapNothing(va / PAGE);
        return 0;
      }
      if ReadWord(WINDOW + 0x1000 * pdindex + 4 * ptindex) % 2 == 0 {
        UnmapNothing(va / PAGE);
        return 0;
      }
      ClearedEntry(va / PAGE);
      WriteWord(WINDOW + 0x1000 * pdindex + 4 * ptindex, 0);
      r := 1;
    }

    /** What memory is like once the entry of page `v` is zero. */
    lemma ClearedEntry(v: nat)
      requires Core() && v < PAGES && Present(phys[cr3][v / WORDS])
      ensures var m := Store(phys, FrameOf(phys[cr3][v / WORDS]), v % WORDS, 0);
              AllOk(m, spaces) && Injective(m, spaces) && Gone(phys, m, spaces, cr3, v, 1)
    {
      hide Injective, Store, SpaceOk, IsTable, DataKept, Unmapping, Lookup;
      var m := Store(phys, FrameOf(phys[cr3][v / WORDS]), v % WORDS, 0);
      EntryUnmapped(phys, spaces, cr3, v);
      TableStore(phys, spaces, cr3, v / WORDS, v % WORDS, 0);
      UnmappingKeepsInjective(phys, m, spaces, cr3, v, 1);
      forall f ensures IsTable(m, spaces, f) == IsTable(phys, spaces, f) {
        SameTables(phys, m, spaces, f);
      }
    }

    /** Stores 1024 zero words at a kernel page that is mapped to a data frame. */
    method ZeroPage(va: word, ghost f: nat)
      requires Core() && va < WINDOW && va % PAGE == 0
      requires MapsTo(phys, cr3, va / PAGE, f) && !IsTable(phys, spaces, f)
      modifies this`phys
      ensures AllOk(phys, spaces)
      ensures forall c, v :: c in spaces && 0 <= v < PAGES ==> Lookup(phys, c, v) == Lookup(old(phys), c, v)
      ensures forall c :: c in spaces ==> phys[c] == old(phys)[c]
      ensures f < FRAMES && forall k :: 0 <= k < WORDS ==> !Present(phys[f][k])
      ensures forall g :: 0 <= g < FRAMES && g != f ==> phys[g] == old(phys)[g]
    {
      hide Injective, Store, SpaceOk, Lookup, IsTable;
      var i := 0;
      while i < WORDS
        invariant 0 <= i <= WORDS && AllOk(phys, spaces) && !IsTable(phys, spaces, f)
        invariant forall c, v :: c in spaces && 0 <= v < PAGES ==> Lookup(phys, c, v) == Lookup(old(phys), c, v)
        invariant forall c :: c in spaces ==> phys[c] == old(phys)[c]
        invariant f < FRAMES && forall k :: 0 <= k < i ==> !Present(phys[f][k])
        invariant forall g :: 0 <= g < FRAMES && g != f ==> phys[g] == old(phys)[g]
      {
        PutWord(va, i, 0, f);
        i := i + 1;
      }
    }

    /** A store to word `i` of a page behind which there is data: no translation changes. */
    method PutWord(va: word, i: nat, w: word, ghost f: nat)
      requires AllOk(phys, spaces) && cr3 in spaces && va < WINDOW && va % PAGE == 0 && i < WORDS
      requires MapsTo(phys, cr3, va / PAGE, f) && !IsTable(phys, spaces, f)
      modifies this`phys
      ensures AllOk(phys, spaces) && f < FRAMES && phys == Store(old(phys), f, i, w) && !IsTable(phys, spaces, f)
      ensures forall c, v :: c in spaces && 0 <= v < PAGES ==> Lookup(phys, c, v) == Lookup(old(phys), c, v)
      ensures forall c :: c in spaces ==> phys[c] == old(phys)[c]
    {
      hide Store, SpaceOk, Lookup;
      assert (va + 4 * i) / PAGE == va / PAGE && (va + 4 * i) % 0x1000 / 4 == i;
      ResolveIsLookup(phys, cr3, va + 4 * i);
      StoreData(phys, spaces, f, i, w);
      StoreKeepsSpaces(phys, spaces, f, i, w);
      WriteWord(va + 4 * i, w);
      SameTables(old(phys), phys, spaces, f);
    }

    /** A frame that is free to be used, and no longer on the stack. */
    ghost predicate InHand(p: nat)
      requires AllOk(phys, spaces) && top <= stack.Length
      reads this, stack
    {
      FrameAddress(p) && Spare(phys, spaces, {}, p / PAGE) && p !in Pool()
    }

    /** The entry half of vmm_map_page, once the table is there. */
    method MapPresent(physaddr: word, va: word, flags: nat, overwrite: bool) returns (r: int)
      requires Base() && InHand(physaddr) && va < WINDOW
      requires Present(phys[cr3][va / PAGE / WORDS])
      modifies this`phys
      ensures Base() && (forall f :: IsTable(phys, spaces, f) == IsTable(old(phys), spaces, f))
      ensures forall c :: c in spaces ==> phys[c] == old(phys)[c]
      ensures r == if Lookup(old(phys), cr3, va / PAGE).Some? && !overwrite then -1 else 0
      ensures DataKept(old(phys), phys, spaces)
      ensures r != 0 ==> phys == old(phys)
      ensures r == 0 ==> Mapping(old(phys), phys, spaces, cr3, va / PAGE, [Entry(physaddr, flags)], 0, [])
    {
      hide Injective, Store, Spare, PoolOk, SpaceOk, Entry, Mapping, IsTable, IsMapped, DataKept;
      SameData(phys);
      var pdindex := va / 0x40_0000;
      var ptindex := va / 0x1000 % 0x400;
      assert SpaceOk(phys, cr3);
      TableWindow(phys, cr3, pdindex, ptindex);
      PageIndices(va);
      if ReadWord(WINDOW + 0x1000 * pdindex + 4 * ptindex) % 2 == 1 {
        if !overwrite {
          return -1;
        }
      }
      EntryParts(physaddr, flags);
      EntryMapped(phys, spaces, cr3, va / PAGE, Entry(physaddr, flags));
      TableStore(phys, spaces, cr3, va / PAGE / WORDS, va / PAGE % WORDS, Entry(physaddr, flags));
      WriteWord(WINDOW + 0x1000 * pdindex + 4 * ptindex, Entry(physaddr, flags));
      forall f ensures IsTable(phys, spaces, f) == IsTable(old(phys), spaces, f) {
        SameTables(old(phys), phys, spaces, f);
      }
      SpareIsUnmapped(old(phys), physaddr / PAGE);
      MappingKeepsInjective(old(phys), phys, spaces, cr3, va / PAGE, Entry(physaddr, flags));
      MappingKeepsPool(old(phys), phys, spaces, cr3, va / PAGE, Entry(physaddr, flags), Pool());
      r := 0;
    }

    lemma SameData(m: Phys)
      requires AllOk(m, spaces)
      ensures DataKept(m, m, spaces)
    {
    }

    lemma SpareIsUnmapped(m: Phys, f: nat)
      requires AllOk(m, spaces) && Spare(m, spaces, {}, f)
      ensures !IsMapped(m, spaces, f) && !IsTable(m, spaces, f)
    {
    }

    /** What is known after a page table was created for slot `i`: frame `p` left the stack and became a table. */
    ghost predicate TableAdded(m0: Phys, pool0: seq<nat>, end0: nat, i: nat)
      requires AllOk(m0, spaces) && AllOk(phys, spaces) && top <= stack.Length && cr3 in spaces && i < SELF_SLOT
      reads this, stack
    {
      && pool0 != []
      && var p := pool0[|pool0| - 1];
         && FrameAddress(p) && Pool() + [p] == pool0 && endMapped == end0 + PAGE
         && Mapping(m0, phys, spaces, cr3, end0 / PAGE, [Entry(p, 3)], 0, [])
         && Present(phys[cr3][i])
         && (forall f :: IsTable(phys, spaces, f) <==> IsTable(m0, spaces, f) || f == p / PAGE)
         && Untouched(m0, phys, spaces, [p])
    }

    /** A kernel page on a fresh frame, cleared, and that frame's address. */
    method ZeroedPage() returns (physaddr: word)
      requires Valid() && 0 < top && endMapped + PAGE < WINDOW
      modifies this`phys, this`top, this`endMapped
      ensures Valid() && endMapped == old(endMapped) + PAGE
      ensures FrameAddress(physaddr) && Pool() + [physaddr] == old(Pool()) && physaddr !in Pool()
      ensures Mapping(old(phys), phys, spaces, cr3, old(endMapped) / PAGE, [Entry(physaddr, 3)], 0, [])
      ensures forall c :: c in spaces ==> phys[c] == old(phys)[c]
      ensures forall f :: IsTable(phys, spaces, f) == IsTable(old(phys), spaces, f)
      ensures !IsTable(phys, spaces, physaddr / PAGE)
      ensures forall k :: 0 <= k < WORDS ==> !Present(phys[physaddr / PAGE][k])
      ensures forall f :: 0 <= f < FRAMES && !IsTable(old(phys), spaces, f) && f != physaddr / PAGE ==> phys[f] == old(phys)[f]
      decreases 0, 3, 0
    {
      hide Injective, Spare, PoolOk, SpaceOk, Entry, Store, IsTable, IsMapped;
      ghost var p := Pool()[top - 1];
      NextFrame();
      var newpt := LiballocAlloc(1);
      OneTaken(old(Pool()));
      EntryParts(p, 3);
      ghost var m1 := phys;
      ZeroPage(newpt, p / PAGE);
      TablesAfterZero(m1);
      physaddr := GetPhysaddr(newpt);
      SameLookups(m1, phys, spaces);
      PoolSame(m1, phys, Pool());
      SameMapping(old(phys), m1, old(endMapped) / PAGE, [Entry(p, 3)]);
      SameTail(m1, PAGES);
    }

    lemma PoolSame(m1: Phys, m2: Phys, pool: seq<nat>)
      requires AllOk(m1, spaces) && AllOk(m2, spaces) && PoolOk(m1, spaces, pool, {})
      requires forall f :: IsTable(m2, spaces, f) == IsTable(m1, spaces, f)
      requires forall f :: IsMapped(m2, spaces, f) == IsMapped(m1, spaces, f)
      ensures PoolOk(m2, spaces, pool, {})
    {
      hide IsTable, IsMapped, SpaceOk;
      forall k | 0 <= k < |pool| ensures Spare(m2, spaces, {}, pool[k] / PAGE) {
        assert Spare(m1, spaces, {}, pool[k] / PAGE);
      }
    }

    /** Creates the page table for an empty user slot. */
    method AddTable(pdindex: nat)
      requires Valid() && pdindex < KERNEL_SLOT && !Present(phys[cr3][pdindex])
      requires 0 < top && endMapped + PAGE < WINDOW
      modifies this`phys, this`top, this`endMapped
      ensures Valid() && TableAdded(old(phys), old(Pool()), old(endMapped), pdindex)
      decreases 0, 4, 0
    {
      hide Injective, Spare, PoolOk, SpaceOk, Entry, Store, IsTable, IsMapped, Lookup, Mapping, Untouched;
      var physaddr := ZeroedPage();
      ghost var m1 := phys;
      assert SpaceOk(phys, cr3);
      DirectoryWindow(phys, cr3, pdindex);
      NewTableEntry(physaddr);
      StoreTable(phys, spaces, cr3, pdindex, physaddr / PAGE, physaddr + 7);
      TablesAfterStore(phys, spaces, cr3, pdindex, physaddr + 7);
      WriteWord(DIRECTORY + 4 * pdindex, physaddr + 7);
      SameLookups(m1, phys, spaces);
      PoolAfterTable(m1, phys, Pool(), physaddr);
      SameMapping(old(phys), m1, old(endMapped) / PAGE, [Entry(physaddr, 3)]);
      SameTail(m1, PAGES);
      HookUntouched(old(phys), m1, physaddr);
    }

    /** Clearing a frame and hooking it in as a table writes that frame and a directory. */
    lemma HookUntouched(m0: Phys, m1: Phys, p: nat)
      requires AllOk(m0, spaces) && AllOk(m1, spaces) && AllOk(phys, spaces) && FrameAddress(p) && cr3 in spaces
      requires forall f :: 0 <= f < FRAMES && !IsTable(m0, spaces, f) && f != p / PAGE ==> m1[f] == m0[f]
      requires forall f :: 0 <= f < FRAMES && f != cr3 ==> phys[f] == m1[f]
      ensures Untouched(m0, phys, spaces, [p])
    {
      hide SpaceOk;
      assert IsTable(m0, spaces, cr3);
      assert p / PAGE * PAGE == p;
    }

    lemma NextFrame()
      requires Base() && 0 < top
      ensures var p := Pool()[top - 1];
              FrameAddress(p) && !IsTable(phys, spaces, p / PAGE) && !IsMapped(phys, spaces, p / PAGE)
              && Pool() == Pool()[..top - 1] + [p] && p !in Pool()[..top - 1]
    {
      hide Injective, SpaceOk;
      assert Spare(phys, spaces, {}, Pool()[top - 1] / PAGE);
    }

    lemma TablesAfterZero(m1: Phys)
      requires AllOk(m1, spaces) && AllOk(phys, spaces) && forall c :: c in spaces ==> phys[c] == m1[c]
      ensures forall f :: IsTable(phys, spaces, f) == IsTable(m1, spaces, f)
    {
      forall f ensures IsTable(phys, spaces, f) == IsTable(m1, spaces, f) {
        SameTables(m1, phys, spaces, f);
      }
    }

    /** The pool stays sound when a frame that is not in it becomes a table. */
    lemma PoolAfterTable(m1: Phys, m2: Phys, pool: seq<nat>, p: nat)
      requires AllOk(m1, spaces) && AllOk(m2, spaces) && PoolOk(m1, spaces, pool, {}) && FrameAddress(p) && p !in pool
      requires forall f :: IsTable(m2, spaces, f) <==> IsTable(m1, spaces, f) || f == p / PAGE
      requires forall f :: IsMapped(m2, spaces, f) == IsMapped(m1, spaces, f)
      ensures PoolOk(m2, spaces, pool, {})
    {
      hide IsTable, IsMapped, SpaceOk;
      forall k | 0 <= k < |pool| ensures Spare(m2, spaces, {}, pool[k] / PAGE) {
        assert Spare(m1, spaces, {}, pool[k] / PAGE);
        assert pool[k] != p && pool[k] / PAGE * PAGE == pool[k] && p / PAGE * PAGE == p;
      }
    }

    lemma SameMapping(m0: Phys, m1: Phys, lo: nat, es: seq<word>)
      requires AllOk(m0, spaces) && AllOk(m1, spaces) && AllOk(phys, spaces) && cr3 in spaces
      requires Mapping(m0, m1, spaces, cr3, lo, es, 0, [])
      requires forall c, v :: c in spaces && 0 <= v < PAGES ==> Lookup(phys, c, v) == Lookup(m1, c, v)
      ensures Mapping(m0, phys, spaces, cr3, lo, es, 0, [])
    {
      hide Lookup, SpaceOk;
    }

    lemma SameTail(m1: Phys, hole: nat)
      requires Core() && AllOk(m1, spaces)
      requires forall c, v :: c in spaces && 0 <= v < PAGES ==> Lookup(phys, c, v) == Lookup(m1, c, v)
      requires forall c, v :: c in spaces && endMapped / PAGE <= v < PAGES && v != hole ==> Lookup(m1, c, v) == None
      ensures TailFree(hole)
    {
      hide Lookup, SpaceOk, Injective;
    }

    lemma StillInHand(m0: Phys, pool0: seq<nat>, end0: nat, i: nat, physaddr: nat)
      requires Core() && AllOk(m0, spaces) && top <= stack.Length && i < SELF_SLOT
      requires TableAdded(m0, pool0, end0, i)
      requires FrameAddress(physaddr) && Spare(m0, spaces, {}, physaddr / PAGE) && physaddr !in pool0
      ensures InHand(physaddr)
    {
      hide Lookup, SpaceOk, IsTable, Injective, Entry;
      var p := pool0[|pool0| - 1];
      assert p in pool0 && p != physaddr;
      assert p / PAGE * PAGE == p && physaddr / PAGE * PAGE == physaddr;
      EntryParts(p, 3);
      forall d, v | d in spaces && 0 <= v < PAGES ensures !Uses(phys, d, v, physaddr / PAGE) {
        assert !Uses(m0, d, v, physaddr / PAGE);
      }
      forall x | x in Pool() ensures x in pool0 {
        assert pool0 == Pool() + [p];
      }
    }

    lemma WordWritten(p: nat, va: word, flags: nat)
      requires AllOk(phys, spaces) && cr3 in spaces && va < WINDOW && FrameAddress(p)
      requires Lookup(phys, cr3, va / PAGE) == Some(Entry(p, flags))
      ensures flags % 8 == 7 && va < KERNEL_START ==> UserWritable(phys, cr3, va / PAGE)
      ensures var pte := phys[FrameOf(phys[cr3][va / PAGE / WORDS])][va / PAGE % WORDS];
              pte % 2 == 1 && pte / 2 % 2048 == flags / 2 % 2048 && pte / 4096 == p / 4096
    {
      hide Entry;
      EntryBits(p, flags);
      if flags % 8 == 7 && va < KERNEL_START { MappedWritable(phys, spaces, cr3, va / PAGE, p, flags); }
    }

    lemma ThenKept(m0: Phys, m1: Phys, p: nat)
      requires AllOk(m0, spaces) && AllOk(m1, spaces) && AllOk(phys, spaces) && FrameAddress(p)
      requires Untouched(m0, m1, spaces, [p]) && DataKept(m1, phys, spaces)
      requires forall f :: IsTable(m1, spaces, f) <==> IsTable(m0, spaces, f) || f == p / PAGE
      ensures Untouched(m0, phys, spaces, [p])
    {
      hide SpaceOk, IsTable;
      assert p / PAGE * PAGE == p;
    }

    /** vmm_map_page: maps `va` to the frame at `physaddr`, creating the page table if the slot is empty. */
    method MapPage(physaddr: word, va: word, flags: nat, overwrite: bool) returns (r: int)
      requires Base() && InHand(physaddr) && va < WINDOW
      requires !Present(phys[cr3][va / PAGE / WORDS]) ==> TailFree(PAGES) && 0 < top && endMapped + PAGE < WINDOW
      modifies this`phys, this`top, this`endMapped
      ensures Base() && Present(phys[cr3][va / PAGE / WORDS])
      ensures r == if Lookup(old(phys), cr3, va / PAGE).Some? && !overwrite then -1 else 0
      ensures r != 0 ==> phys == old(phys) && Pool() == old(Pool()) && endMapped == old(endMapped)
      ensures r == 0 && old(Present(phys[cr3][va / PAGE / WORDS])) ==>
                && Mapping(old(phys), phys, spaces, cr3, va / PAGE, [Entry(physaddr, flags)], 0, [])
                && Pool() == old(Pool()) && endMapped == old(endMapped)
                && (forall c :: c in spaces ==> phys[c] == old(phys)[c])
                && (forall f :: IsTable(phys, spaces, f) == IsTable(old(phys), spaces, f))
                && DataKept(old(phys), phys, spaces)
      ensures r == 0 && !old(Present(phys[cr3][va / PAGE / WORDS])) ==>
                var p := old(Pool())[|old(Pool())| - 1];
                && FrameAddress(p) && Pool() + [p] == old(Pool()) && endMapped == old(endMapped) + PAGE
                && Mapping(old(phys), phys, spaces, cr3, va / PAGE, [Entry(physaddr, flags)], old(endMapped) / PAGE, [Entry(p, 3)])
                && (forall f :: IsTable(phys, spaces, f) <==> IsTable(old(phys), spaces, f) || f == p / PAGE)
                && Untouched(old(phys), phys, spaces, [p])
      ensures r == 0 && flags % 8 == 7 && va < KERNEL_START ==> UserWritable(phys, cr3, va / PAGE)
      ensures r == 0 ==>
                var pte := phys[FrameOf(phys[cr3][va / PAGE / WORDS])][va / PAGE % WORDS];
                pte % 2 == 1 && pte / 2 % 2048 == flags / 2 % 2048 && pte / 4096 == physaddr / 4096
      decreases if Present(phys[cr3][va / PAGE / WORDS]) then 0 else 1, 0, 0
    {
      hide Injective, Spare, PoolOk, SpaceOk, Entry, DataKept, Untouched;
      var pdindex := va / 0x40_0000;
      assert SpaceOk(phys, cr3);
      assert va / PAGE / WORDS == pdindex;
      DirectoryWindow(phys, cr3, pdindex);
      if ReadWord(DIRECTORY + 4 * pdindex) % 2 == 0 {
        EmptySlotIsUser(phys, spaces, cr3, pdindex);
        AddTable(pdindex);
        StillInHand(old(phys), old(Pool()), old(endMapped), pdindex, physaddr);
        ghost var m1 := phys;
        r := MapPresent(physaddr, va, flags, overwrite);
        ThenKept(old(phys), m1, old(Pool())[|old(Pool())| - 1]);
      } else {
        r := MapPresent(physaddr, va, flags, overwrite);
      }
      if r == 0 { WordWritten(physaddr, va, flags); }
    }

    /** vmm_map_pages_k: maps a run of frames at the end of kernel memory. */
    method MapPagesK(pages: array<nat>, pagecount: nat) returns (startblock: nat)
      requires Valid() && pages != stack && pagecount <= pages.Length
      requires forall i :: 0 <= i < pagecount ==> InHand(pages[i])
      requires Distinct(pages[..pagecount])
      requires endMapped + pagecount * PAGE < WINDOW
      modifies this`phys, this`top, this`endMapped
      ensures Valid() && startblock == old(endMapped) && endMapped == startblock + pagecount * PAGE
      ensures forall i :: 0 <= i < pagecount ==> FrameAddress(pages[i])
      ensures Mapping(old(phys), phys, spaces, cr3, startblock / PAGE, Entries(pages[..pagecount], 3), 0, [])
      ensures Pool() == old(Pool()) && (forall c :: c in spaces ==> phys[c] == old(phys)[c])
      ensures forall f :: IsTable(phys, spaces, f) == IsTable(old(phys), spaces, f)
      ensures DataKept(old(phys), phys, spaces)
      decreases 0, 1, pagecount
    {
      hide Injective, Spare, PoolOk, SpaceOk, Entry, IsTable, IsMapped, Lookup, DataKept;
      startblock := endMapped;
      SameData(phys);
      MappingNothing(phys, spaces, cr3, startblock / PAGE, 0);
      var i := 0;
      while i < pagecount
        invariant 0 <= i <= pagecount && Valid() && endMapped == startblock + i * PAGE
        invariant forall j :: 0 <= j < pagecount ==> FrameAddress(pages[j])
        invariant Mapping(old(phys), phys, spaces, cr3, startblock / PAGE, Entries(pages[..i], 3), 0, [])
        invariant forall j :: i <= j < pagecount ==> InHand(pages[j])
        invariant Pool() == old(Pool()) && (forall c :: c in spaces ==> phys[c] == old(phys)[c])
        invariant forall f :: IsTable(phys, spaces, f) == IsTable(old(phys), spaces, f)
        invariant DataKept(old(phys), phys, spaces)
      {
        ghost var m1 := phys;
        MapNextK(pages[i]);
        DataKeptTwice(old(phys), m1, phys, spaces);
        OthersInHand(m1, pages[..pagecount], i, (endMapped - PAGE) / PAGE);
        MappingAppend(old(phys), m1, phys, spaces, cr3, startblock / PAGE, Entries(pages[..i], 3), [Entry(pages[i], 3)], 0, [], []);
        EntriesAppend(pages[..i], pages[i], 3);
        assert pages[..i + 1] == pages[..i] + [pages[i]];
        i := i + 1;
      }
    }

    /** One turn of that loop. */
    method MapNextK(p: nat)
      requires Valid() && InHand(p) && endMapped + PAGE < WINDOW
      modifies this`phys, this`top, this`endMapped
      ensures Valid() && endMapped == old(endMapped) + PAGE && FrameAddress(p)
      ensures Mapping(old(phys), phys, spaces, cr3, old(endMapped) / PAGE, [Entry(p, 3)], 0, [])
      ensures Pool() == old(Pool()) && (forall c :: c in spaces ==> phys[c] == old(phys)[c])
      ensures forall f :: IsTable(phys, spaces, f) == IsTable(old(phys), spaces, f)
      ensures DataKept(old(phys), phys, spaces)
      decreases 0, 0, 1
    {
      hide Injective, Spare, PoolOk, SpaceOk, Entry, IsTable, IsMapped, Lookup, DataKept;
      KernelSlot(endMapped);
      var r := MapPage(p, endMapped, 3, false);
      assert r != -1; // so a run of pages is never cut short
      TailAfter(old(phys), Entry(p, 3));
      endMapped := endMapped + PAGE;
    }

    lemma KernelSlot(va: nat)
      requires Core() && TailFree(PAGES) && va == endMapped
      ensures va / PAGE / WORDS < SELF_SLOT && Present(phys[cr3][va / PAGE / WORDS])
      ensures Lookup(phys, cr3, va / PAGE) == None
    {
      assert SpaceOk(phys, cr3);
    }

    /** Frames still to be mapped stay spare when another one is mapped. */
    lemma OthersInHand(m1: Phys, ps: seq<nat>, i: nat, vpn: nat)
      requires Core() && AllOk(m1, spaces) && top <= stack.Length && i < |ps| && Distinct(ps)
      requires FrameAddress(ps[i]) && Mapping(m1, phys, spaces, cr3, vpn, [Entry(ps[i], 3)], 0, [])
      requires forall f :: IsTable(phys, spaces, f) == IsTable(m1, spaces, f)
      requires forall j :: i <= j < |ps| ==> FrameAddress(ps[j]) && Spare(m1, spaces, {}, ps[j] / PAGE) && ps[j] !in Pool()
      ensures forall j :: i < j < |ps| ==> InHand(ps[j])
    {
      hide Spare, SpaceOk, Injective, IsTable, IsMapped, Entry, Lookup, Mapping;
      EntryParts(ps[i], 3);
      forall j | i < j < |ps| ensures InHand(ps[j]) {
        assert ps[i] / PAGE * PAGE == ps[i] && ps[j] / PAGE * PAGE == ps[j] && ps[i] != ps[j];
        MappingKeepsSpare(m1, phys, spaces, cr3, vpn, Entry(ps[i], 3), ps[j] / PAGE);
      }
    }

    lemma TailAfter(m1: Phys, e: word)
      requires Core() && AllOk(m1, spaces)
      requires Mapping(m1, phys, spaces, cr3, endMapped / PAGE, [e], 0, [])
      requires forall c, v :: c in spaces && endMapped / PAGE <= v < PAGES ==> Lookup(m1, c, v) == None
      ensures forall c, v :: c in spaces && endMapped / PAGE + 1 <= v < PAGES ==> Lookup(phys, c, v) == None
    {
      hide Lookup, SpaceOk, Injective;
    }

    /** liballoc_alloc: `pages` consecutive kernel pages on as many frames from the stack; 0 for no pages. */
    method LiballocAlloc(pages: nat) returns (start: nat)
      requires Valid() && pages <= top && endMapped + pages * PAGE < WINDOW
      modifies this`phys, this`top, this`endMapped
      ensures Valid() && start == if pages == 0 then 0 else old(endMapped)
      ensures endMapped == old(endMapped) + pages * PAGE && top == old(top) - pages
      ensures KernelRun(old(phys), phys, spaces, cr3, old(Pool()), Pool(), old(endMapped), pages)
      decreases 0, 2, pages
    {
      hide Injective, Spare, PoolOk, SpaceOk, Entry, IsTable, IsMapped, Lookup, KernelRun;
      if pages > 1024 {
        start := LiballocAlloc(1024);
        var i := 0;
        while i < pages / 1024 - 1
          invariant 0 <= i <= pages / 1024 - 1 && Valid() && endMapped == old(endMapped) + (i + 1) * 1024 * PAGE
          invariant top == old(top) - (i + 1) * 1024
          invariant KernelRun(old(phys), phys, spaces, cr3, old(Pool()), Pool(), old(endMapped), (i + 1) * 1024)
        {
          ghost var m1, pool1 := phys, Pool();
          var _ := LiballocAlloc(1024);
          KernelRunAppend(old(phys), m1, phys, spaces, cr3, old(Pool()), pool1, Pool(), old(endMapped), (i + 1) * 1024, 1024);
          i := i + 1;
        }
        ghost var m1, pool1 := phys, Pool();
        var _ := LiballocAlloc(pages % 1024);
        KernelRunAppend(old(phys), m1, phys, spaces, cr3, old(Pool()), pool1, Pool(), old(endMapped), (i + 1) * 1024, pages % 1024);
        return;
      }
      if pages < 1 {
        KernelRunEmpty(phys, spaces, cr3, Pool(), endMapped);
        return 0;
      }
      var addr := TakeFrames(pages);
      start := MapPagesK(addr, pages);
      RunOfTaken(old(phys), old(Pool()), addr[..pages], old(endMapped));
    }

    lemma RunOfTaken(m0: Phys, pool0: seq<nat>, ps: seq<nat>, end0: nat)
      requires AllOk(m0, spaces) && AllOk(phys, spaces) && |ps| <= |pool0| && top <= stack.Length
      requires ps == Taken(pool0, |ps|) && Pool() == pool0[..|pool0| - |ps|]
      requires forall i :: 0 <= i < |ps| ==> FrameAddress(ps[i])
      requires Mapping(m0, phys, spaces, cr3, end0 / PAGE, Entries(ps, 3), 0, [])
      requires forall c :: c in spaces ==> phys[c] == m0[c]
      requires forall f :: IsTable(phys, spaces, f) == IsTable(m0, spaces, f)
      requires DataKept(m0, phys, spaces)
      ensures KernelRun(m0, phys, spaces, cr3, pool0, Pool(), end0, |ps|)
    {
    }

    /** Pops `pages` frames into a local array of 1024. */
    method TakeFrames(pages: nat) returns (addr: array<nat>)
      requires Valid() && 1 <= pages <= 1024 && pages <= top
      modifies this`top
      ensures fresh(addr) && addr.Length == 1024 && Valid() && top == old(top) - pages
      ensures addr[..pages] == Taken(old(Pool()), pages) && Pool() == old(Pool())[..|old(Pool())| - pages]
      ensures forall j :: 0 <= j < pages ==> InHand(addr[j])
      ensures Distinct(addr[..pages])
    {
      hide Injective, Spare, SpaceOk, IsTable, IsMapped, Lookup;
      addr := new nat[1024];
      var i := 0;
      while i < pages
        invariant 0 <= i <= pages && Base() && top == old(top) - i
        invariant Pool() == old(Pool())[..|old(Pool())| - i]
        invariant forall j :: 0 <= j < i ==> addr[j] == old(Pool())[|old(Pool())| - 1 - j]
      {
        addr[i] := AllocFrame({});
        i := i + 1;
      }
      TakenInHand(old(Pool()), addr[..pages]);
    }

    lemma TakenInHand(pool0: seq<nat>, ps: seq<nat>)
      requires AllOk(phys, spaces) && top <= stack.Length && PoolOk(phys, spaces, pool0, {})
      requires |ps| <= |pool0| && Pool() == pool0[..|pool0| - |ps|]
      requires forall j :: 0 <= j < |ps| ==> ps[j] == pool0[|pool0| - 1 - j]
      ensures ps == Taken(pool0, |ps|) && Distinct(ps)
      ensures forall j :: 0 <= j < |ps| ==> InHand(ps[j])
    {
      hide Spare, SpaceOk;
    }

    /** Gives the frame of a page back and unmaps the page; false when nothing was mapped there. */
    method ReleasePage(va: word, ghost x: set<nat>) returns (done: bool)
      requires BaseBut(x) && va < WINDOW && va % PAGE == 0 && !Linear(va / PAGE)
      requires forall f :: MapsTo(phys, cr3, va / PAGE, f) ==> 0 < f && (IsTable(phys, spaces, f) ==> f in x)
      modifies this`phys, this`top, stack
      ensures BaseBut(x) && Gone(old(phys), phys, spaces, cr3, va / PAGE, 1)
      ensures done == Lookup(old(phys), cr3, va / PAGE).Some?
      ensures Pool() == old(Pool()) + (if done then [FrameOf(Lookup(old(phys), cr3, va / PAGE).value) * PAGE] else [])
    {
      hide Injective, Spare, SpaceOk, IsTable, IsMapped, Lookup, Gone, PoolOk;
      var physaddr := GetPhysaddr(va);
      FrameFound(va, physaddr);
      if physaddr == 0 {
        UnmapNothing(va / PAGE);
        return false;
      }
      PushAndUnmap(va, physaddr - physaddr % PAGE, x);
      done := true;
    }

    /** No address is found exactly if no page is mapped. */
    lemma FrameFound(va: word, p: word)
      requires AllOk(phys, spaces) && cr3 in spaces && va < WINDOW && va % PAGE == 0
      requires forall f :: MapsTo(phys, cr3, va / PAGE, f) ==> 0 < f
      requires p == match Lookup(phys, cr3, va / PAGE) case None => 0 case Some(e) => FrameOf(e) * PAGE + va % PAGE
      ensures p == 0 <==> Lookup(phys, cr3, va / PAGE) == None
      ensures p != 0 ==> p - p % PAGE == FrameOf(Lookup(phys, cr3, va / PAGE).value) * PAGE
    {
      hide Lookup, SpaceOk;
      var l := Lookup(phys, cr3, va / PAGE);
      if l.Some? {
        assert MapsTo(phys, cr3, va / PAGE, FrameOf(l.value));
      }
    }

    method PushAndUnmap(va: word, p: nat, ghost x: set<nat>)
      requires BaseBut(x) && va < WINDOW && va % PAGE == 0 && !Linear(va / PAGE)
      requires Lookup(phys, cr3, va / PAGE).Some? && p == FrameOf(Lookup(phys, cr3, va / PAGE).value) * PAGE
      requires forall f :: MapsTo(phys, cr3, va / PAGE, f) ==> 0 < f && (IsTable(phys, spaces, f) ==> f in x)
      modifies this`phys, this`top, stack
      ensures BaseBut(x) && Gone(old(phys), phys, spaces, cr3, va / PAGE, 1) && Pool() == old(Pool()) + [p]
    {
      StackRoom(x);
      hide Injective, Spare, SpaceOk, IsTable, IsMapped, Lookup, Gone, PoolOk;
      ghost var f := FrameOf(Lookup(phys, cr3, va / PAGE).value);
      assert MapsTo(phys, cr3, va / PAGE, f);
      FreeFrame(p);
      var _ := UnmapPage(va);
      GoneParts(old(phys), va / PAGE, 1);
      ReleasedPool(old(phys), phys, spaces, cr3, va / PAGE, f, old(Pool()), x);
    }

    /** There is always room for one more frame. */
    lemma StackRoom(x: set<nat>)
      requires BaseBut(x)
      ensures top < stack.Length
    {
      hide Spare, Injective;
      PoolBounded(Pool());
    }

    lemma GoneParts(m0: Phys, lo: nat, n: nat)
      requires AllOk(m0, spaces) && AllOk(phys, spaces) && Gone(m0, phys, spaces, cr3, lo, n)
      ensures Unmapping(m0, phys, spaces, cr3, lo, n) && forall f :: IsTable(phys, spaces, f) == IsTable(m0, spaces, f)
    {
    }

    lemma UnmapNothing(v: nat)
      requires AllOk(phys, spaces) && cr3 in spaces && v < PAGES && Lookup(phys, cr3, v) == None
      ensures Gone(phys, phys, spaces, cr3, v, 1)
    {
      hide IsTable;
      forall d | d in spaces && KERNEL_PAGES <= v ensures Lookup(phys, d, v) == None {
        KernelSlots(phys, spaces, d, cr3, v / WORDS);
      }
    }

    lemma StillThere(m0: Phys, lo: nat, n: nat, v: nat)
      requires AllOk(m0, spaces) && AllOk(phys, spaces) && cr3 in spaces && v == lo + n < PAGES
      requires Gone(m0, phys, spaces, cr3, lo, n)
      ensures Lookup(phys, cr3, v) == Lookup(m0, cr3, v)
      ensures forall f :: MapsTo(phys, cr3, v, f) == MapsTo(m0, cr3, v, f)
      ensures forall f :: IsTable(phys, spaces, f) == IsTable(m0, spaces, f)
    {
      hide Lookup, SpaceOk, IsTable;
    }

    /** liballoc_free: gives back a run of pages, stopping at the first one that is not mapped. */
    method LiballocFree(addr: nat, pages: nat, ghost x: set<nat>) returns (r: int, ghost k: nat)
      requires BaseBut(x) && addr % PAGE == 0 && LINEAR_END <= addr && addr + pages * PAGE <= WINDOW
      requires forall v, f :: addr / PAGE <= v < addr / PAGE + pages && v < PAGES && MapsTo(phys, cr3, v, f) ==>
                 0 < f && (IsTable(phys, spaces, f) ==> f in x)
      modifies this`phys, this`top, stack
      ensures BaseBut(x) && k <= pages && addr / PAGE + pages <= PAGES && r == if k == pages then 0 else 1
      ensures forall v :: addr / PAGE <= v < addr / PAGE + k ==> Lookup(old(phys), cr3, v).Some?
      ensures k < pages ==> Lookup(old(phys), cr3, addr / PAGE + k) == None
      ensures Gone(old(phys), phys, spaces, cr3, addr / PAGE, k)
      ensures Pool() == old(Pool()) + FramesAt(old(phys), cr3, addr / PAGE, k)
    {
      hide Injective, Spare, SpaceOk, IsTable, IsMapped, Lookup, PoolOk, Gone;
      ghost var lo := addr / PAGE;
      NothingGone(phys, spaces, cr3, lo);
      var i := 0;
      k := 0;
      while i < pages
        invariant 0 <= i == k <= pages && BaseBut(x)
        invariant forall v :: lo <= v < lo + i ==> Lookup(old(phys), cr3, v).Some?
        invariant Gone(old(phys), phys, spaces, cr3, lo, i)
        invariant Pool() == old(Pool()) + FramesAt(old(phys), cr3, lo, i)
      {
        var va := addr + i * PAGE;
        assert va / PAGE == lo + i;
        StillThere(old(phys), lo, i, lo + i);
        ghost var m1 := phys;
        var done := ReleasePage(va, x);
        GoneAppend(old(phys), m1, phys, spaces, cr3, lo, i, 1);
        if !done {
          NothingMore(old(phys), m1, lo, i);
          return 1, k;
        }
        FramesAtAppend(old(phys), cr3, lo, i);
        i, k := i + 1, k + 1;
      }
      r := 0;
    }

    lemma NothingMore(m0: Phys, m1: Phys, lo: nat, n: nat)
      requires AllOk(m0, spaces) && AllOk(m1, spaces) && AllOk(phys, spaces) && cr3 in spaces && lo + n < PAGES
      requires Gone(m0, m1, spaces, cr3, lo, n) && Gone(m0, phys, spaces, cr3, lo, n + 1)
      requires Lookup(m0, cr3, lo + n) == None
      ensures Gone(m0, phys, spaces, cr3, lo, n)
    {
      hide Lookup, SpaceOk, IsTable, DataKept;
      forall d | d in spaces && KERNEL_PAGES <= lo + n ensures Lookup(m0, d, lo + n) == None {
        SharedKernelPage(m0, d, lo + n);
      }
    }

    /** Kernel pages look the same from every space. */
    lemma SharedKernelPage(m: Phys, d: nat, v: nat)
      requires AllOk(m, spaces) && cr3 in spaces && d in spaces && KERNEL_PAGES <= v < PAGES
      ensures Lookup(m, d, v) == Lookup(m, cr3, v)
    {
      hide SpaceOk;
      KernelSlots(m, spaces, d, cr3, v / WORDS);
    }

    /** vmm_user_range_writable: may user code write every byte of the range? */
    method UserRangeWritable(va: word, size: word) returns (r: bool)
      requires AllOk(phys, spaces) && cr3 in spaces
      ensures r <==> size == 0 ||
                     (&& va + size <= KERNEL_START
                      && forall x :: va <= x < va + size ==> UserWritable(phys, cr3, x / PAGE))
    {
      hide UserWritable;
      if size == 0 {
        return true;
      }
      if va >= KERNEL_START {
        return false;
      }
      if size > KERNEL_START - va {
        return false;
      }
      var start := va - va % PAGE;
      var end := (va + size - 1) - (va + size - 1) % PAGE;
      var page := start;
      while true
        invariant start <= page <= end && page % PAGE == 0
        invariant forall x :: va <= x < va + size && x < page ==> UserWritable(phys, cr3, x / PAGE)
        decreases end - page
      {
        var w := PageWritable(page);
        ghost var first := if page < va then va else page;
        assert first / PAGE == page / PAGE;
        if !w {
          return false;
        }
        assert forall x :: page <= x < page + PAGE ==> x / PAGE == page / PAGE;
        if page == end {
          return true;
        }
        page := page + PAGE;
      }
    }

    lemma LowBits(w: word)
      requires w % 8 == 7
      ensures Present(w)
    {
      assert w == 2 * (4 * (w / 8) + 3) + 1;
    }

    method PageWritable(page: word) returns (w: bool)
      requires AllOk(phys, spaces) && cr3 in spaces && page < KERNEL_START
      ensures w == UserWritable(phys, cr3, page / PAGE)
    {
      var pdindex := page / 0x40_0000;
      var ptindex := page / 0x1000 % 0x400;
      assert SpaceOk(phys, cr3);
      DirectoryWindow(phys, cr3, pdindex);
      TableWindow(phys, cr3, pdindex, ptindex);
      PageIndices(page);
      var pde := ReadWord(DIRECTORY + 4 * pdindex);
      if pde % 8 != 7 {
        return false;
      }
      LowBits(pde);
      var pte := ReadWord(WINDOW + 0x1000 * pdindex + 4 * ptindex);
      w := pte % 8 == 7;
    }
  }
}
