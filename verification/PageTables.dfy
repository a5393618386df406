/**
 Two-level page tables of 32-bit paging, as data in physical frames. A page directory is a frame whose
 last slot points back at itself, which is how the kernel reaches every table through one fixed window.
 */
module PageTables {
  import opened Wrappers
  import opened Bytes

  const FRAMES: nat := 0x10_0000
  const WORDS: nat := 1024
  const PAGE: nat := 4096
  const WINDOW: nat := 0xFFC0_0000
  const DIRECTORY: nat := 0xFFFF_F000
  const KERNEL_SLOT: nat := 768
  const SELF_SLOT: nat := 1023
  // virtual page numbers below the recursive window
  const PAGES: nat := 1023 * 1024
  const KERNEL_PAGES: nat := 768 * 1024
  // the first 12 MiB of kernel space, which the boot code maps for good
  const LINEAR_END: nat := 0xC0C0_0000

  /** Physical memory as 2^20 frames of 1024 words. */
  type Phys = seq<seq<word>>

  ghost predicate Shaped(m: Phys) {
    |m| == FRAMES && forall f :: 0 <= f < FRAMES ==> |m[f]| == WORDS
  }

  predicate Present(e: word) { e % 2 == 1 }

  function FrameOf(e: word): (f: nat)
    ensures f < FRAMES
  {
    e / PAGE
  }

  // ---------- the hardware walk ----------

  /** Where the processor finds the word at virtual address `va`: a frame and a word index in it. */
  function Resolve(m: Phys, c: nat, va: word): Option<(nat, nat)>
    requires Shaped(m) && c < FRAMES
  {
    var pde := m[c][va / 0x40_0000];
    if !Present(pde) then None else
    var pte := m[FrameOf(pde)][va / 0x1000 % 0x400];
    if !Present(pte) then None else Some((FrameOf(pte), va % 0x1000 / 4))
  }

  /** The flat view: what page number `vpn` of address space `c` is mapped to. */
  function Lookup(m: Phys, c: nat, vpn: nat): Option<word>
    requires Shaped(m) && c < FRAMES && vpn < PAGES
  {
    var pde := m[c][vpn / WORDS];
    if !Present(pde) then None else
    var pte := m[FrameOf(pde)][vpn % WORDS];
    if !Present(pte) then None else Some(pte)
  }

  /** Two directory entries name the same table; the processor keeps flags in each separately. */
  predicate SameTable(e: word, e': word) { FrameOf(e) == FrameOf(e') }

  /** Two directory entries do not name the same table. */
  predicate ApartTables(e: word, e': word) {
    Present(e) && Present(e') ==> FrameOf(e) != FrameOf(e')
  }

  /** The three low bits: present, writable, for user code. */
  predicate UserBits(e: word) { e % 8 == 7 }

  // ---------- well-formed address spaces ----------

  ghost predicate SpaceOk(m: Phys, c: nat)
    requires Shaped(m) && c < FRAMES
  {
    && Present(m[c][SELF_SLOT]) && FrameOf(m[c][SELF_SLOT]) == c
    && (forall i :: KERNEL_SLOT <= i < SELF_SLOT ==> Present(m[c][i]))
    && (forall i :: 0 <= i < KERNEL_SLOT && Present(m[c][i]) ==> UserBits(m[c][i]))
    && (forall i, j :: 0 <= i < j < SELF_SLOT ==> ApartTables(m[c][i], m[c][j]))
  }

  /** All address spaces: kernel tables are shared by all, user tables by none, and no table is a directory. */
  ghost predicate AllOk(m: Phys, spaces: set<nat>) {
    && Shaped(m)
    && (forall c :: c in spaces ==> c < FRAMES && SpaceOk(m, c))
    && (forall c, d, i :: c in spaces && d in spaces && KERNEL_SLOT <= i < SELF_SLOT ==> SameTable(m[c][i], m[d][i]))
    && (forall c, d, i, j :: c in spaces && d in spaces && c != d && 0 <= i < KERNEL_SLOT && 0 <= j < SELF_SLOT ==>
          ApartTables(m[c][i], m[d][j]))
    && (forall c, d, i :: c in spaces && d in spaces && 0 <= i < SELF_SLOT && Present(m[c][i]) ==> FrameOf(m[c][i]) != d)
  }

  /** Frame `f` holds a page table of some address space, or is a page directory. */
  ghost predicate IsTable(m: Phys, spaces: set<nat>, f: nat)
    requires AllOk(m, spaces)
  {
    f in spaces || exists c, i :: c in spaces && 0 <= i < SELF_SLOT && Present(m[c][i]) && FrameOf(m[c][i]) == f
  }

  // ---------- the recursive window ----------

  /** Through the last slot the directory itself appears as a page of words at 0xFFFFF000. */
  lemma DirectoryWindow(m: Phys, c: nat, i: nat)
    requires Shaped(m) && c < FRAMES && SpaceOk(m, c) && i < WORDS
    ensures Resolve(m, c, DIRECTORY + 4 * i) == Some((c, i))
  {
    var va := DIRECTORY + 4 * i;
    assert va / 0x40_0000 == SELF_SLOT && va / 0x1000 % 0x400 == SELF_SLOT && va % 0x1000 / 4 == i;
  }

  /** And table `i`, if present, as the words at 0xFFC00000 + 0x1000 * i. */
  lemma TableWindow(m: Phys, c: nat, i: nat, j: nat)
    requires Shaped(m) && c < FRAMES && SpaceOk(m, c) && i < SELF_SLOT && j < WORDS
    ensures Resolve(m, c, WINDOW + 0x1000 * i + 4 * j) ==
            if Present(m[c][i]) then Some((FrameOf(m[c][i]), j)) else None
  {
    var va := WINDOW + 0x1000 * i + 4 * j;
    assert va / 0x40_0000 == SELF_SLOT;
    assert va / 0x1000 == 0xFFC00 + i && va / 0x1000 % 0x400 == i;
    assert va % 0x1000 == 4 * j;
  }

  /** Below the window the walk is the flat view. */
  lemma ResolveIsLookup(m: Phys, c: nat, va: word)
    requires Shaped(m) && c < FRAMES && va < WINDOW
    ensures va / PAGE < PAGES
    ensures Resolve(m, c, va) == match Lookup(m, c, va / PAGE)
                                 case None => None
                                 case Some(e) => Some((FrameOf(e), va % 0x1000 / 4))
  {
    assert va / 0x40_0000 == va / PAGE / WORDS;
  }

  // ---------- single stores ----------

  function Store(m: Phys, f: nat, i: nat, w: word): (r: Phys)
    requires Shaped(m) && f < FRAMES && i < WORDS
    ensures Shaped(r)
    ensures r[f] == m[f][i := w]
    ensures forall g :: 0 <= g < FRAMES && g != f ==> r[g] == m[g]
  {
    var row: seq<word> := m[f][i := w];
    m[f := row]
  }

  /** A store to a frame that is no directory keeps all address spaces well formed. */
  lemma StoreKeepsSpaces(m: Phys, spaces: set<nat>, f: nat, i: nat, w: word)
    requires AllOk(m, spaces) && f < FRAMES && i < WORDS && f !in spaces
    ensures AllOk(Store(m, f, i, w), spaces)
    ensures forall c :: c in spaces ==> Store(m, f, i, w)[c] == m[c]
  {
    hide Store;
    var r := Store(m, f, i, w);
    assert forall c :: c in spaces ==> r[c] == m[c];
    forall c | c in spaces ensures SpaceOk(r, c) {
      assert SpaceOk(m, c);
    }
  }

  /** A store to a data frame changes no translation at all. */
  lemma StoreData(m: Phys, spaces: set<nat>, f: nat, i: nat, w: word)
    requires AllOk(m, spaces) && f < FRAMES && i < WORDS && !IsTable(m, spaces, f)
    ensures AllOk(Store(m, f, i, w), spaces)
    ensures forall c, vpn :: c in spaces && 0 <= vpn < PAGES ==> Lookup(Store(m, f, i, w), c, vpn) == Lookup(m, c, vpn)
  {
    hide Store, SpaceOk;
    StoreKeepsSpaces(m, spaces, f, i, w);
  }

  /** Does a store to the entry of `vpn` in space `c` concern page `v` of space `d`? Kernel pages are shared. */
  predicate SamePage(c: nat, vpn: nat, d: nat, v: nat) {
    v == vpn && (d == c || KERNEL_PAGES <= vpn)
  }

  /** A kernel slot is filled in every space, with the same table. */
  lemma KernelSlots(m: Phys, spaces: set<nat>, c: nat, d: nat, i: nat)
    requires AllOk(m, spaces) && c in spaces && d in spaces && KERNEL_SLOT <= i < SELF_SLOT
    ensures Present(m[c][i]) && Present(m[d][i]) && FrameOf(m[c][i]) == FrameOf(m[d][i])
  {
    assert SpaceOk(m, c) && SpaceOk(m, d) && SameTable(m[c][i], m[d][i]);
  }

  lemma WhoseTable(m: Phys, spaces: set<nat>, c: nat, i: nat, d: nat, j: nat)
    requires AllOk(m, spaces) && c in spaces && d in spaces && i < SELF_SLOT && j < SELF_SLOT
    requires Present(m[c][i]) && Present(m[d][j])
    ensures FrameOf(m[c][i]) == FrameOf(m[d][j]) <==> i == j && (c == d || KERNEL_SLOT <= i)
  {
    assert SpaceOk(m, c) && SpaceOk(m, d);
    if KERNEL_SLOT <= i {
      assert SameTable(m[c][i], m[d][i]);
    }
  }

  /** A store to one page-table entry changes exactly one page of the flat view. */
  lemma StoreEntry(m: Phys, spaces: set<nat>, c: nat, vpn: nat, w: word)
    requires AllOk(m, spaces) && c in spaces && vpn < PAGES && Present(m[c][vpn / WORDS])
    ensures var r := Store(m, FrameOf(m[c][vpn / WORDS]), vpn % WORDS, w);
            && AllOk(r, spaces)
            && (forall d :: d in spaces ==> r[d] == m[d])
            && (forall d, v :: d in spaces && 0 <= v < PAGES ==>
                  Lookup(r, d, v) == if SamePage(c, vpn, d, v) then (if Present(w) then Some(w) else None) else Lookup(m, d, v))
  {
    hide Store, SpaceOk;
    var t := FrameOf(m[c][vpn / WORDS]);
    var r := Store(m, t, vpn % WORDS, w);
    StoreKeepsSpaces(m, spaces, t, vpn % WORDS, w);
    forall d, v | d in spaces && 0 <= v < PAGES
      ensures Lookup(r, d, v) == if SamePage(c, vpn, d, v) then (if Present(w) then Some(w) else None) else Lookup(m, d, v)
    {
      if KERNEL_PAGES <= v {
        KernelSlots(m, spaces, c, d, v / WORDS);
      }
      if Present(m[d][v / WORDS]) {
        WhoseTable(m, spaces, c, vpn / WORDS, d, v / WORDS);
      }
    }
  }

  /** Hooking an empty table into a free user slot changes no translation. */
  lemma StoreTable(m: Phys, spaces: set<nat>, c: nat, i: nat, f: nat, w: word)
    requires AllOk(m, spaces) && c in spaces && i < KERNEL_SLOT && !Present(m[c][i])
    requires f < FRAMES && !IsTable(m, spaces, f) && (forall k :: 0 <= k < WORDS ==> !Present(m[f][k]))
    requires Present(w) && UserBits(w) && FrameOf(w) == f
    ensures AllOk(Store(m, c, i, w), spaces)
    ensures forall d, v :: d in spaces && 0 <= v < PAGES ==> Lookup(Store(m, c, i, w), d, v) == Lookup(m, d, v)
  {
    hide Store;
    var r := Store(m, c, i, w);
    forall d | d in spaces ensures SpaceOk(r, d) {
      assert SpaceOk(m, d);
    }
    StoreTableCross(m, spaces, c, i, f, w);
    forall d, v | d in spaces && 0 <= v < PAGES ensures Lookup(r, d, v) == Lookup(m, d, v) {
      if d == c && v / WORDS == i {
        assert r[f] == m[f];
      } else if Present(m[d][v / WORDS]) {
        assert FrameOf(m[d][v / WORDS]) != c;
      }
    }
  }

  lemma StoreTableCross(m: Phys, spaces: set<nat>, c: nat, i: nat, f: nat, w: word)
    requires AllOk(m, spaces) && c in spaces && i < KERNEL_SLOT && !Present(m[c][i])
    requires f < FRAMES && !IsTable(m, spaces, f) && Present(w) && FrameOf(w) == f
    ensures var r := Store(m, c, i, w);
            && (forall a, b, k :: a in spaces && b in spaces && KERNEL_SLOT <= k < SELF_SLOT ==> SameTable(r[a][k], r[b][k]))
            && (forall a, b, k, j :: a in spaces && b in spaces && a != b && 0 <= k < KERNEL_SLOT && 0 <= j < SELF_SLOT ==>
                  ApartTables(r[a][k], r[b][j]))
            && (forall a, b, k :: a in spaces && b in spaces && 0 <= k < SELF_SLOT && Present(r[a][k]) ==> FrameOf(r[a][k]) != b)
  {
    hide Store, SpaceOk;
  }

  // ---------- whose frame is it ----------

  predicate MapsTo(m: Phys, c: nat, v: nat, f: nat)
    requires Shaped(m) && c < FRAMES && v < PAGES
  {
    Lookup(m, c, v).Some? && FrameOf(Lookup(m, c, v).value) == f
  }

  /**
   Pages of the boot window. They show the first 12 MiB of physical memory, whatever the frames are used for,
   and the frame of the screen twice; nothing is ever mapped or unmapped there.
   */
  predicate Linear(v: nat) { KERNEL_PAGES <= v < LINEAR_END / PAGE }

  /** Page `v` of space `c` lies outside the boot window and is mapped to frame `f`. */
  predicate Uses(m: Phys, c: nat, v: nat, f: nat)
    requires Shaped(m) && c < FRAMES && v < PAGES
  {
    !Linear(v) && MapsTo(m, c, v, f)
  }

  ghost predicate IsMapped(m: Phys, spaces: set<nat>, f: nat)
    requires AllOk(m, spaces)
  {
    exists c, v :: c in spaces && 0 <= v < PAGES && Uses(m, c, v, f)
  }

  /** Frame `f` is used for nothing, except that it may hold one of the page directories `x`. */
  ghost predicate Spare(m: Phys, spaces: set<nat>, x: set<nat>, f: nat)
    requires AllOk(m, spaces)
  {
    (IsTable(m, spaces, f) ==> f in x) && !IsMapped(m, spaces, f)
  }

  /** Outside the boot window no frame is mapped at two pages. */
  ghost predicate Injective(m: Phys, spaces: set<nat>)
    requires AllOk(m, spaces)
  {
    forall c, v, d, u, f :: c in spaces && d in spaces && 0 <= v < PAGES && 0 <= u < PAGES ==>
      Uses(m, c, v, f) && Uses(m, d, u, f) ==> SamePage(c, v, d, u)
  }

  /** From page `lo` on, space `c` maps the entries `es`; from `klo` on, the kernel's shared pages map `ks`. */
  ghost predicate Mapping(m: Phys, m': Phys, spaces: set<nat>, c: nat, lo: nat, es: seq<word>, klo: nat, ks: seq<word>)
    requires AllOk(m, spaces) && AllOk(m', spaces)
  {
    forall d, v :: d in spaces && 0 <= v < PAGES ==>
      Lookup(m', d, v) == if lo <= v < lo + |es| && (d == c || KERNEL_PAGES <= v) then Some(es[v - lo])
                          else if klo <= v < klo + |ks| then Some(ks[v - klo])
                          else Lookup(m, d, v)
  }

  /** From page `lo` on, `n` pages of space `c` are not mapped any more; nothing else changed. */
  ghost predicate Unmapping(m: Phys, m': Phys, spaces: set<nat>, c: nat, lo: nat, n: nat)
    requires AllOk(m, spaces) && AllOk(m', spaces)
  {
    forall d, v :: d in spaces && 0 <= v < PAGES ==>
      Lookup(m', d, v) == if lo <= v < lo + n && (d == c || KERNEL_PAGES <= v) then None else Lookup(m, d, v)
  }

  /** StoreEntry with a present word, as a mapping. */
  lemma EntryMapped(m: Phys, spaces: set<nat>, c: nat, vpn: nat, w: word)
    requires AllOk(m, spaces) && c in spaces && vpn < PAGES && Present(m[c][vpn / WORDS]) && Present(w)
    ensures var r := Store(m, FrameOf(m[c][vpn / WORDS]), vpn % WORDS, w);
            && AllOk(r, spaces)
            && (forall d :: d in spaces ==> r[d] == m[d])
            && Mapping(m, r, spaces, c, vpn, [w], 0, [])
  {
    hide Store, SpaceOk, Lookup;
    StoreEntry(m, spaces, c, vpn, w);
  }

  /** StoreEntry with a zero word, as an unmapping. */
  lemma EntryUnmapped(m: Phys, spaces: set<nat>, c: nat, vpn: nat)
    requires AllOk(m, spaces) && c in spaces && vpn < PAGES && Present(m[c][vpn / WORDS])
    ensures var r := Store(m, FrameOf(m[c][vpn / WORDS]), vpn % WORDS, 0);
            && AllOk(r, spaces)
            && (forall d :: d in spaces ==> r[d] == m[d])
            && Unmapping(m, r, spaces, c, vpn, 1)
  {
    hide Store, SpaceOk, Lookup;
    StoreEntry(m, spaces, c, vpn, 0);
  }

  lemma UnmappingKeepsInjective(m: Phys, m': Phys, spaces: set<nat>, c: nat, lo: nat, n: nat)
    requires AllOk(m, spaces) && AllOk(m', spaces) && Injective(m, spaces)
    requires Unmapping(m, m', spaces, c, lo, n)
    ensures Injective(m', spaces)
  {
    hide Lookup, SpaceOk;
    forall a, v, d, u, f | a in spaces && d in spaces && 0 <= v < PAGES && 0 <= u < PAGES && Uses(m', a, v, f) && Uses(m', d, u, f)
      ensures SamePage(a, v, d, u)
    {
      assert Uses(m, a, v, f) && Uses(m, d, u, f);
    }
  }

  /** A page mapped to a frame that was mapped nowhere. */
  lemma MappingKeepsInjective(m: Phys, m': Phys, spaces: set<nat>, c: nat, vpn: nat, e: word)
    requires AllOk(m, spaces) && AllOk(m', spaces) && Injective(m, spaces)
    requires Mapping(m, m', spaces, c, vpn, [e], 0, []) && !IsMapped(m, spaces, FrameOf(e))
    ensures Injective(m', spaces)
  {
    hide Lookup, SpaceOk;
    forall a, v, d, u, f | a in spaces && d in spaces && 0 <= v < PAGES && 0 <= u < PAGES && Uses(m', a, v, f) && Uses(m', d, u, f)
      ensures SamePage(a, v, d, u)
    {
      if !SamePage(c, vpn, a, v) { assert Uses(m, a, v, f); }
      if !SamePage(c, vpn, d, u) { assert Uses(m, d, u, f); }
    }
  }

  /** Two runs mapped one behind the other are one run; kernel pages mapped meanwhile add up as well. */
  lemma MappingAppend(m0: Phys, m1: Phys, m2: Phys, spaces: set<nat>, c: nat, lo: nat, es: seq<word>, es': seq<word>, klo: nat, ks: seq<word>, ks': seq<word>)
    requires AllOk(m0, spaces) && AllOk(m1, spaces) && AllOk(m2, spaces)
    requires Mapping(m0, m1, spaces, c, lo, es, klo, ks)
    requires Mapping(m1, m2, spaces, c, lo + |es|, es', klo + |ks|, ks')
    requires ks' == [] || lo + |es| <= klo
    ensures Mapping(m0, m2, spaces, c, lo, es + es', klo, ks + ks')
  {
    hide Lookup, SpaceOk;
  }

  lemma MappingNothing(m: Phys, spaces: set<nat>, c: nat, lo: nat, klo: nat)
    requires AllOk(m, spaces)
    ensures Mapping(m, m, spaces, c, lo, [], klo, [])
  {
  }

  lemma EmptySlotIsUser(m: Phys, spaces: set<nat>, c: nat, i: nat)
    requires AllOk(m, spaces) && c in spaces && i <= SELF_SLOT && !Present(m[c][i])
    ensures i < KERNEL_SLOT
  {
    assert SpaceOk(m, c);
  }

  /** Same translations everywhere: the same frames are mapped, and as before only once. */
  lemma SameLookups(m: Phys, m': Phys, spaces: set<nat>)
    requires AllOk(m, spaces) && AllOk(m', spaces)
    requires forall c, v :: c in spaces && 0 <= v < PAGES ==> Lookup(m', c, v) == Lookup(m, c, v)
    ensures Injective(m, spaces) ==> Injective(m', spaces)
    ensures forall f :: IsMapped(m', spaces, f) == IsMapped(m, spaces, f)
  {
    hide Lookup, SpaceOk;
    assert forall c, v, f :: c in spaces && 0 <= v < PAGES ==> Uses(m', c, v, f) == Uses(m, c, v, f);
  }

  /** A directory slot filled with frame `f` makes that frame a table and no other. */
  lemma TablesAfterStore(m: Phys, spaces: set<nat>, c: nat, i: nat, w: word)
    requires AllOk(m, spaces) && c in spaces && i < KERNEL_SLOT && !Present(m[c][i]) && Present(w)
    requires AllOk(Store(m, c, i, w), spaces)
    ensures forall f :: IsTable(Store(m, c, i, w), spaces, f) <==> IsTable(m, spaces, f) || f == FrameOf(w)
  {
    hide Store, SpaceOk, SameTable, ApartTables;
    var r := Store(m, c, i, w);
    forall f ensures IsTable(r, spaces, f) <==> IsTable(m, spaces, f) || f == FrameOf(w) {
      if IsTable(r, spaces, f) && f !in spaces {
        var d, j :| d in spaces && 0 <= j < SELF_SLOT && Present(r[d][j]) && FrameOf(r[d][j]) == f;
        assert (d == c && j == i) || r[d][j] == m[d][j];
      }
      if IsTable(m, spaces, f) && f !in spaces {
        var d, j :| d in spaces && 0 <= j < SELF_SLOT && Present(m[d][j]) && FrameOf(m[d][j]) == f;
        assert r[d][j] == m[d][j];
      }
      assert r[c][i] == w;
    }
  }

  lemma UnmappingAppend(m0: Phys, m1: Phys, m2: Phys, spaces: set<nat>, c: nat, lo: nat, n: nat, k: nat)
    requires AllOk(m0, spaces) && AllOk(m1, spaces) && AllOk(m2, spaces)
    requires Unmapping(m0, m1, spaces, c, lo, n) && Unmapping(m1, m2, spaces, c, lo + n, k)
    ensures Unmapping(m0, m2, spaces, c, lo, n + k)
  {
    hide Lookup, SpaceOk;
  }

  lemma UnmappingPrepend(m0: Phys, m1: Phys, m2: Phys, spaces: set<nat>, c: nat, lo: nat, n: nat)
    requires AllOk(m0, spaces) && AllOk(m1, spaces) && AllOk(m2, spaces) && 0 < lo
    requires Unmapping(m0, m1, spaces, c, lo, n) && Unmapping(m1, m2, spaces, c, lo - 1, 1)
    ensures Unmapping(m0, m2, spaces, c, lo - 1, n + 1)
  {
    hide Lookup, SpaceOk;
  }

  /** Unmapping the last page of a run of user pages that was unmapped before undoes its mapping. */
  lemma MappingUndone(m0: Phys, m1: Phys, m2: Phys, spaces: set<nat>, c: nat, lo: nat, es: seq<word>, klo: nat, ks: seq<word>)
    requires AllOk(m0, spaces) && AllOk(m1, spaces) && AllOk(m2, spaces) && c in spaces && es != []
    requires Mapping(m0, m1, spaces, c, lo, es, klo, ks)
    requires lo + |es| <= KERNEL_PAGES <= klo
    requires Lookup(m0, c, lo + |es| - 1) == None
    requires Unmapping(m1, m2, spaces, c, lo + |es| - 1, 1)
    ensures Mapping(m0, m2, spaces, c, lo, es[..|es| - 1], klo, ks)
  {
    hide Lookup, SpaceOk;
  }
}
