/**
 Stacks of user threads. All threads of a process have their stack at the same addresses; each has a page table for
 them, and the scheduler hooks the one of the thread it resumes into slot 767 of the directory (vmm_switch_stack).
 The other tables are parked: no directory names them, and what they map is mapped nowhere.
 */
module StackTables {
  import opened Wrappers
  import opened Bytes
  import opened PageTables
  import opened Paging

  const STACK_SLOT: nat := 767

  predicate StackPage(v: int) { STACK_SLOT * WORDS <= v < KERNEL_PAGES }

  /** Entry `i` of the table in frame `f` is present and names frame `g`. */
  predicate Holds(m: Phys, f: nat, i: nat, g: nat)
    requires Shaped(m)
  {
    f < FRAMES && i < WORDS && Present(m[f][i]) && FrameOf(m[f][i]) == g
  }

  /** Used for nothing that is visible in a space, not free, and no parked table itself. */
  ghost predicate Hidden(m: Phys, spaces: set<nat>, pool: seq<nat>, parked: set<nat>, g: nat)
    requires AllOk(m, spaces)
  {
    !IsTable(m, spaces, g) && !IsMapped(m, spaces, g) && g * PAGE !in pool && g !in parked
  }

  ghost predicate ParkedTable(m: Phys, spaces: set<nat>, pool: seq<nat>, parked: set<nat>, f: nat)
    requires AllOk(m, spaces)
  {
    && f < FRAMES && !IsTable(m, spaces, f) && f * PAGE !in pool
    && forall i, g :: Holds(m, f, i, g) ==> Hidden(m, spaces, pool, parked, g)
  }

  /** User pages hold data, and neither tables nor directories. */
  ghost predicate UserData(m: Phys, spaces: set<nat>, parked: set<nat>, d: nat, v: nat, g: nat)
    requires AllOk(m, spaces)
  {
    d in spaces && v < KERNEL_PAGES && MapsTo(m, d, v, g) ==> !IsTable(m, spaces, g) && g !in parked
  }

  ghost predicate ParkedOk(m: Phys, spaces: set<nat>, pool: seq<nat>, parked: set<nat>)
    requires AllOk(m, spaces)
  {
    && (forall f :: f in parked ==> ParkedTable(m, spaces, pool, parked, f))
    && (forall f, i, f', i', g :: f in parked && f' in parked && Holds(m, f, i, g) && Holds(m, f', i', g) ==> f == f' && i == i')
    && (forall d, v, g :: UserData(m, spaces, parked, d, v, g))
  }

  // ---------- one store to the stack slot ----------

  /** Memory `r` is `m` with the parked table `f` hooked into the stack slot of directory `d`. */
  ghost predicate Switched(m: Phys, spaces: set<nat>, d: nat, f: nat, r: Phys) {
    && AllOk(m, spaces) && d in spaces && f < FRAMES && !IsTable(m, spaces, f) && Shaped(r)
    && Present(r[d][STACK_SLOT]) && UserBits(r[d][STACK_SLOT]) && FrameOf(r[d][STACK_SLOT]) == f
    && (forall i :: 0 <= i < WORDS && i != STACK_SLOT ==> r[d][i] == m[d][i])
    && (forall h :: 0 <= h < FRAMES && h != d ==> r[h] == m[h])
  }

  lemma SwitchSpaces(m: Phys, spaces: set<nat>, d: nat, f: nat, r: Phys)
    requires Switched(m, spaces, d, f, r)
    ensures AllOk(r, spaces)
  {
    hide FrameOf;
    forall c | c in spaces ensures SpaceOk(r, c) {
      assert SpaceOk(m, c);
    }
  }

  lemma TableBefore(m: Phys, spaces: set<nat>, d: nat, f: nat, r: Phys, h: nat)
    requires Switched(m, spaces, d, f, r) && AllOk(r, spaces) && IsTable(r, spaces, h) && h != f
    ensures IsTable(m, spaces, h) && !(Present(m[d][STACK_SLOT]) && h == FrameOf(m[d][STACK_SLOT]))
  {
    hide FrameOf, SpaceOk;
    if h !in spaces {
      var c, i :| c in spaces && 0 <= i < SELF_SLOT && Present(r[c][i]) && FrameOf(r[c][i]) == h;
      assert m[c][i] == r[c][i];
      if Present(m[d][STACK_SLOT]) { WhoseTable(m, spaces, c, i, d, STACK_SLOT); }
    }
  }

  lemma TableAfter(m: Phys, spaces: set<nat>, d: nat, f: nat, r: Phys, h: nat)
    requires Switched(m, spaces, d, f, r) && AllOk(r, spaces)
    requires h == f || (IsTable(m, spaces, h) && !(Present(m[d][STACK_SLOT]) && h == FrameOf(m[d][STACK_SLOT])))
    ensures IsTable(r, spaces, h)
  {
    hide FrameOf, SpaceOk;
    if h == f {
      assert Present(r[d][STACK_SLOT]) && FrameOf(r[d][STACK_SLOT]) == f;
    } else if h !in spaces {
      var c, i :| c in spaces && 0 <= i < SELF_SLOT && Present(m[c][i]) && FrameOf(m[c][i]) == h;
      assert r[c][i] == m[c][i];
    }
  }

  /** The table that was hooked in before is the only one that is none any more. */
  lemma SwitchTables(m: Phys, spaces: set<nat>, d: nat, f: nat, r: Phys, h: nat)
    requires Switched(m, spaces, d, f, r) && AllOk(r, spaces)
    ensures IsTable(r, spaces, h) <==>
            h == f || (IsTable(m, spaces, h) && !(Present(m[d][STACK_SLOT]) && h == FrameOf(m[d][STACK_SLOT])))
  {
    hide IsTable, Present, FrameOf, SpaceOk;
    if IsTable(r, spaces, h) && h != f { TableBefore(m, spaces, d, f, r, h); }
    if h == f || (IsTable(m, spaces, h) && !(Present(m[d][STACK_SLOT]) && h == FrameOf(m[d][STACK_SLOT]))) {
      TableAfter(m, spaces, d, f, r, h);
    }
  }

  lemma SwitchLookup(m: Phys, spaces: set<nat>, d: nat, f: nat, r: Phys)
    requires Switched(m, spaces, d, f, r) && AllOk(r, spaces)
    ensures forall c, v :: c in spaces && 0 <= v < PAGES ==>
              Lookup(r, c, v) == if c == d && StackPage(v)
                                 then (if Present(m[f][v % WORDS]) then Some(m[f][v % WORDS]) else None)
                                 else Lookup(m, c, v)
  {
    hide SpaceOk;
  }

  /** A page of `r` is one of `m`, or a stack page of `d` that the newly hooked table maps. */
  lemma SwitchUses(m: Phys, spaces: set<nat>, d: nat, f: nat, r: Phys, c: nat, v: nat, g: nat)
    requires Switched(m, spaces, d, f, r) && AllOk(r, spaces) && c in spaces && v < PAGES && Uses(r, c, v, g)
    ensures if c == d && StackPage(v) then Holds(m, f, v % WORDS, g) else Uses(m, c, v, g)
  {
    hide SpaceOk, IsTable, Lookup;
    SwitchLookup(m, spaces, d, f, r);
  }

  lemma SwitchInjective(m: Phys, spaces: set<nat>, pool: seq<nat>, parked: set<nat>, d: nat, f: nat, r: Phys)
    requires AllOk(m, spaces) && d in spaces
    requires Switched(m, spaces, d, f, r) && AllOk(r, spaces) && Injective(m, spaces)
    requires ParkedOk(m, spaces, pool, parked) && f in parked
    ensures Injective(r, spaces)
  {
    hide SpaceOk, IsTable, Lookup, Uses, Holds, Switched;
    assert ParkedTable(m, spaces, pool, parked, f);
    forall a, v, b, u, g | a in spaces && b in spaces && 0 <= v < PAGES && 0 <= u < PAGES && Uses(r, a, v, g) && Uses(r, b, u, g)
      ensures SamePage(a, v, b, u)
    {
      SwitchUses(m, spaces, d, f, r, a, v, g);
      SwitchUses(m, spaces, d, f, r, b, u, g);
      if a == d && StackPage(v) {
        assert Hidden(m, spaces, pool, parked, g);
        StackIndex(v, u);
      } else if b == d && StackPage(u) {
        assert Hidden(m, spaces, pool, parked, g);
      }
    }
  }

  lemma StackIndex(v: int, u: int)
    requires StackPage(v)
    ensures StackPage(u) && v % WORDS == u % WORDS ==> v == u
  {
  }

  lemma SwitchMapped(m: Phys, spaces: set<nat>, pool: seq<nat>, parked: set<nat>, d: nat, f: nat, r: Phys, h: nat)
    requires AllOk(m, spaces) && d in spaces
    requires Switched(m, spaces, d, f, r) && AllOk(r, spaces) && !IsMapped(m, spaces, h)
    requires forall i :: !Holds(m, f, i, h)
    ensures !IsMapped(r, spaces, h)
  {
    hide SpaceOk, IsTable, Lookup, Uses, Holds, Switched;
    forall c, v | c in spaces && 0 <= v < PAGES ensures !Uses(r, c, v, h) {
      if Uses(r, c, v, h) { SwitchUses(m, spaces, d, f, r, c, v, h); }
    }
  }

  lemma SwitchPool(m: Phys, spaces: set<nat>, pool: seq<nat>, parked: set<nat>, d: nat, f: nat, r: Phys)
    requires AllOk(m, spaces) && d in spaces
    requires Switched(m, spaces, d, f, r) && AllOk(r, spaces) && PoolOk(m, spaces, pool, {})
    requires ParkedOk(m, spaces, pool, parked) && f in parked
    ensures PoolOk(r, spaces, pool, {})
  {
    hide SpaceOk, IsTable, Lookup, Holds, Switched, IsMapped;
    assert ParkedTable(m, spaces, pool, parked, f);
    forall k | 0 <= k < |pool| ensures Spare(r, spaces, {}, pool[k] / PAGE) {
      var h := pool[k] / PAGE;
      assert h * PAGE == pool[k] && Spare(m, spaces, {}, h);
      assert pool[k] in pool;
      SwitchTables(m, spaces, d, f, r, h);
      forall i ensures !Holds(m, f, i, h) {
        assert Holds(m, f, i, h) ==> Hidden(m, spaces, pool, parked, h);
      }
      SwitchMapped(m, spaces, pool, parked, d, f, r, h);
    }
  }

  // ---------- what is parked afterwards ----------

  /** The parked tables after the switch: one less, and the one that was hooked in before. */
  function Swapped(m: Phys, parked: set<nat>, d: nat, f: nat): set<nat>
    requires Shaped(m) && d < FRAMES
  {
    parked - {f} + if Present(m[d][STACK_SLOT]) then {FrameOf(m[d][STACK_SLOT])} else {}
  }

  /** A frame that a parked or the replaced table maps is hidden after the switch. */
  lemma StaysHidden(m: Phys, spaces: set<nat>, pool: seq<nat>, parked: set<nat>, d: nat, f: nat, r: Phys, g: nat)
    requires AllOk(m, spaces) && d in spaces
    requires Switched(m, spaces, d, f, r) && AllOk(r, spaces) && f in parked
    requires Hidden(m, spaces, pool, parked, g) && forall i :: !Holds(m, f, i, g)
    ensures Hidden(r, spaces, pool, Swapped(m, parked, d, f), g)
  {
    hide SpaceOk, Lookup, Holds, IsMapped;
    SwitchTables(m, spaces, d, f, r, g);
    SwitchMapped(m, spaces, pool, parked, d, f, r, g);
    if Present(m[d][STACK_SLOT]) { assert IsTable(m, spaces, FrameOf(m[d][STACK_SLOT])); }
  }

  /** The table that is taken out of the directory, and the pages it mapped. */
  lemma OldEntries(m: Phys, spaces: set<nat>, d: nat, i: nat, g: nat)
    requires AllOk(m, spaces) && d in spaces && Present(m[d][STACK_SLOT]) && Holds(m, FrameOf(m[d][STACK_SLOT]), i, g)
    ensures var v := STACK_SLOT * WORDS + i; v < PAGES && StackPage(v) && v % WORDS == i && MapsTo(m, d, v, g) && Uses(m, d, v, g)
  {
    assert (STACK_SLOT * WORDS + i) / WORDS == STACK_SLOT && (STACK_SLOT * WORDS + i) % WORDS == i;
  }

  /** What the replaced table maps is visible nowhere once it is out of the directory. */
  lemma BecomesHidden(m: Phys, spaces: set<nat>, pool: seq<nat>, parked: set<nat>, d: nat, f: nat, r: Phys, i: nat, g: nat)
    requires AllOk(m, spaces) && d in spaces && Injective(m, spaces) && PoolOk(m, spaces, pool, {})
    requires Switched(m, spaces, d, f, r) && AllOk(r, spaces) && f in parked && ParkedOk(m, spaces, pool, parked)
    requires Present(m[d][STACK_SLOT]) && Holds(m, FrameOf(m[d][STACK_SLOT]), i, g)
    ensures Hidden(r, spaces, pool, Swapped(m, parked, d, f), g)
  {
    hide SpaceOk, Lookup, Holds, Uses, Present, FrameOf;
    var v := STACK_SLOT * WORDS + i;
    OldEntries(m, spaces, d, i, g);
    assert IsMapped(m, spaces, g);
    assert UserData(m, spaces, parked, d, v, g) && ParkedTable(m, spaces, pool, parked, f);
    SwitchTables(m, spaces, d, f, r, g);
    NotPooled(m, spaces, pool, g);
    assert IsTable(m, spaces, FrameOf(m[d][STACK_SLOT]));
    assert !Hidden(m, spaces, pool, parked, g);
    NotHeld(m, spaces, pool, parked, f, g);
    forall c, u | c in spaces && 0 <= u < PAGES ensures !Uses(r, c, u, g) {
      if Uses(r, c, u, g) {
        SwitchUses(m, spaces, d, f, r, c, u, g);
        OnlyAt(m, spaces, d, v, c, u, g);
      }
    }
  }

  lemma NotHeld(m: Phys, spaces: set<nat>, pool: seq<nat>, parked: set<nat>, f: nat, g: nat)
    requires AllOk(m, spaces) && ParkedTable(m, spaces, pool, parked, f) && !Hidden(m, spaces, pool, parked, g)
    ensures forall i :: !Holds(m, f, i, g)
  {
    hide Hidden, Holds, SpaceOk;
  }

  lemma NotPooled(m: Phys, spaces: set<nat>, pool: seq<nat>, g: nat)
    requires AllOk(m, spaces) && PoolOk(m, spaces, pool, {}) && (IsMapped(m, spaces, g) || IsTable(m, spaces, g))
    ensures g * PAGE !in pool
  {
    hide SpaceOk, IsTable, IsMapped;
    forall k | 0 <= k < |pool| ensures pool[k] != g * PAGE {
      assert Spare(m, spaces, {}, pool[k] / PAGE);
    }
  }

  lemma OnlyAt(m: Phys, spaces: set<nat>, d: nat, v: nat, c: nat, u: nat, g: nat)
    requires AllOk(m, spaces) && Injective(m, spaces) && c in spaces && d in spaces && u < PAGES && v < PAGES && StackPage(v)
    requires Uses(m, d, v, g) && Uses(m, c, u, g)
    ensures c == d && u == v
  {
    hide SpaceOk, Uses;
    assert SamePage(d, v, c, u);
  }

  /** No two entries of parked tables name the same frame after the switch either. */
  lemma OneHolder(m: Phys, spaces: set<nat>, pool: seq<nat>, parked: set<nat>, d: nat, f: nat, r: Phys,
                  a: nat, i: nat, b: nat, j: nat, g: nat)
    requires AllOk(m, spaces) && d in spaces && Injective(m, spaces)
    requires Switched(m, spaces, d, f, r) && AllOk(r, spaces) && f in parked && ParkedOk(m, spaces, pool, parked)
    requires a in Swapped(m, parked, d, f) && b in Swapped(m, parked, d, f) && Holds(r, a, i, g) && Holds(r, b, j, g)
    ensures a == b && i == j
  {
    hide SpaceOk, Lookup, IsMapped, IsTable, UserData, Injective, Uses;
    var e := m[d][STACK_SLOT];
    assert Present(e) ==> IsTable(m, spaces, FrameOf(e)) && FrameOf(e) != d by { IsSlotTable(m, spaces, d, STACK_SLOT); }
    assert forall h :: h in parked ==> ParkedTable(m, spaces, pool, parked, h);
    assert d in spaces && IsTable(m, spaces, d) by { DirectoryIsTable(m, spaces, d); }
    assert r[a] == m[a] && r[b] == m[b];
    assert Holds(m, a, i, g) && Holds(m, b, j, g);
    assert a in parked || b in parked ==> Hidden(m, spaces, pool, parked, g);
    if a !in parked && b !in parked {
      MappedEntry(m, spaces, d, i, g);
      MappedEntry(m, spaces, d, j, g);
      OnlyAt(m, spaces, d, STACK_SLOT * WORDS + i, d, STACK_SLOT * WORDS + j, g);
    } else if a !in parked {
      MappedEntry(m, spaces, d, i, g);
    } else if b !in parked {
      MappedEntry(m, spaces, d, j, g);
    }
  }

  lemma DirectoryIsTable(m: Phys, spaces: set<nat>, d: nat)
    requires AllOk(m, spaces) && d in spaces
    ensures IsTable(m, spaces, d)
  {
  }

  lemma IsSlotTable(m: Phys, spaces: set<nat>, d: nat, i: nat)
    requires AllOk(m, spaces) && d in spaces && i < SELF_SLOT
    ensures Present(m[d][i]) ==> IsTable(m, spaces, FrameOf(m[d][i])) && FrameOf(m[d][i]) != d
  {
  }

  lemma MappedEntry(m: Phys, spaces: set<nat>, d: nat, i: nat, g: nat)
    requires AllOk(m, spaces) && d in spaces && Present(m[d][STACK_SLOT]) && Holds(m, FrameOf(m[d][STACK_SLOT]), i, g)
    ensures IsMapped(m, spaces, g) && STACK_SLOT * WORDS + i < PAGES && StackPage(STACK_SLOT * WORDS + i)
    ensures Uses(m, d, STACK_SLOT * WORDS + i, g)
  {
    OldEntries(m, spaces, d, i, g);
  }

  lemma StackStays(m: Phys, spaces: set<nat>, pool: seq<nat>, parked: set<nat>, d: nat, f: nat, r: Phys, c: nat, v: nat, g: nat)
    requires AllOk(m, spaces) && d in spaces
    requires Switched(m, spaces, d, f, r) && AllOk(r, spaces) && f in parked && ParkedOk(m, spaces, pool, parked)
    ensures UserData(r, spaces, Swapped(m, parked, d, f), c, v, g)
  {
    hide SpaceOk, IsMapped, IsTable;
    if c in spaces && v < KERNEL_PAGES && MapsTo(r, c, v, g) {
      IsSlotTable(m, spaces, d, STACK_SLOT);
      SwitchTables(m, spaces, d, f, r, g);
      SwitchLookup(m, spaces, d, f, r);
      assert ParkedTable(m, spaces, pool, parked, f) && UserData(m, spaces, parked, c, v, g);
      if c == d && StackPage(v) {
        assert Holds(m, f, v % WORDS, g);
        assert Hidden(m, spaces, pool, parked, g);
      }
    }
  }

  lemma SwitchParked(m: Phys, spaces: set<nat>, pool: seq<nat>, parked: set<nat>, d: nat, f: nat, r: Phys)
    requires AllOk(m, spaces) && d in spaces && Injective(m, spaces) && PoolOk(m, spaces, pool, {})
    requires Switched(m, spaces, d, f, r) && AllOk(r, spaces) && f in parked && ParkedOk(m, spaces, pool, parked)
    ensures ParkedOk(r, spaces, pool, Swapped(m, parked, d, f))
  {
    hide SpaceOk, Lookup, IsMapped, Hidden, IsTable, PoolOk, Injective, UserData;
    var parked' := Swapped(m, parked, d, f);
    IsSlotTable(m, spaces, d, STACK_SLOT);
    forall h | h in parked' ensures ParkedTable(r, spaces, pool, parked', h) {
      if h in parked { StaysParked(m, spaces, pool, parked, d, f, r, h); } else { BecomesParked(m, spaces, pool, parked, d, f, r); }
    }
    forall a, i, b, j, g | a in parked' && b in parked' && Holds(r, a, i, g) && Holds(r, b, j, g) ensures a == b && i == j {
      OneHolder(m, spaces, pool, parked, d, f, r, a, i, b, j, g);
    }
    forall c, v, g ensures UserData(r, spaces, parked', c, v, g) {
      StackStays(m, spaces, pool, parked, d, f, r, c, v, g);
    }
  }

  lemma StaysParked(m: Phys, spaces: set<nat>, pool: seq<nat>, parked: set<nat>, d: nat, f: nat, r: Phys, h: nat)
    requires AllOk(m, spaces) && d in spaces
    requires Switched(m, spaces, d, f, r) && AllOk(r, spaces) && f in parked && ParkedOk(m, spaces, pool, parked)
    requires h in parked && h != f
    ensures ParkedTable(r, spaces, pool, Swapped(m, parked, d, f), h)
  {
    hide SpaceOk, Lookup, IsMapped, Hidden;
    assert ParkedTable(m, spaces, pool, parked, h);
    SwitchTables(m, spaces, d, f, r, h);
    assert r[h] == m[h];
    forall i, g | Holds(r, h, i, g) ensures Hidden(r, spaces, pool, Swapped(m, parked, d, f), g) {
      assert Holds(m, h, i, g);
      StaysHidden(m, spaces, pool, parked, d, f, r, g);
    }
  }

  lemma BecomesParked(m: Phys, spaces: set<nat>, pool: seq<nat>, parked: set<nat>, d: nat, f: nat, r: Phys)
    requires AllOk(m, spaces) && d in spaces && Injective(m, spaces) && PoolOk(m, spaces, pool, {})
    requires Switched(m, spaces, d, f, r) && AllOk(r, spaces) && f in parked && ParkedOk(m, spaces, pool, parked)
    requires Present(m[d][STACK_SLOT])
    ensures ParkedTable(r, spaces, pool, Swapped(m, parked, d, f), FrameOf(m[d][STACK_SLOT]))
  {
    hide SpaceOk, Lookup, IsMapped, Hidden, Present, FrameOf, ParkedTable, UserData;
    var h := FrameOf(m[d][STACK_SLOT]);
    assert IsTable(m, spaces, h) && h != d;
    NotPooled(m, spaces, pool, h);
    SwitchTables(m, spaces, d, f, r, h);
    assert r[h] == m[h];
    forall i, g | Holds(r, h, i, g) ensures Hidden(r, spaces, pool, Swapped(m, parked, d, f), g) {
      BecomesHidden(m, spaces, pool, parked, d, f, r, i, g);
    }
    NowParked(m, spaces, pool, parked, d, f, r, h);
  }

  lemma NowParked(m: Phys, spaces: set<nat>, pool: seq<nat>, parked: set<nat>, d: nat, f: nat, r: Phys, h: nat)
    requires AllOk(r, spaces) && Shaped(m) && d < FRAMES && h < FRAMES && !IsTable(r, spaces, h) && h * PAGE !in pool
    requires forall i, g :: Holds(r, h, i, g) ==> Hidden(r, spaces, pool, Swapped(m, parked, d, f), g)
    ensures ParkedTable(r, spaces, pool, Swapped(m, parked, d, f), h)
  {
  }

  // ---------- the calls ----------

  /** vmm_map_stack: a new thread's table, cleared and parked. */
  method MapStack(k: Machine, ghost parked: set<nat>) returns (stackpt: word, ghost f: nat)
    requires k.Valid() && 0 < k.top && k.endMapped + PAGE < WINDOW && ParkedOk(k.phys, k.spaces, k.Pool(), parked)
    modifies k`phys, k`top, k`endMapped
    ensures k.Valid() && stackpt == old(k.endMapped) && f !in parked
    ensures MapsTo(k.phys, k.cr3, stackpt / PAGE, f) && k.Pool() + [f * PAGE] == old(k.Pool())
    ensures ParkedOk(k.phys, k.spaces, k.Pool(), parked + {f})
  {
    hide Injective, Spare, PoolOk, SpaceOk, Entry, IsTable, IsMapped, Lookup, ParkedOk;
    ghost var m0, pool0 := k.phys, k.Pool();
    stackpt := k.endMapped;
    var physaddr := k.ZeroedPage();
    f := physaddr / PAGE;
    EntryParts(physaddr, 3);
    NewMapping(m0, k.phys, k.spaces, k.cr3, stackpt / PAGE, physaddr);
    NotParked(m0, k.spaces, pool0, parked, f);
    NewParked(m0, k.phys, k.spaces, k.cr3, stackpt / PAGE, physaddr, pool0, k.Pool(), parked);
  }

  lemma NewMapping(m0: Phys, m1: Phys, spaces: set<nat>, c: nat, v: nat, p: nat)
    requires AllOk(m0, spaces) && AllOk(m1, spaces) && c in spaces && v < PAGES && FrameAddress(p)
    requires Mapping(m0, m1, spaces, c, v, [Entry(p, 3)], 0, [])
    ensures MapsTo(m1, c, v, p / PAGE)
  {
    hide Lookup, SpaceOk, Entry;
    EntryParts(p, 3);
  }

  lemma NotParked(m: Phys, spaces: set<nat>, pool: seq<nat>, parked: set<nat>, f: nat)
    requires AllOk(m, spaces) && ParkedOk(m, spaces, pool, parked) && f * PAGE in pool
    ensures f !in parked
  {
    hide Lookup, SpaceOk, IsTable, Holds;
    assert f in parked ==> ParkedTable(m, spaces, pool, parked, f);
  }

  /** Hidden frames stay hidden when the kernel gets a page on a frame that was free. */
  lemma HiddenStays(m0: Phys, m1: Phys, spaces: set<nat>, c: nat, v: nat, p: nat, flags: nat, pool0: seq<nat>, pool1: seq<nat>, parked: set<nat>, g: nat)
    requires AllOk(m0, spaces) && AllOk(m1, spaces) && FrameAddress(p) && Mapping(m0, m1, spaces, c, v, [Entry(p, flags)], 0, [])
    requires pool0 == pool1 + [p] && IsTable(m1, spaces, g) == IsTable(m0, spaces, g)
    requires Hidden(m0, spaces, pool0, parked, g)
    ensures Hidden(m1, spaces, pool1, parked + {p / PAGE}, g)
  {
    hide Lookup, SpaceOk, IsTable, Entry;
    EntryParts(p, flags);
    assert p in pool0 && p / PAGE * PAGE == p;
    forall x | x in pool1 ensures x in pool0 { }
    forall d, u | d in spaces && 0 <= u < PAGES ensures !Uses(m1, d, u, g) {
      assert !Uses(m0, d, u, g);
    }
  }

  /** A cleared frame that was free is one more parked table. */
  lemma NewParked(m0: Phys, m1: Phys, spaces: set<nat>, c: nat, v: nat, p: nat, pool0: seq<nat>, pool1: seq<nat>, parked: set<nat>)
    requires AllOk(m0, spaces) && AllOk(m1, spaces) && c in spaces && FrameAddress(p) && ParkedOk(m0, spaces, pool0, parked)
    requires PoolOk(m0, spaces, pool0, {}) && pool0 == pool1 + [p] && p !in pool1 && KERNEL_PAGES <= v < PAGES
    requires Mapping(m0, m1, spaces, c, v, [Entry(p, 3)], 0, [])
    requires forall f :: IsTable(m1, spaces, f) == IsTable(m0, spaces, f)
    requires forall f :: 0 <= f < FRAMES && !IsTable(m0, spaces, f) && f != p / PAGE ==> m1[f] == m0[f]
    requires !IsTable(m1, spaces, p / PAGE) && forall k :: 0 <= k < WORDS ==> !Present(m1[p / PAGE][k])
    ensures ParkedOk(m1, spaces, pool1, parked + {p / PAGE})
  {
    hide Lookup, SpaceOk, IsTable, Entry, Mapping, Hidden, IsMapped, PoolOk;
    var f, parked' := p / PAGE, parked + {p / PAGE};
    assert f * PAGE == p && p in pool0;
    forall h | h in parked' ensures ParkedTable(m1, spaces, pool1, parked', h) {
      if h in parked {
        assert ParkedTable(m0, spaces, pool0, parked, h) && m1[h] == m0[h];
        forall i, g | Holds(m1, h, i, g) ensures Hidden(m1, spaces, pool1, parked', g) {
          assert Holds(m0, h, i, g);
          HiddenStays(m0, m1, spaces, c, v, p, 3, pool0, pool1, parked, g);
        }
      }
    }
    forall a, i, b, j, g | a in parked' && b in parked' && Holds(m1, a, i, g) && Holds(m1, b, j, g) ensures a == b && i == j {
      assert a != f && b != f;
      assert ParkedTable(m0, spaces, pool0, parked, a) && ParkedTable(m0, spaces, pool0, parked, b);
      assert Holds(m0, a, i, g) && Holds(m0, b, j, g);
    }
    forall d, u, g ensures UserData(m1, spaces, parked', d, u, g) {
      DataStays(m0, m1, spaces, c, v, p, pool0, parked, d, u, g);
    }
  }

  lemma DataStays(m0: Phys, m1: Phys, spaces: set<nat>, c: nat, v: nat, p: nat, pool0: seq<nat>, parked: set<nat>, d: nat, u: nat, g: nat)
    requires AllOk(m0, spaces) && AllOk(m1, spaces) && c in spaces && FrameAddress(p) && ParkedOk(m0, spaces, pool0, parked)
    requires PoolOk(m0, spaces, pool0, {}) && p in pool0 && KERNEL_PAGES <= v < PAGES
    requires Mapping(m0, m1, spaces, c, v, [Entry(p, 3)], 0, [])
    requires forall f :: IsTable(m1, spaces, f) == IsTable(m0, spaces, f)
    ensures UserData(m1, spaces, parked + {p / PAGE}, d, u, g)
  {
    hide Lookup, SpaceOk, IsTable, Entry, ParkedTable;
    if d in spaces && u < KERNEL_PAGES && MapsTo(m1, d, u, g) {
      assert MapsTo(m0, d, u, g) && UserData(m0, spaces, parked, d, u, g);
      assert Uses(m0, d, u, g) && IsMapped(m0, spaces, g);
      NotPooled(m0, spaces, pool0, g);
      assert p / PAGE * PAGE == p;
    }
  }

  /** A page fault in the stack: a frame from the stack of free ones is mapped there, and what is parked stays hidden. */
  lemma FaultKeepsParked(m0: Phys, m1: Phys, spaces: set<nat>, c: nat, v: nat, p: nat, flags: nat, pool0: seq<nat>, pool1: seq<nat>, parked: set<nat>)
    requires AllOk(m0, spaces) && AllOk(m1, spaces) && c in spaces && FrameAddress(p) && ParkedOk(m0, spaces, pool0, parked)
    requires PoolOk(m0, spaces, pool0, {}) && pool0 == pool1 + [p] && v < PAGES
    requires Mapping(m0, m1, spaces, c, v, [Entry(p, flags)], 0, []) && DataKept(m0, m1, spaces)
    requires forall f :: IsTable(m1, spaces, f) == IsTable(m0, spaces, f)
    ensures ParkedOk(m1, spaces, pool1, parked)
  {
    hide Lookup, SpaceOk, IsTable, Entry, Mapping, Hidden, IsMapped, PoolOk;
    assert p in pool0;
    assert forall h :: h in parked ==> ParkedTable(m0, spaces, pool0, parked, h) && m1[h] == m0[h];
    assert forall h, i, g :: h in parked ==> Holds(m1, h, i, g) == Holds(m0, h, i, g);
    forall h | h in parked ensures ParkedTable(m1, spaces, pool1, parked, h) {
      forall i, g | Holds(m1, h, i, g) ensures Hidden(m1, spaces, pool1, parked, g) {
        assert Holds(m0, h, i, g);
        HiddenStays(m0, m1, spaces, c, v, p, flags, pool0, pool1, parked, g);
        FewerParked(m1, spaces, pool1, parked, p / PAGE, g);
      }
    }
    forall d, u, g ensures UserData(m1, spaces, parked, d, u, g) {
      FaultData(m0, m1, spaces, c, v, p, flags, pool0, parked, d, u, g);
    }
  }

  lemma PooledSpare(m: Phys, spaces: set<nat>, pool: seq<nat>, p: nat)
    requires AllOk(m, spaces) && PoolOk(m, spaces, pool, {}) && p in pool
    ensures !IsTable(m, spaces, p / PAGE) && !IsMapped(m, spaces, p / PAGE)
  {
    hide SpaceOk, IsTable, IsMapped;
    var k :| 0 <= k < |pool| && pool[k] == p;
    assert Spare(m, spaces, {}, pool[k] / PAGE);
  }

  lemma FewerParked(m: Phys, spaces: set<nat>, pool: seq<nat>, parked: set<nat>, f: nat, g: nat)
    requires AllOk(m, spaces) && Hidden(m, spaces, pool, parked + {f}, g)
    ensures Hidden(m, spaces, pool, parked, g)
  {
  }

  lemma FaultData(m0: Phys, m1: Phys, spaces: set<nat>, c: nat, v: nat, p: nat, flags: nat, pool0: seq<nat>, parked: set<nat>, d: nat, u: nat, g: nat)
    requires AllOk(m0, spaces) && AllOk(m1, spaces) && c in spaces && FrameAddress(p) && ParkedOk(m0, spaces, pool0, parked)
    requires PoolOk(m0, spaces, pool0, {}) && p in pool0 && v < PAGES
    requires Mapping(m0, m1, spaces, c, v, [Entry(p, flags)], 0, [])
    requires forall f :: IsTable(m1, spaces, f) == IsTable(m0, spaces, f)
    ensures UserData(m1, spaces, parked, d, u, g)
  {
    hide Lookup, SpaceOk, IsTable, IsMapped, Entry, ParkedTable;
    EntryParts(p, flags);
    assert p / PAGE * PAGE == p;
    NotParked(m0, spaces, pool0, parked, p / PAGE);
    PooledSpare(m0, spaces, pool0, p);
    if d in spaces && u < KERNEL_PAGES && MapsTo(m1, d, u, g) && !(d == c && u == v) {
      assert MapsTo(m0, d, u, g) && UserData(m0, spaces, parked, d, u, g);
    }
  }

  /** Table `f` is in the stack slot of directory `d`. */
  predicate Hooked(m: Phys, d: nat, f: nat)
    requires Shaped(m) && d < FRAMES
  {
    Present(m[d][STACK_SLOT]) && FrameOf(m[d][STACK_SLOT]) == f
  }

  /** Memory `r` is `m` with another entry for the same table in the stack slot. */
  ghost predicate Rehooked(m: Phys, spaces: set<nat>, d: nat, f: nat, r: Phys) {
    && AllOk(m, spaces) && d in spaces && Hooked(m, d, f) && Shaped(r) && Hooked(r, d, f) && UserBits(r[d][STACK_SLOT])
    && (forall i :: 0 <= i < WORDS && i != STACK_SLOT ==> r[d][i] == m[d][i])
    && (forall h :: 0 <= h < FRAMES && h != d ==> r[h] == m[h])
  }

  lemma RehookedSpaces(m: Phys, spaces: set<nat>, d: nat, f: nat, r: Phys)
    requires Rehooked(m, spaces, d, f, r)
    ensures AllOk(r, spaces)
    ensures forall c, v :: c in spaces && 0 <= v < PAGES ==> Lookup(r, c, v) == Lookup(m, c, v)
    ensures forall h :: IsTable(r, spaces, h) == IsTable(m, spaces, h)
  {
    hide FrameOf, Present;
    assert forall c, i :: c in spaces && 0 <= i < WORDS ==> Present(r[c][i]) == Present(m[c][i]) && (Present(r[c][i]) ==> FrameOf(r[c][i]) == FrameOf(m[c][i]));
    forall c | c in spaces ensures SpaceOk(r, c) {
      assert SpaceOk(m, c);
    }
  }

  lemma RehookedParked(m: Phys, spaces: set<nat>, pool: seq<nat>, parked: set<nat>, d: nat, f: nat, r: Phys)
    requires AllOk(m, spaces) && Rehooked(m, spaces, d, f, r) && AllOk(r, spaces) && ParkedOk(m, spaces, pool, parked)
    requires forall c, v :: c in spaces && 0 <= v < PAGES ==> Lookup(r, c, v) == Lookup(m, c, v)
    requires forall h :: IsTable(r, spaces, h) == IsTable(m, spaces, h)
    requires forall h :: IsMapped(r, spaces, h) == IsMapped(m, spaces, h)
    ensures ParkedOk(r, spaces, pool, parked)
  {
    hide SpaceOk, Lookup, IsTable, IsMapped, Rehooked;
    assert forall h :: h in parked ==> ParkedTable(m, spaces, pool, parked, h);
    assert IsTable(m, spaces, d) && forall h :: 0 <= h < FRAMES && h != d ==> r[h] == m[h] by { RehookedElsewhere(m, spaces, d, f, r); }
    assert forall h, i, g :: h in parked ==> Holds(r, h, i, g) == Holds(m, h, i, g);
    forall h | h in parked ensures ParkedTable(r, spaces, pool, parked, h) {
      forall i, g | Holds(r, h, i, g) ensures Hidden(r, spaces, pool, parked, g) {
        assert Holds(m, h, i, g) && Hidden(m, spaces, pool, parked, g);
      }
    }
    forall c, v, g ensures UserData(r, spaces, parked, c, v, g) {
      assert UserData(m, spaces, parked, c, v, g);
    }
  }

  lemma RehookedElsewhere(m: Phys, spaces: set<nat>, d: nat, f: nat, r: Phys)
    requires Rehooked(m, spaces, d, f, r)
    ensures IsTable(m, spaces, d) && forall h :: 0 <= h < FRAMES && h != d ==> r[h] == m[h]
  {
  }

  /**
   vmm_switch_stack: `page` is where the kernel sees directory `d`, `stackpt` where it sees the thread's table, which
   is parked, or hooked in already when the thread that ran last in this process runs again.
   */
  method SwitchStack(k: Machine, d: nat, page: word, stackpt: word, ghost f: nat, ghost parked: set<nat>) returns (ghost parked': set<nat>)
    requires k.Valid() && d in k.spaces && page < WINDOW && page % PAGE == 0 && stackpt < WINDOW && stackpt % PAGE == 0
    requires MapsTo(k.phys, k.cr3, page / PAGE, d) && MapsTo(k.phys, k.cr3, stackpt / PAGE, f)
    requires f in parked || Hooked(k.phys, d, f)
    requires ParkedOk(k.phys, k.spaces, k.Pool(), parked)
    modifies k`phys
    ensures k.Valid() && Hooked(k.phys, d, f) && ParkedOk(k.phys, k.spaces, k.Pool(), parked')
    ensures if old(Hooked(k.phys, d, f)) then Rehooked(old(k.phys), k.spaces, d, f, k.phys) && parked' == parked
            else Switched(old(k.phys), k.spaces, d, f, k.phys) && parked' == Swapped(old(k.phys), parked, d, f)
  {
    hide Injective, Spare, PoolOk, SpaceOk, IsTable, IsMapped, Lookup, ParkedOk, Store;
    var physaddr := k.GetPhysaddr(stackpt);
    ghost var m := k.phys;
    assert physaddr == f * PAGE by { FrameBehind(m, k.cr3, stackpt / PAGE, f); }
    SlotAddress(m, k.cr3, page, d);
    TableWord(f);
    if f in parked { IsParked(m, k.spaces, k.Pool(), parked, f); }
    k.WriteWord(page + 4 * STACK_SLOT, physaddr + 7);
    if Hooked(m, d, f) {
      parked' := parked;
      SameHook(k, m, d, f, parked);
    } else {
      parked' := Swapped(m, parked, d, f);
      NewHook(k, m, d, f, parked);
    }
  }

  lemma SameHook(k: Machine, m: Phys, d: nat, f: nat, parked: set<nat>)
    requires AllOk(m, k.spaces) && Injective(m, k.spaces) && k.top <= k.stack.Length && k.stack.Length == MAX_PAGES && PoolOk(m, k.spaces, k.Pool(), {})
    requires k.cr3 in k.spaces && LINEAR_END <= k.endMapped < WINDOW && k.endMapped % PAGE == 0
    requires forall c, v :: c in k.spaces && k.endMapped / PAGE <= v < PAGES && v != PAGES ==> Lookup(m, c, v) == None
    requires Rehooked(m, k.spaces, d, f, k.phys) && ParkedOk(m, k.spaces, k.Pool(), parked)
    ensures k.Valid() && ParkedOk(k.phys, k.spaces, k.Pool(), parked)
  {
    hide Injective, Spare, PoolOk, SpaceOk, IsTable, IsMapped, Lookup, ParkedOk;
    RehookedSpaces(m, k.spaces, d, f, k.phys);
    SameLookups(m, k.phys, k.spaces);
    k.PoolSame(m, k.phys, k.Pool());
    RehookedParked(m, k.spaces, k.Pool(), parked, d, f, k.phys);
  }

  lemma NewHook(k: Machine, m: Phys, d: nat, f: nat, parked: set<nat>)
    requires AllOk(m, k.spaces) && Injective(m, k.spaces) && k.top <= k.stack.Length && k.stack.Length == MAX_PAGES && PoolOk(m, k.spaces, k.Pool(), {})
    requires k.cr3 in k.spaces && LINEAR_END <= k.endMapped < WINDOW && k.endMapped % PAGE == 0
    requires forall c, v :: c in k.spaces && k.endMapped / PAGE <= v < PAGES && v != PAGES ==> Lookup(m, c, v) == None
    requires Switched(m, k.spaces, d, f, k.phys) && f in parked && ParkedOk(m, k.spaces, k.Pool(), parked)
    ensures k.Valid() && ParkedOk(k.phys, k.spaces, k.Pool(), Swapped(m, parked, d, f))
  {
    hide Injective, Spare, PoolOk, SpaceOk, IsTable, IsMapped, Lookup, ParkedOk;
    SwitchSpaces(m, k.spaces, d, f, k.phys);
    SwitchInjective(m, k.spaces, k.Pool(), parked, d, f, k.phys);
    SwitchPool(m, k.spaces, k.Pool(), parked, d, f, k.phys);
    SwitchParked(m, k.spaces, k.Pool(), parked, d, f, k.phys);
    SwitchTail(k, m, d, f);
  }

  lemma IsParked(m: Phys, spaces: set<nat>, pool: seq<nat>, parked: set<nat>, f: nat)
    requires AllOk(m, spaces) && ParkedOk(m, spaces, pool, parked) && f in parked
    ensures ParkedTable(m, spaces, pool, parked, f)
  {
  }

  lemma FrameBehind(m: Phys, c: nat, v: nat, f: nat)
    requires Shaped(m) && c < FRAMES && v < PAGES && MapsTo(m, c, v, f)
    ensures Lookup(m, c, v).Some? && FrameOf(Lookup(m, c, v).value) * PAGE == f * PAGE
  {
  }

  lemma SlotAddress(m: Phys, c: nat, page: word, d: nat)
    requires Shaped(m) && c < FRAMES && page < WINDOW && page % PAGE == 0 && MapsTo(m, c, page / PAGE, d)
    ensures page + 4 * STACK_SLOT < WINDOW && Resolve(m, c, page + 4 * STACK_SLOT) == Some((d, STACK_SLOT))
  {
    var va := page + 4 * STACK_SLOT;
    assert va / PAGE == page / PAGE && va % 0x1000 / 4 == STACK_SLOT;
    ResolveIsLookup(m, c, va);
  }

  lemma TableWord(f: nat)
    requires f < FRAMES
    ensures f * PAGE + 7 < 0x1_0000_0000 && Present(f * PAGE + 7) && UserBits(f * PAGE + 7) && FrameOf(f * PAGE + 7) == f
  {
    PageAndOffset(f, 7);
  }

  lemma SwitchTail(k: Machine, m: Phys, d: nat, f: nat)
    requires k.Core() && AllOk(m, k.spaces) && d in k.spaces && Switched(m, k.spaces, d, f, k.phys)
    requires forall c, v :: c in k.spaces && k.endMapped / PAGE <= v < PAGES ==> Lookup(m, c, v) == None
    ensures k.TailFree(PAGES)
  {
    hide Lookup, SpaceOk, Injective, IsTable;
    SwitchLookup(m, k.spaces, d, f, k.phys);
  }

  /** Switching to another thread's stack and back again restores every translation. */
  lemma SwitchBack(m: Phys, spaces: set<nat>, d: nat, f: nat, r: Phys, g: nat, r': Phys)
    requires AllOk(m, spaces) && AllOk(r, spaces) && AllOk(r', spaces) && d in spaces
    requires Present(m[d][STACK_SLOT]) && FrameOf(m[d][STACK_SLOT]) == g
    requires Switched(m, spaces, d, f, r) && Switched(r, spaces, d, g, r')
    ensures forall c, v :: c in spaces && 0 <= v < PAGES ==> Lookup(r', c, v) == Lookup(m, c, v)
  {
    hide SpaceOk, IsTable;
    SwitchLookup(m, spaces, d, f, r);
    SwitchLookup(r, spaces, d, g, r');
  }

  /** sched_user_fault in the stack region of the running thread, whose table is hooked in. */
  method StackFault(k: Machine, cr2: word, ghost parked: set<nat>)
    requires k.Valid() && 0 < k.top && StackPage(cr2 / PAGE) && Present(k.phys[k.cr3][STACK_SLOT])
    requires Lookup(k.phys, k.cr3, cr2 / PAGE) == None && ParkedOk(k.phys, k.spaces, k.Pool(), parked)
    modifies k`phys, k`top, k`endMapped
    ensures k.Valid() && ParkedOk(k.phys, k.spaces, k.Pool(), parked) && k.Pool() == old(k.Pool()[..k.top - 1])
    ensures var p := old(k.Pool()[k.top - 1]);
            FrameAddress(p) && Mapping(old(k.phys), k.phys, k.spaces, k.cr3, cr2 / PAGE, [Entry(p, 7)], 0, [])
    ensures UserWritable(k.phys, k.cr3, cr2 / PAGE)
  {
    hide Injective, Spare, PoolOk, SpaceOk, Entry, IsTable, IsMapped, Lookup, Mapping, ParkedOk, DataKept;
    ghost var m0, pool0 := k.phys, k.Pool();
    var newpage := k.AllocFrame({});
    var va := cr2 - cr2 % PAGE;
    assert va / PAGE == cr2 / PAGE && va / PAGE / WORDS == STACK_SLOT;
    var _ := k.MapPage(newpage, va, 7, false);
    FaultKeepsParked(m0, k.phys, k.spaces, k.cr3, cr2 / PAGE, newpage, 7, pool0, k.Pool(), parked);
    FaultTail(k, m0, cr2 / PAGE, Entry(newpage, 7));
  }

  lemma FaultTail(k: Machine, m0: Phys, v: nat, e: word)
    requires k.Core() && AllOk(m0, k.spaces) && StackPage(v) && Mapping(m0, k.phys, k.spaces, k.cr3, v, [e], 0, [])
    requires forall c, u :: c in k.spaces && k.endMapped / PAGE <= u < PAGES ==> Lookup(m0, c, u) == None
    ensures k.TailFree(PAGES)
  {
    hide Lookup, SpaceOk, Injective;
  }
}
