/**
 The first address space: the tables that boot.S fills in physical memory, and the kernel slots that vmm_init
 adds through the recursive window. Together with pmm_init this is the state the other operations start from.
 */
module Boot {
  import opened Wrappers
  import opened Bytes
  import opened PageTables
  import opened Paging
  import opened FramePool

  // words of the 1 MiB block: tables 768 to 1022 of kernel space, one after the other, and the directory
  const BLOCK: nat := 256 * 1024
  const TABLES: nat := 255 * 1024
  const LINEAR_PAGES: nat := 3072
  const SCREEN: word := 0xB8003
  // what the boot loader leaves in the accumulator, whose low byte the clearing loop stores
  const MAGIC: word := 0x2BAD_B002
  const FILL: word := MAGIC % 256 * 0x0101_0101

  /** The block starts at frame `kt`, inside the kernel image, which ends below the page of the screen. */
  ghost predicate ImageOk(kt: nat, kernelEnd: nat) {
    0 < kt && (kt + 256) * PAGE <= kernelEnd <= (LINEAR_PAGES - 1) * PAGE
  }

  /** Word `n` of the block. */
  function At(m: Phys, kt: nat, n: nat): word
    requires Shaped(m) && kt + 256 <= FRAMES && n < BLOCK
  {
    m[kt + n / WORDS][n % WORDS]
  }

  function Put(m: Phys, kt: nat, n: nat, w: word): (r: Phys)
    requires Shaped(m) && kt + 256 <= FRAMES && n < BLOCK
    ensures Shaped(r)
    ensures forall k :: 0 <= k < BLOCK ==> At(r, kt, k) == if k == n then w else At(m, kt, k)
  {
    Places(n);
    Store(m, kt + n / WORDS, n % WORDS, w)
  }

  /** Different words of the block have different places. */
  lemma Places(n: nat)
    ensures forall k: nat :: k / WORDS == n / WORDS && k % WORDS == n % WORDS ==> k == n
  {
    forall k: nat | k / WORDS == n / WORDS && k % WORDS == n % WORDS ensures k == n {
      assert k == k / WORDS * WORDS + k % WORDS && n == n / WORDS * WORDS + n % WORDS;
    }
  }

  lemma BlockWord(m: Phys, kt: nat, t: nat, j: nat)
    requires Shaped(m) && kt + 256 <= FRAMES && t < 256 && j < WORDS
    ensures t * WORDS + j < BLOCK && At(m, kt, t * WORDS + j) == m[kt + t][j]
  {
    assert (t * WORDS + j) / WORDS == t && (t * WORDS + j) % WORDS == j;
  }

  /** A present entry for frame `f`, with low bits `b`. */
  function Word(f: nat, b: nat): (w: word)
    requires f < FRAMES && b % 2 == 1 && b < PAGE
    ensures Present(w) && FrameOf(w) == f
  {
    PageAndOffset(f, b);
    f * PAGE + b
  }

  /** The linear map of the first 12 MiB; its last page shows the screen instead. */
  function LinearWord(n: nat): word
    requires n < LINEAR_PAGES
  {
    if n == LINEAR_PAGES - 1 then SCREEN else Word(n, 3)
  }

  /** Slot `i` of the directory: at first the linear tables, twice, and the directory itself. */
  function EarlySlot(kt: nat, i: nat): word
    requires kt + 256 <= FRAMES && i < WORDS
  {
    if i < 3 then Word(kt + i, 7)
    else if KERNEL_SLOT <= i < KERNEL_SLOT + 3 then Word(kt + i - KERNEL_SLOT, 7)
    else if i == SELF_SLOT then Word(kt + 255, 3)
    else FILL
  }

  /** In the end no user tables, all kernel tables, and the directory itself. */
  function LateSlot(kt: nat, i: nat): word
    requires kt + 256 <= FRAMES && i < WORDS
  {
    if i < 3 then 0
    else if KERNEL_SLOT + 3 <= i < SELF_SLOT then Word(kt + i - KERNEL_SLOT, 3)
    else EarlySlot(kt, i)
  }

  /** The block holds the linear tables, empty tables, and a directory whose slots below `hi` are done. */
  ghost predicate Tables(m: Phys, kt: nat, hi: nat) {
    && Shaped(m) && kt + 256 <= FRAMES
    && (forall n :: 0 <= n < LINEAR_PAGES ==> At(m, kt, n) == LinearWord(n))
    && (forall n :: LINEAR_PAGES <= n < TABLES ==> At(m, kt, n) == FILL)
    && SlotsDone(m[kt + 255], kt, hi)
  }

  ghost predicate SlotsDone(d: seq<word>, kt: nat, hi: nat)
    requires kt + 256 <= FRAMES
  {
    |d| == WORDS && forall i :: 0 <= i < WORDS ==> d[i] == if i < hi then LateSlot(kt, i) else EarlySlot(kt, i)
  }

  /** boot.S before paging is on; physical addresses. */
  method BootTables(ram: Phys, kt: nat) returns (m: Phys)
    requires Shaped(ram) && kt + 256 <= FRAMES
    ensures Tables(m, kt, 0)
  {
    hide Put, At, Word, Store;
    m := ram;
    var n := 0;
    while n < BLOCK
      invariant n <= BLOCK && Shaped(m) && forall k :: 0 <= k < n ==> At(m, kt, k) == FILL
    {
      m := Put(m, kt, n, FILL);
      n := n + 1;
    }
    n := 0;
    while n < LINEAR_PAGES
      invariant n <= LINEAR_PAGES && Shaped(m)
      invariant forall k :: 0 <= k < BLOCK ==> At(m, kt, k) == if k < n then Word(k, 3) else FILL
    {
      m := Put(m, kt, n, Word(n, 3));
      n := n + 1;
    }
    m := Put(m, kt, LINEAR_PAGES - 1, SCREEN);
    ghost var m1 := m;
    m := Put(m, kt, TABLES + 0, Word(kt, 7));
    m := Put(m, kt, TABLES + 768, Word(kt, 7));
    m := Put(m, kt, TABLES + 1, Word(kt + 1, 7));
    m := Put(m, kt, TABLES + 769, Word(kt + 1, 7));
    m := Put(m, kt, TABLES + 2, Word(kt + 2, 7));
    m := Put(m, kt, TABLES + 770, Word(kt + 2, 7));
    m := Put(m, kt, TABLES + 1023, Word(kt + 255, 3));
    forall i | 0 <= i < WORDS ensures m[kt + 255][i] == EarlySlot(kt, i) {
      BlockWord(m, kt, 255, i);
    }
  }

  /** Once paging is on, the directory is seen in the linear window and, through its last slot, at 0xFFFFF000. */
  lemma DirectoryAt(m: Phys, kt: nat, hi: nat, i: nat)
    requires Tables(m, kt, hi) && kt + 255 < LINEAR_PAGES - 1 && i < WORDS
    ensures Resolve(m, kt + 255, KERNEL_START + (kt + 255) * PAGE + 4 * i) == Some((kt + 255, i))
    ensures Resolve(m, kt + 255, DIRECTORY + 4 * i) == Some((kt + 255, i))
  {
    hide Word, At;
    var n := kt + 255;
    LinearAddress(n, i);
    BlockWord(m, kt, n / WORDS, n % WORDS);
    assert At(m, kt, n) == Word(n, 3);
    assert m[n][SELF_SLOT] == Word(n, 3);
    assert m[n][KERNEL_SLOT + n / WORDS] == Word(kt + n / WORDS, 7);
    var va := DIRECTORY + 4 * i;
    assert va / 0x40_0000 == SELF_SLOT && va / 0x1000 % 0x400 == SELF_SLOT && va % 0x1000 / 4 == i;
  }

  lemma LinearAddress(n: nat, i: nat)
    requires n < LINEAR_PAGES && i < WORDS
    ensures var va := KERNEL_START + n * PAGE + 4 * i;
            && va / 0x40_0000 == KERNEL_SLOT + n / WORDS && va / 0x1000 % 0x400 == n % WORDS && va % 0x1000 / 4 == i
  {
    var va := KERNEL_START + n * PAGE + 4 * i;
    assert va / 0x1000 == 0xC0000 + n && va % 0x1000 == 4 * i;
  }

  lemma SlotStored(m: Phys, kt: nat, hi: nat, i: nat, w: word)
    requires Tables(m, kt, hi) && i < WORDS
    ensures var r := Store(m, kt + 255, i, w);
            Shaped(r) && (forall n :: 0 <= n < TABLES ==> At(r, kt, n) == At(m, kt, n)) && r[kt + 255] == m[kt + 255][i := w]
  {
    hide Store;
  }

  /** boot.S takes the identity map out again. */
  method UnmapIdentity(k: Machine, kt: nat)
    requires Tables(k.phys, kt, 0) && kt + 255 < LINEAR_PAGES - 1 && k.cr3 == kt + 255
    modifies k`phys
    ensures Tables(k.phys, kt, KERNEL_SLOT + 3)
  {
    hide Word, At, Store, Resolve;
    var i := 0;
    while i < 3
      invariant i <= 3 && Tables(k.phys, kt, i)
    {
      DirectoryAt(k.phys, kt, i, i);
      SlotStored(k.phys, kt, i, i, 0);
      k.WriteWord(KERNEL_START + (kt + 255) * PAGE + 4 * i, 0);
      i := i + 1;
    }
  }

  /** vmm_init. */
  method VmmInit(k: Machine, kt: nat)
    requires Tables(k.phys, kt, KERNEL_SLOT + 3) && kt + 255 < LINEAR_PAGES - 1 && k.cr3 == kt + 255
    modifies k`phys
    ensures Tables(k.phys, kt, WORDS)
  {
    hide At, Store, Resolve;
    var i := 3;
    while i < 255
      invariant 3 <= i <= 255 && Tables(k.phys, kt, KERNEL_SLOT + i)
    {
      var w := kt * PAGE + PAGE * i + 3;
      assert w == Word(kt + i, 3);
      DirectoryAt(k.phys, kt, KERNEL_SLOT + i, KERNEL_SLOT + i);
      SlotStored(k.phys, kt, KERNEL_SLOT + i, KERNEL_SLOT + i, w);
      k.WriteWord(DIRECTORY + 4 * (KERNEL_SLOT + i), w);
      i := i + 1;
    }
  }

  // ---------- what the first space looks like ----------

  /** Frames 12 MiB and below are seen at their linear pages, but for the last, which shows the screen. */
  lemma FirstSpace(m: Phys, kt: nat, c: nat, spaces: set<nat>)
    requires Tables(m, kt, WORDS) && c == kt + 255 && spaces == {c}
    ensures AllOk(m, spaces)
    ensures forall v :: 0 <= v < PAGES ==>
              Lookup(m, c, v) == if Linear(v) then Some(LinearWord(v - KERNEL_PAGES)) else None
    ensures forall f: nat :: IsTable(m, spaces, f) ==> kt <= f <= c
  {
    hide Word, At;
    assert SpaceOk(m, c);
    forall v | 0 <= v < PAGES ensures Lookup(m, c, v) == if Linear(v) then Some(LinearWord(v - KERNEL_PAGES)) else None {
      if KERNEL_PAGES <= v {
        BlockWord(m, kt, v / WORDS - KERNEL_SLOT, v % WORDS);
        assert At(m, kt, v - KERNEL_PAGES) == m[kt + v / WORDS - KERNEL_SLOT][v % WORDS];
      }
    }
  }

  /** Page number n of the boot window shows frame n, the last one the frame of the screen; none of them is for user code. */
  lemma LinearFrames(n: nat)
    requires n < 3072
    ensures LinearWord(n) / 4096 == (if n == 3071 then 0xB8 else n)
    ensures LinearWord(n) % 8 == 3
  {
    if n < 3071 { LowThree(n); }
  }

  lemma LowThree(n: nat)
    ensures (n * 4096 + 3) % 8 == 3
  {
  }

  /** The screen's frame is seen twice. */
  lemma ScreenTwice(m: Phys, kt: nat)
    requires Tables(m, kt, WORDS)
    ensures MapsTo(m, kt + 255, 0xC00B8, 0xB8) && MapsTo(m, kt + 255, 0xC0BFF, 0xB8)
  {
    hide Tables, Lookup, Word;
    FirstSpace(m, kt, kt + 255, {kt + 255});
  }

  /**
   The first steps of the kernel on memory with any contents. They leave what every later operation on memory
   relies on and keeps: the free frames are those of available memory above the kernel image.
   */
  method Boot(ram: Phys, kt: nat, regions: seq<Region>, kernelEnd: nat) returns (k: Machine)
    requires Shaped(ram) && ImageOk(kt, kernelEnd) && MapOk(regions) && Apart(regions, kernelEnd)
    ensures fresh(k) && fresh(k.stack) && k.Valid()
    ensures k.cr3 == kt + 255 && k.spaces == {kt + 255} && k.endMapped == LINEAR_END
    ensures k.Pool() == Frames(regions, kernelEnd)
    ensures forall v :: 0 <= v < PAGES ==>
              Lookup(k.phys, k.cr3, v) == if Linear(v) then Some(LinearWord(v - KERNEL_PAGES)) else None
  {
    hide Tables, MapOk, Frames, Apart;
    var m := BootTables(ram, kt);
    k := new Machine(m, kt + 255);
    UnmapIdentity(k, kt);
    FramesFit(regions, kernelEnd);
    k.top := FillStack(regions, kernelEnd, k.stack);
    VmmInit(k, kt);
    FirstSpace(k.phys, kt, k.cr3, k.spaces);
    FirstPool(k.phys, kt, k.cr3, k.spaces, regions, kernelEnd);
  }

  lemma FirstPool(m: Phys, kt: nat, c: nat, spaces: set<nat>, regions: seq<Region>, kernelEnd: nat)
    requires ImageOk(kt, kernelEnd) && MapOk(regions) && Apart(regions, kernelEnd) && Tables(m, kt, WORDS) && c == kt + 255 && spaces == {c}
    ensures AllOk(m, spaces) && Injective(m, spaces) && PoolOk(m, spaces, Frames(regions, kernelEnd), {})
  {
    hide Tables, MapOk, Frames, Apart, Lookup, IsTable;
    FirstSpace(m, kt, c, spaces);
    FramesExact(regions, kernelEnd);
    FramesFit(regions, kernelEnd);
    var pool := Frames(regions, kernelEnd);
    forall k | 0 <= k < |pool| ensures Spare(m, spaces, {}, pool[k] / PAGE) {
      assert pool[k] in pool && kernelEnd < pool[k];
      assert kt + 256 <= pool[k] / PAGE;
    }
  }
}
