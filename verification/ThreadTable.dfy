/**
 The table of thread pointers: how large it is, when sched_create_thread enlarges it, and whether what is stored in
 it is still there later. The kernel counts its slots in threads_size, which is not what it has allocated.
 */
module ThreadTable {
  import opened Wrappers
  import opened SchedState

  /** Pointers in the block sched_init asks for: 1024 times the size of a packed thread record, 37 bytes. */
  const FIRST_SLOTS: nat := 37 * DEFAULT_LIST_SIZE / 4

  /** `slots` is the number of pointers in the request recorded for the block, `counter` is threads_size. */
  datatype Capacity = Capacity(slots: nat, counter: nat)

  function FirstCapacity(): Capacity { Capacity(FIRST_SLOTS, DEFAULT_LIST_SIZE) }

  /** Before thread `tid` is stored the block is enlarged if the tid has reached the size of the process table. */
  function Enlarged(c: Capacity, tid: nat, processesSize: nat): Capacity {
    if processesSize <= tid then Capacity(c.counter + REALLOC_INCREMENT, c.counter + REALLOC_INCREMENT) else c
  }

  predicate HasSlot(c: Capacity, tid: nat, processesSize: nat) { tid < Enlarged(c, tid, processesSize).slots }

  /** What the capacity is like in every run: untouched, or as large as the kernel thinks. */
  predicate CapacityOk(c: Capacity) {
    DEFAULT_LIST_SIZE <= c.counter && (c == FirstCapacity() || c.slots == c.counter)
  }

  // ---------- whole runs ----------

  /** The capacity after the threads 0, 1, 2, ... were created; `ns` has the number of processes at each creation. */
  function CapacityAfter(ns: seq<nat>): Capacity {
    if ns == [] then FirstCapacity() else
    var t := |ns| - 1;
    Enlarged(CapacityAfter(ns[..t]), t, TableSize(ns[t]))
  }

  /** Each of these threads is stored inside the request recorded for the block. */
  predicate AllStored(ns: seq<nat>) {
    ns == [] ||
    var t := |ns| - 1;
    AllStored(ns[..t]) && HasSlot(CapacityAfter(ns[..t]), t, TableSize(ns[t]))
  }

  /** A process is created together with its first thread, so the number of processes grows by 0 or 1. */
  ghost predicate Creations(ns: seq<nat>) {
    && (forall t :: 0 <= t < |ns| ==> ns[t] <= t + 1)
    && (forall t, u :: 0 <= t <= u < |ns| ==> ns[t] <= ns[u] <= ns[t] + (u - t))
  }

  /** No thread but the first of its process has been created up to `t`, or ever, as far as multiples of 512 tell. */
  ghost predicate OneEach(ns: seq<nat>) {
    forall t :: DEFAULT_LIST_SIZE <= t < |ns| && t % REALLOC_INCREMENT == 0 ==> ns[t] == t + 1
  }

  /** The threads whose creation stays inside the block: exactly these runs. */
  ghost predicate Roomy(ns: seq<nat>) {
    || |ns| <= DEFAULT_LIST_SIZE
    || ns[DEFAULT_LIST_SIZE] <= DEFAULT_LIST_SIZE
    || (|ns| <= FIRST_SLOTS && OneEach(ns))
  }

  /** With the size of the process table a multiple of 512 that is at least the number of processes. */
  lemma SizeBelow(n: nat, t: nat)
    ensures n <= t && t % REALLOC_INCREMENT == 0 && DEFAULT_LIST_SIZE <= t ==> TableSize(n) <= t
    ensures t < n ==> t < TableSize(n)
    ensures t < DEFAULT_LIST_SIZE ==> t < TableSize(n)
  {
    if DEFAULT_LIST_SIZE < n <= t && t % REALLOC_INCREMENT == 0 {
      var q := t / REALLOC_INCREMENT;
      assert t == q * REALLOC_INCREMENT;
      RoundedDown(n, q);
    }
  }

  lemma RoundedDown(n: nat, q: nat)
    requires n <= q * 512
    ensures (n + 511) / 512 <= q
  {
  }

  /** More than a multiple of 512 processes need a table that ends at the next one. */
  lemma SizeAbove(n: nat, q: nat)
    requires 512 * q < n && 2 <= q
    ensures 512 * q + 512 <= TableSize(n)
  {
    assert q + 1 <= (n + 511) / 512;
  }

  /** As long as every process has one thread the block stays as it is. */
  lemma {:induction false} NeverEnlarged(ns: seq<nat>)
    requires Creations(ns) && OneEach(ns)
    ensures CapacityAfter(ns) == FirstCapacity()
    ensures AllStored(ns) <==> |ns| <= FIRST_SLOTS
  {
    if ns != [] {
      var t := |ns| - 1;
      NeverEnlarged(ns[..t]);
      NotReached(ns, t);
    }
  }

  lemma NotReached(ns: seq<nat>, t: nat)
    requires Creations(ns) && OneEach(ns) && t < |ns|
    ensures t < TableSize(ns[t])
  {
    if DEFAULT_LIST_SIZE <= t {
      var q := t / REALLOC_INCREMENT;
      var m := REALLOC_INCREMENT * q;
      assert m % REALLOC_INCREMENT == 0 && DEFAULT_LIST_SIZE <= m <= t < m + REALLOC_INCREMENT;
      assert ns[m] == m + 1 && ns[m] <= ns[t];
      SizeAbove(ns[t], q);
    } else {
      SizeBelow(ns[t], t);
    }
  }

  /** Once the block is as large as the kernel thinks, and some process has two threads, it stays large enough. */
  lemma {:induction false} GrowsInTime(ns: seq<nat>)
    requires Creations(ns) && DEFAULT_LIST_SIZE < |ns| && ns[DEFAULT_LIST_SIZE] <= DEFAULT_LIST_SIZE
    ensures AllStored(ns) && Grown(CapacityAfter(ns), |ns|)
  {
    var t := |ns| - 1;
    assert ns[t] <= ns[DEFAULT_LIST_SIZE] + (t - DEFAULT_LIST_SIZE) <= t;
    if t == DEFAULT_LIST_SIZE {
      SmallRun(ns[..t]);
      FirstGrowth(ns[t]);
    } else {
      GrowsInTime(ns[..t]);
      NextGrowth(CapacityAfter(ns[..t]), t, ns[t]);
    }
  }

  /** The block has been enlarged and holds `n` threads. */
  predicate Grown(c: Capacity, n: nat) {
    c.slots == c.counter && n <= c.slots && c.counter % REALLOC_INCREMENT == 0
  }

  lemma FirstGrowth(n: nat)
    requires n <= DEFAULT_LIST_SIZE
    ensures HasSlot(FirstCapacity(), DEFAULT_LIST_SIZE, TableSize(n))
    ensures Grown(Enlarged(FirstCapacity(), DEFAULT_LIST_SIZE, TableSize(n)), DEFAULT_LIST_SIZE + 1)
  {
  }

  lemma NextGrowth(c: Capacity, t: nat, n: nat)
    requires Grown(c, t) && n <= t && DEFAULT_LIST_SIZE <= t
    ensures HasSlot(c, t, TableSize(n)) && Grown(Enlarged(c, t, TableSize(n)), t + 1)
  {
    hide TableSize;
    SizeBelow(n, t);
    OneMore(c.counter);
  }

  lemma OneMore(a: nat)
    requires a % 512 == 0
    ensures (a + 512) % 512 == 0
  {
  }

  lemma {:induction false} SmallRun(ns: seq<nat>)
    requires Creations(ns) && |ns| <= DEFAULT_LIST_SIZE
    ensures AllStored(ns) && CapacityAfter(ns) == FirstCapacity()
  {
    if ns != [] {
      var t := |ns| - 1;
      SmallRun(ns[..t]);
      SizeBelow(ns[t], t);
    }
  }

  /** A first enlargement after thread 1024 leaves fewer slots than there are threads. */
  lemma ShrunkInstead(ns: seq<nat>, m: nat)
    requires Creations(ns) && m < |ns| && DEFAULT_LIST_SIZE < m && m % REALLOC_INCREMENT == 0 && ns[m] <= m
    requires OneEach(ns[..m])
    ensures !AllStored(ns)
  {
    hide TableSize, AllStored, CapacityAfter, Creations, OneEach;
    PrefixCreations(ns, m);
    NeverEnlarged(ns[..m]);
    SizeBelow(ns[m], m);
    TooFew(m, TableSize(ns[m]));
    if AllStored(ns) {
      StoredPrefix(ns, m + 1);
      OneStore(ns, m);
    }
  }

  lemma PrefixCreations(ns: seq<nat>, m: nat)
    requires Creations(ns) && m <= |ns|
    ensures Creations(ns[..m])
  {
  }

  lemma TooFew(m: nat, processesSize: nat)
    requires DEFAULT_LIST_SIZE < m && m % REALLOC_INCREMENT == 0 && processesSize <= m
    ensures !HasSlot(FirstCapacity(), m, processesSize)
  {
  }

  lemma OneStore(ns: seq<nat>, m: nat)
    requires m < |ns| && AllStored(ns[..m + 1])
    ensures HasSlot(CapacityAfter(ns[..m]), m, TableSize(ns[m]))
  {
    hide TableSize, CapacityAfter;
    assert ns[..m + 1][..m] == ns[..m];
  }

  /** The first multiple of 512 from which on some process has a second thread. */
  lemma {:induction false} FirstShared(ns: seq<nat>, k: nat) returns (m: nat)
    requires Creations(ns) && k <= |ns| && !OneEach(ns[..k])
    ensures DEFAULT_LIST_SIZE <= m < k && m % REALLOC_INCREMENT == 0 && ns[m] <= m && OneEach(ns[..m])
  {
    if OneEach(ns[..k - 1]) {
      m := k - 1;
    } else {
      m := FirstShared(ns, k - 1);
    }
  }

  /** Every thread is stored inside the block if and only if the run is roomy. */
  lemma ThreadTableFits(ns: seq<nat>)
    requires Creations(ns)
    ensures AllStored(ns) <==> Roomy(ns)
  {
    if |ns| <= DEFAULT_LIST_SIZE {
      SmallRun(ns);
    } else if ns[DEFAULT_LIST_SIZE] <= DEFAULT_LIST_SIZE {
      GrowsInTime(ns);
    } else if OneEach(ns) {
      NeverEnlarged(ns);
    } else {
      assert ns[..|ns|] == ns;
      var m := FirstShared(ns, |ns|);
      ShrunkInstead(ns, m);
    }
  }

  lemma {:induction false} StoredPrefix(ns: seq<nat>, k: nat)
    requires AllStored(ns) && k <= |ns|
    ensures AllStored(ns[..k])
  {
    if k < |ns| {
      var t := |ns| - 1;
      StoredPrefix(ns[..t], k);
      assert ns[..t][..k] == ns[..k];
    } else {
      assert ns[..k] == ns;
    }
  }

  // ---------- what the block holds ----------

  /** The block with all its cells; a cell nobody has written holds no thread. Only `request` cells are asked for. */
  datatype Block = Block(cells: seq<Option<nat>>, request: nat, counter: nat)

  /** realloc: a request that is not larger is recorded in place, else that many cells are moved to a new block. */
  function Reallocated(b: Block, n: nat): Block
    requires b.request <= |b.cells|
  {
    if n <= b.request then b.(request := n)
    else b.(cells := b.cells[..b.request] + seq(n - b.request, _ => None), request := n)
  }

  /** Thread `t` is created; a store behind the block does not reach it. */
  function Stored(b: Block, t: nat, processesSize: nat): Block
    requires b.request <= |b.cells|
  {
    var n := b.counter + REALLOC_INCREMENT;
    var b1 := if processesSize <= t then Reallocated(b, n).(counter := n) else b;
    if t < |b1.cells| then b1.(cells := b1.cells[t := Some(t)]) else b1
  }

  function BlockAfter(ns: seq<nat>): (b: Block)
    ensures b.request <= |b.cells| && CapacityAfter(ns) == Capacity(b.request, b.counter)
  {
    if ns == [] then Block(seq(FIRST_SLOTS, _ => None), FIRST_SLOTS, DEFAULT_LIST_SIZE) else
    var t := |ns| - 1;
    Stored(BlockAfter(ns[..t]), t, TableSize(ns[t]))
  }

  /** In a roomy run every thread is found in its slot. */
  lemma {:induction false} ThreadsFound(ns: seq<nat>)
    requires AllStored(ns)
    ensures var b := BlockAfter(ns);
            |ns| <= b.request && forall t :: 0 <= t < |ns| ==> b.cells[t] == Some(t)
  {
    if ns != [] {
      ThreadsFound(ns[..|ns| - 1]);
    }
  }

  /**
   In this one the block is not enlarged until thread `m`. Then the request shrinks to 1536 cells, and with the next thread
   only these are moved: thread 1536 is lost. The smallest such run has one thread in each of 1536 processes, and
   two more threads in them.
   */
  lemma ThreadLost(ns: seq<nat>, m: nat)
    requires Creations(ns) && |ns| == m + 2 && DEFAULT_LIST_SIZE < m && m % REALLOC_INCREMENT == 0
    requires OneEach(ns[..m]) && ns[m + 1] <= m
    ensures var b := BlockAfter(ns); 1536 < |b.cells| && b.cells[1536] == None
  {
    hide TableSize, Stored, BlockAfter, CapacityAfter;
    NeverEnlarged(ns[..m]);
    assert ns[m] <= ns[m + 1];
    SizeBelow(ns[m], m);
    SizeBelow(ns[m + 1], m);
    LastTwo(ns, m);
    Lost(BlockAfter(ns[..m]), m, TableSize(ns[m]), TableSize(ns[m + 1]));
  }

  lemma LastTwo(ns: seq<nat>, m: nat)
    requires |ns| == m + 2
    ensures BlockAfter(ns) == Stored(Stored(BlockAfter(ns[..m]), m, TableSize(ns[m])), m + 1, TableSize(ns[m + 1]))
  {
    hide TableSize, Stored;
    assert ns[..m + 1][..m] == ns[..m];
  }

  lemma Lost(b: Block, m: nat, p: nat, q: nat)
    requires b.request <= |b.cells| && b.request == FIRST_SLOTS && b.counter == DEFAULT_LIST_SIZE && 1536 <= m && p <= m && q <= m
    ensures var b2 := Stored(Stored(b, m, p), m + 1, q); 1536 < |b2.cells| && b2.cells[1536] == None
  {
  }

  /** The run meant above exists. */
  lemma SmallestLoss()
    ensures var ns := seq(1538, t => if t < 1536 then t + 1 else 1536);
            && Creations(ns) && OneEach(ns[..1536])
            && !Roomy(ns) && 1536 < |BlockAfter(ns).cells| && BlockAfter(ns).cells[1536] == None
  {
    var ns := seq(1538, t => if t < 1536 then t + 1 else 1536);
    assert OneEach(ns[..1536]);
    ThreadLost(ns, 1536);
    assert ns[1536] == 1536 && ns[1024] == 1025;
  }
}
