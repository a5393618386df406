/** vfs_read_blocks, vfat_read_cluster and vfat_accessfile: buffers filled in loops, against the chain's content. */
module FatFile {
  import opened Bytes
  import opened Fat

  // ---------- reading blocks and clusters ----------

  function Times(a: nat, b: nat): nat { a * b }

  lemma NextBlock(i: nat, b: nat)
    ensures Times(i + 1, b) == Times(i, b) + b
  {
  }

  lemma {:induction false} BlockFits(i: nat, n: nat, b: nat)
    requires i < n
    ensures Times(i, b) + b <= Times(n, b)
    decreases n - i
  {
    NextBlock(i, b);
    if i + 1 < n {
      BlockFits(i + 1, n, b);
    }
  }

  /** One block into a buffer: the driver's `block` routine. */
  method ReadBlock(dest: array<byte>, at: nat, disk: seq<byte>, start: nat, size: nat)
    requires at + size <= dest.Length && start + size <= |disk|
    modifies dest
    ensures dest[..] == Poke(old(dest[..]), at, Span(disk, start, size))
  {
    forall i | 0 <= i < size {
      dest[at + i] := disk[start + i];
    }
  }

  function Span(s: seq<byte>, at: nat, n: nat): (r: seq<byte>)
    requires at + n <= |s|
    ensures |r| == n
  {
    s[at..at + n]
  }

  lemma PokeBlock(ram: seq<byte>, at: nat, disk: seq<byte>, start: nat, done: nat, size: nat)
    requires at + done + size <= |ram| && start + done + size <= |disk|
    ensures Poke(Poke(ram, at, Span(disk, start, done)), at + done, Span(disk, start + done, size))
            == Poke(ram, at, Span(disk, start, done + size))
  {
  }

  lemma PokeNothing(ram: seq<byte>, at: nat, disk: seq<byte>, start: nat)
    requires at <= |ram| && start <= |disk|
    ensures Poke(ram, at, Span(disk, start, 0)) == ram
  {
  }

  /** Consecutive blocks from block `index` on. */
  method ReadBlocks(dest: array<byte>, at: nat, disk: seq<byte>, blockSize: nat, blocks: nat, index: nat)
    requires at + Times(blocks, blockSize) <= dest.Length && Times(index, blockSize) + Times(blocks, blockSize) <= |disk|
    modifies dest
    ensures dest[..] == Poke(old(dest[..]), at, Span(disk, Times(index, blockSize), Times(blocks, blockSize)))
  {
    hide Span, Poke, Times;
    var i := 0;
    ghost var start, done: nat := Times(index, blockSize), 0;
    NoBlocks(blockSize, blocks);
    PokeNothing(dest[..], at, disk, start);
    while i < blocks
      invariant i <= blocks && done == Times(i, blockSize) <= Times(blocks, blockSize)
      invariant dest[..] == Poke(old(dest[..]), at, Span(disk, start, done))
    {
      BlockFits(i, blocks, blockSize);
      NextBlock(i, blockSize);
      BlockOf(i, index, blockSize);
      PokeBlock(old(dest[..]), at, disk, start, done, blockSize);
      ReadBlock(dest, at + Times(i, blockSize), disk, Times(i + index, blockSize), blockSize);
      done := done + blockSize;
      i := i + 1;
    }
  }

  lemma NoBlocks(b: nat, n: nat)
    ensures Times(0, b) == 0 <= Times(n, b)
  {
  }

  lemma BlockOf(i: nat, index: nat, b: nat)
    ensures Times(i + index, b) == Times(index, b) + Times(i, b)
  {
  }

  /** A cluster goes into the buffer, and the entry that follows it is returned. */
  method ReadCluster(dest: array<byte>, at: nat, v: Volume, disk: seq<byte>, c: nat) returns (next: nat)
    requires GeometryOk(v) && ClusterOk(v, disk, c) && at + ClusterSize(v) <= dest.Length
    modifies dest
    ensures next == NextCluster(v, c)
    ensures dest[..] == Poke(old(dest[..]), at, ClusterBytes(v, disk, c))
  {
    hide GeometryOk, ClusterSize, ClusterStart, SectorsToBlocks, SectorToLba, ClusterToSector;
    ClusterBlocks(v, c);
    BlockSizePositive(v);
    ReadBlocks(dest, at, disk, v.blockSize, SectorsToBlocks(v, v.sectorsPerCluster), SectorToLba(v, ClusterToSector(v, c)));
    next := NextCluster(v, c);
  }

  lemma BlockSizePositive(v: Volume)
    requires GeometryOk(v)
    ensures 0 < v.blockSize
  {
  }

  // ---------- how much is read ----------

  /** A 32-bit word taken as a signed number. */
  function Signed(x: nat): int { if x < 0x80000000 then x else x - TWO32 }

  /** The count computed at the start; `size - loc` is unsigned. */
  function ByteCount(size: nat, len: nat, loc: nat): int {
    var rest := U32(size - loc);
    Signed(if len >= rest then rest else len)
  }

  /** Inside the file it is what is asked for, cut at the end of the file. */
  lemma CountInside(size: nat, len: nat, loc: nat)
    requires size < 0x80000000 && len < TWO32 && loc <= size
    ensures ByteCount(size, len, loc) == if len <= size - loc then len else size - loc
  {
  }

  /** Beyond the end of the file a read is not turned away: bytes are transferred exactly when some are asked for. */
  lemma CountBeyond(size: nat, len: nat, loc: nat)
    requires size < 0x80000000 && len < TWO32 && size < loc < TWO32
    ensures ByteCount(size, len, loc) > 0 <==> 0 < len && (len < 0x80000000 || 0x80000000 < loc - size)
  {
    assert U32(size - loc) == TWO32 - (loc - size);
  }

  lemma CountSmall(size: nat, len: nat, loc: nat)
    requires len < TWO32
    ensures ByteCount(size, len, loc) < 0x80000000
  {
  }

  function ClustersFor(v: Volume, bytes: nat): nat
    requires 0 < ClusterSize(v)
  {
    Quotient(bytes + ClusterSize(v) - 1, ClusterSize(v))
  }

  /** The bytes wanted end within the clusters that are read. */
  predicate Fits(v: Volume, loc: nat, bytes: nat)
    requires 0 < ClusterSize(v)
  {
    loc % ClusterSize(v) + bytes <= ClustersFor(v, bytes) * ClusterSize(v)
  }

  lemma ClustersForBounds(v: Volume, bytes: nat)
    requires 0 < ClusterSize(v)
    ensures var n, cs := ClustersFor(v, bytes), ClusterSize(v); n * cs - cs < bytes <= n * cs && (0 < bytes ==> cs <= n * cs)
  {
    hide ClusterSize;
    var cs, x := ClusterSize(v), bytes + ClusterSize(v) - 1;
    assert x == (x / cs) * cs + x % cs;
    TimesSign(x / cs, cs);
  }

  lemma Position(loc: nat, cs: nat)
    requires 0 < cs
    ensures loc == Quotient(loc, cs) * cs + loc % cs && loc % cs < cs
  {
  }

  // ---------- what a read transfers ----------

  /**
   The bytes copied to the caller: out of the clusters read, and, where these end too early, out of whatever
   lies behind the temporary buffer in memory.
   */
  ghost function Transfer(v: Volume, disk: seq<byte>, first: nat, loc: nat, bytes: nat, beyond: seq<byte>): (r: seq<byte>)
    requires 0 < ClusterSize(v) <= |beyond|
    requires ChainOk(v, disk, first, Quotient(loc, ClusterSize(v)) + ClustersFor(v, bytes))
    ensures |r| == bytes
  {
    var cs, n := ClusterSize(v), ClustersFor(v, bytes);
    ContentSplit(v, disk, first, Quotient(loc, cs), n);
    var start := Follow(v, disk, first, Quotient(loc, cs));
    ContentLength(v, disk, start, n);
    ClustersForBounds(v, bytes);
    (Content(v, disk, start, n) + beyond)[loc % cs..loc % cs + bytes]
  }

  lemma EnoughClusters(a: nat, n: nat, m: nat, cs: nat, off: nat, bytes: nat)
    requires off < cs && n * cs - cs < bytes && a * cs + off + bytes <= m * cs
    ensures a + n <= m
  {
    assert (a + n - m) * cs == a * cs + n * cs - m * cs;
    TimesSign(a + n - m, cs);
  }

  /** No more clusters are read than the bytes wanted take up. */
  lemma ChainLongEnough(v: Volume, disk: seq<byte>, first: nat, m: nat, loc: nat, bytes: nat)
    requires 0 < ClusterSize(v) && 0 < bytes && ChainOk(v, disk, first, m) && loc + bytes <= m * ClusterSize(v)
    ensures Quotient(loc, ClusterSize(v)) + ClustersFor(v, bytes) <= m
    ensures ChainOk(v, disk, first, Quotient(loc, ClusterSize(v)) + ClustersFor(v, bytes))
  {
    hide ClusterSize, ClustersFor, Quotient;
    var cs, n, a := ClusterSize(v), ClustersFor(v, bytes), Quotient(loc, ClusterSize(v));
    ClustersForBounds(v, bytes);
    Position(loc, cs);
    EnoughClusters(a, n, m, cs, loc % cs, bytes);
    ContentSplit(v, disk, first, a + n, m - (a + n));
  }

  /** The clusters read, as part of the content of the file. */
  lemma ReadPart(v: Volume, disk: seq<byte>, first: nat, m: nat, a: nat, n: nat)
    requires a + n <= m && ChainOk(v, disk, first, m)
    ensures ChainOk(v, disk, first, a) && ChainOk(v, disk, Follow(v, disk, first, a), n)
    ensures var cs, file := ClusterSize(v), Content(v, disk, first, m);
            && 0 <= a * cs && a * cs + n * cs <= |file| && |file| == m * cs
            && Content(v, disk, Follow(v, disk, first, a), n) == file[a * cs..a * cs + n * cs]
  {
    hide Content, ClusterSize, ChainOk;
    ContentSplit(v, disk, first, a, m - a);
    var start := Follow(v, disk, first, a);
    ContentSplit(v, disk, start, n, m - a - n);
    ContentLength(v, disk, first, a);
    ContentLength(v, disk, start, n);
    ContentLength(v, disk, first, m);
  }

  lemma WindowOfPart(file: seq<byte>, part: seq<byte>, beyond: seq<byte>, base: nat, off: nat, bytes: nat)
    requires base + |part| <= |file| && part == file[base..base + |part|] && off + bytes <= |part|
    ensures (part + beyond)[off..off + bytes] == file[base + off..base + off + bytes]
  {
    var x, y := (part + beyond)[off..off + bytes], file[base + off..base + off + bytes];
    forall k | 0 <= k < bytes ensures x[k] == y[k] {
      assert part[off + k] == file[base..base + |part|][off + k];
    }
  }

  /** A read that fits transfers exactly the bytes of the file, whatever lies behind the temporary buffer. */
  lemma FittingRead(v: Volume, disk: seq<byte>, first: nat, m: nat, loc: nat, bytes: nat, beyond: seq<byte>)
    requires 0 < ClusterSize(v) <= |beyond| && 0 < bytes && ChainOk(v, disk, first, m) && loc + bytes <= m * ClusterSize(v)
    requires Fits(v, loc, bytes)
    ensures |Content(v, disk, first, m)| == m * ClusterSize(v)
    ensures ChainOk(v, disk, first, Quotient(loc, ClusterSize(v)) + ClustersFor(v, bytes))
    ensures Transfer(v, disk, first, loc, bytes, beyond) == Content(v, disk, first, m)[loc..loc + bytes]
  {
    hide ClusterSize, ClustersFor, ChainOk, Content, Follow, Quotient;
    var cs, n, a := ClusterSize(v), ClustersFor(v, bytes), Quotient(loc, ClusterSize(v));
    ContentLength(v, disk, first, m);
    ChainLongEnough(v, disk, first, m, loc, bytes);
    ReadPart(v, disk, first, m, a, n);
    ClustersForBounds(v, bytes);
    Position(loc, cs);
    var file, part, off := Content(v, disk, first, m), Content(v, disk, Follow(v, disk, first, a), n), loc % cs;
    WindowOfPart(file, part, beyond, Quotient(loc, cs) * cs, off, bytes);
  }

  /** One that does not fit ends in memory that is not the file's. */
  lemma OverlongRead(v: Volume, disk: seq<byte>, first: nat, m: nat, loc: nat, bytes: nat) returns (beyond: seq<byte>)
    requires 0 < ClusterSize(v) && 0 < bytes && ChainOk(v, disk, first, m) && loc + bytes <= m * ClusterSize(v)
    requires !Fits(v, loc, bytes)
    ensures |beyond| == ClusterSize(v)
    ensures |Content(v, disk, first, m)| == m * ClusterSize(v)
    ensures ChainOk(v, disk, first, Quotient(loc, ClusterSize(v)) + ClustersFor(v, bytes))
    ensures Transfer(v, disk, first, loc, bytes, beyond) != Content(v, disk, first, m)[loc..loc + bytes]
  {
    hide ClusterSize, ClustersFor, ChainOk, Content, Follow, Quotient;
    var cs, n, a := ClusterSize(v), ClustersFor(v, bytes), Quotient(loc, ClusterSize(v));
    ContentLength(v, disk, first, m);
    ChainLongEnough(v, disk, first, m, loc, bytes);
    ReadPart(v, disk, first, m, a, n);
    ClustersForBounds(v, bytes);
    Position(loc, cs);
    var k: nat := n * cs - loc % cs;
    assert k < bytes;
    var wanted := Content(v, disk, first, m)[loc..loc + bytes];
    var other: byte := if wanted[k] == 0 then 1 else 0;
    beyond := seq(cs, _ => other);
    ContentLength(v, disk, Follow(v, disk, first, a), n);
    assert Transfer(v, disk, first, loc, bytes, beyond)[k] == beyond[0];
  }

  ghost predicate ReadsExactly(v: Volume, disk: seq<byte>, first: nat, m: nat, loc: nat, bytes: nat, beyond: seq<byte>) {
    && 0 < ClusterSize(v) <= |beyond| && ChainOk(v, disk, first, m) && loc + bytes <= |Content(v, disk, first, m)|
    && ChainOk(v, disk, first, Quotient(loc, ClusterSize(v)) + ClustersFor(v, bytes))
    && Transfer(v, disk, first, loc, bytes, beyond) == Content(v, disk, first, m)[loc..loc + bytes]
  }

  /** A read is right for every state of memory exactly when the bytes wanted end within the clusters read. */
  lemma ReadExactIffFits(v: Volume, disk: seq<byte>, first: nat, m: nat, loc: nat, bytes: nat)
    requires 0 < ClusterSize(v) && 0 < bytes && ChainOk(v, disk, first, m) && loc + bytes <= m * ClusterSize(v)
    ensures Fits(v, loc, bytes) <==>
            forall beyond: seq<byte> :: |beyond| == ClusterSize(v) ==> ReadsExactly(v, disk, first, m, loc, bytes, beyond)
  {
    hide ClusterSize, Transfer, Fits, ClustersFor, Quotient;
    if Fits(v, loc, bytes) {
      forall beyond: seq<byte> | |beyond| == ClusterSize(v) ensures ReadsExactly(v, disk, first, m, loc, bytes, beyond) {
        FittingRead(v, disk, first, m, loc, bytes, beyond);
      }
    } else {
      var beyond := OverlongRead(v, disk, first, m, loc, bytes);
      assert !ReadsExactly(v, disk, first, m, loc, bytes, beyond);
    }
  }

  /** In particular reads from the start of a cluster, and so of whole files, are right. */
  lemma AlignedReadsFit(v: Volume, loc: nat, bytes: nat)
    requires 0 < ClusterSize(v) && loc % ClusterSize(v) == 0
    ensures Fits(v, loc, bytes)
  {
    ClustersForBounds(v, bytes);
  }

  // ---------- the read itself ----------

  lemma ReadSize(v: Volume, bytes: nat)
    requires 0 < ClusterSize(v) < 0x1000000 && bytes < 0x80000000
    ensures RoundUp(bytes, ClusterSize(v)) == ClustersFor(v, bytes) * ClusterSize(v)
    ensures Quotient(RoundUp(bytes, ClusterSize(v)), ClusterSize(v)) == ClustersFor(v, bytes)
  {
    hide ClusterSize;
    ClustersForBounds(v, bytes);
    var n, cs := ClustersFor(v, bytes), ClusterSize(v);
    SmallU32(bytes + cs - 1);
    SmallU32(n * cs);
    DivUnique(n * cs, cs, n, 0);
  }

  /** The next cluster joins those in the temporary buffer. */
  lemma ClusterAppended(v: Volume, disk: seq<byte>, start: nat, i: nat, before: seq<byte>, after: seq<byte>)
    requires ChainOk(v, disk, start, i + 1)
    requires 0 <= i * ClusterSize(v) && i * ClusterSize(v) + ClusterSize(v) <= |before|
    requires ChainOk(v, disk, start, i) && ClusterOk(v, disk, Follow(v, disk, start, i))
    requires before[..i * ClusterSize(v)] == Content(v, disk, start, i)
    requires after == Poke(before, i * ClusterSize(v), ClusterBytes(v, disk, Follow(v, disk, start, i)))
    ensures (i + 1) * ClusterSize(v) == i * ClusterSize(v) + ClusterSize(v)
    ensures after[..(i + 1) * ClusterSize(v)] == Content(v, disk, start, i + 1)
  {
    hide ClusterSize;
    ContentSplit(v, disk, start, i, 1);
    ContentLength(v, disk, start, i);
    var last := Follow(v, disk, start, i);
    assert Content(v, disk, last, 1) == ClusterBytes(v, disk, last);
    NextBlock(i, ClusterSize(v));
  }

  /** The clusters from `start` on, one after the other; the cluster after the last one is not needed. */
  method ReadChain(v: Volume, disk: seq<byte>, start: nat, clusters: nat) returns (temp: array<byte>)
    requires GeometryOk(v) && ChainOk(v, disk, start, clusters)
    ensures fresh(temp) && temp[..] == Content(v, disk, start, clusters)
  {
    hide GeometryOk, ClusterSize, ClusterStart, NextCluster, InTable;
    Product(clusters, ClusterSize(v));
    temp := new byte[clusters * ClusterSize(v)];
    var next := start;
    var i := 0;
    while i < clusters
      invariant i <= clusters && 0 <= i * ClusterSize(v) <= temp.Length
      invariant ChainOk(v, disk, start, i) && next == Follow(v, disk, start, i)
      invariant temp[..i * ClusterSize(v)] == Content(v, disk, start, i)
    {
      BlockFits(i, clusters, ClusterSize(v));
      ContentSplit(v, disk, start, i + 1, clusters - (i + 1));
      FollowNext(v, disk, start, i);
      ghost var before := temp[..];
      next := ReadCluster(temp, i * ClusterSize(v), v, disk, next);
      ClusterAppended(v, disk, start, i, before, temp[..]);
      i := i + 1;
    }
    ContentLength(v, disk, start, clusters);
  }

  /** The cluster `k` steps down the chain, without reading any data. */
  method WalkChain(v: Volume, disk: seq<byte>, first: nat, k: nat) returns (next: nat)
    requires ChainOk(v, disk, first, k)
    ensures next == Follow(v, disk, first, k)
  {
    hide ClusterOk, NextCluster, InTable;
    next := first;
    var i := 0;
    while i < k
      invariant i <= k && ChainOk(v, disk, first, i) && next == Follow(v, disk, first, i)
    {
      ContentSplit(v, disk, first, i + 1, k - (i + 1));
      FollowNext(v, disk, first, i);
      InTableOf(v, disk, next);
      next := NextCluster(v, next);
      i := i + 1;
    }
  }

  /**
   vfat_accessfile: `len` bytes of a file of the given size and first cluster, from `loc` on, into `buffer`.
   `beyond` is what lies behind the temporary buffer in memory.
   */
  method AccessFile(v: Volume, disk: seq<byte>, write: bool, first: nat, size: nat, buffer: array<byte>,
                    len: nat, loc: nat, beyond: seq<byte>) returns (r: int)
    requires GeometryOk(v) && ClusterSize(v) <= |beyond|
    requires size < TWO32 && len < TWO32 && loc < TWO32
    requires !write && 0 < ByteCount(size, len, loc) ==>
               && ByteCount(size, len, loc) <= buffer.Length && 0 < ClusterSize(v)
               && ChainOk(v, disk, first, Quotient(loc, ClusterSize(v)) + ClustersFor(v, ByteCount(size, len, loc)))
    modifies buffer
    ensures r == if write || ByteCount(size, len, loc) < 0 then -1 else ByteCount(size, len, loc)
    ensures r > 0 ==> buffer[..] == Poke(old(buffer[..]), 0, Transfer(v, disk, first, loc, r, beyond))
    ensures r <= 0 ==> buffer[..] == old(buffer[..])
  {
    if write { return -1; }
    hide GeometryOk, ClusterSize, ClusterStart, NextCluster, InTable, ClustersFor, ClusterOk, SectorsToBlocks, U32, Quotient, ChainOk, Content, Follow, Signed;
    BlockSizePositive(v);
    BlocksOfCluster(v);
    var clusterSize := SectorsToBlocks(v, v.sectorsPerCluster) * v.blockSize;
    var rest := U32(size - loc);
    var bytes := Signed(if len >= rest then rest else len);
    if bytes == 0 { return 0; }
    if bytes < 0 { return -1; }
    CountSmall(size, len, loc);
    var clusterLoc := Quotient(loc, clusterSize);
    ReadSize(v, bytes);
    var clusters := Quotient(RoundUp(bytes, clusterSize), clusterSize);
    ContentSplit(v, disk, first, clusterLoc, clusters);
    var next := WalkChain(v, disk, first, clusterLoc);
    var temp := ReadChain(v, disk, next, clusters);
    CopyOut(buffer, temp, beyond, loc % clusterSize, bytes) by { ClustersForBounds(v, bytes); ContentLength(v, disk, next, clusters); }
    r := bytes;
  }

  lemma InTableOf(v: Volume, disk: seq<byte>, c: nat)
    requires ClusterOk(v, disk, c)
    ensures InTable(v, c)
  {
  }

  /** The final memcpy, which may run past the end of `temp`. */
  method CopyOut(buffer: array<byte>, temp: array<byte>, beyond: seq<byte>, off: nat, bytes: nat)
    requires bytes <= buffer.Length && off + bytes <= temp.Length + |beyond| && buffer != temp
    modifies buffer
    ensures buffer[..] == Poke(old(buffer[..]), 0, (temp[..] + beyond)[off..off + bytes])
  {
    ghost var memory := temp[..] + beyond;
    forall k | 0 <= k < bytes {
      buffer[k] := if off + k < temp.Length then temp[off + k] else beyond[off + k - temp.Length];
    }
    assert forall k :: 0 <= k < bytes ==> buffer[k] == memory[off..off + bytes][k];
  }
}
