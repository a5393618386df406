/** Reading files of a FAT volume: table decoding, cluster chains and vfat_accessfile of kernel/kernel/drv/fs/vfat.c. */
module Fat {
  import opened Bytes

  const TWO32: int := 0x1_0000_0000

  function U32(x: int): nat { x % TWO32 }

  datatype FatType = Fat12 | Fat16 | Fat32

  /** `table` is the file allocation table as kept in memory; `blockSize` belongs to the block device. */
  datatype Volume = Volume(kind: FatType, bytesPerSector: nat, sectorsPerCluster: nat, firstDataSector: nat,
                           table: seq<byte>, blockSize: nat)

  // ---------- table entries ----------

  predicate InTable(v: Volume, c: nat) {
    match v.kind
    case Fat12 => c + c / 2 + 2 <= |v.table|
    case Fat16 => 2 * c + 2 <= |v.table|
    case Fat32 => 4 * c + 4 <= |v.table|
  }

  function Load16(bs: seq<byte>, a: nat): nat
    requires a + 2 <= |bs|
  {
    (bs[a] as int) + 256 * (bs[a + 1] as int)
  }

  function NextCluster(v: Volume, c: nat): nat
    requires InTable(v, c)
  {
    match v.kind
    case Fat12 =>
      var x := Load16(v.table, c + c / 2);
      if c % 2 == 1 then x / 16 else x % 4096
    case Fat16 => Load16(v.table, 2 * c)
    case Fat32 => Load32(v.table, 4 * c) % 0x10000000
  }

  /** Nibble `k` of a row of 12-bit entries, least significant first. */
  function Nibble(es: seq<nat>, k: nat): nat
    requires k / 3 < |es|
  {
    var e := es[k / 3];
    if k % 3 == 0 then e % 16 else if k % 3 == 1 then e / 16 % 16 else e / 256 % 16
  }

  /** The 12-bit packing: two nibbles to the byte, three to the entry. A last half byte is zero. */
  function Packed12(es: seq<nat>): (bs: seq<byte>)
    ensures |bs| == (3 * |es| + 1) / 2
  {
    seq((3 * |es| + 1) / 2, j requires 0 <= j < (3 * |es| + 1) / 2 =>
      Nibble(es, 2 * j) + 16 * (if 2 * j + 1 < 3 * |es| then Nibble(es, 2 * j + 1) else 0))
  }

  function Packed16(es: seq<nat>): seq<byte> {
    seq(2 * |es|, j requires 0 <= j < 2 * |es| => if j % 2 == 0 then es[j / 2] % 256 else es[j / 2] / 256 % 256)
  }

  /** 28-bit entries, each under four reserved bits. */
  function Packed32(es: seq<nat>, reserved: seq<nat>): seq<byte>
    requires |reserved| == |es|
  {
    seq(4 * |es|, j requires 0 <= j < 4 * |es| =>
      Le32(Word32(es[j / 4], reserved[j / 4]))[j % 4])
  }

  lemma EntryNibbles(es: seq<nat>, c: nat)
    requires c < |es|
    ensures Nibble(es, 3 * c) == es[c] % 16 && Nibble(es, 3 * c + 1) == es[c] / 16 % 16 && Nibble(es, 3 * c + 2) == es[c] / 256 % 16
  {
  }

  lemma Digits(e: nat)
    requires e < 4096
    ensures e == e % 16 + 16 * (e / 16 % 16) + 256 * (e / 256 % 16)
  {
  }

  lemma EvenEntry(es: seq<nat>, v: Volume, c: nat)
    requires v.kind == Fat12 && v.table == Packed12(es) && c < |es| && es[c] < 4096 && c % 2 == 0
    ensures InTable(v, c) && NextCluster(v, c) == es[c]
  {
    hide Nibble;
    EntryNibbles(es, c);
    Digits(es[c]);
    var a := c + c / 2;
    assert 2 * a == 3 * c;
    assert v.table[a] == es[c] % 16 + 16 * (es[c] / 16 % 16);
    var high := if 2 * (a + 1) + 1 < 3 * |es| then Nibble(es, 2 * (a + 1) + 1) else 0;
    assert v.table[a + 1] == es[c] / 256 % 16 + 16 * high;
    LowTwelve(es[c], high);
  }

  lemma LowTwelve(e: nat, high: nat)
    requires e < 4096
    ensures (e + 4096 * high) % 4096 == e
  {
  }

  lemma OddEntry(es: seq<nat>, v: Volume, c: nat)
    requires v.kind == Fat12 && v.table == Packed12(es) && c < |es| && es[c] < 4096 && c % 2 == 1
    ensures InTable(v, c) && NextCluster(v, c) == es[c]
  {
    hide Nibble;
    EntryNibbles(es, c);
    Digits(es[c]);
    var a := c + c / 2;
    assert 2 * a + 1 == 3 * c;
    NibbleBound(es, 2 * a);
    assert v.table[a] == Nibble(es, 2 * a) + 16 * (es[c] % 16);
    assert v.table[a + 1] == es[c] / 16 % 16 + 16 * (es[c] / 256 % 16);
  }

  /** Decoding inverts the 12-bit packing. */
  lemma Decoded12(es: seq<nat>, v: Volume, c: nat)
    requires v.kind == Fat12 && v.table == Packed12(es) && c < |es| && es[c] < 4096
    ensures InTable(v, c) && NextCluster(v, c) == es[c]
  {
    hide *;
    if c % 2 == 0 { EvenEntry(es, v, c); } else { OddEntry(es, v, c); }
  }

  lemma NibbleBound(es: seq<nat>, k: nat)
    requires k / 3 < |es|
    ensures Nibble(es, k) < 16
  {
  }

  lemma Decoded16(es: seq<nat>, v: Volume, c: nat)
    requires v.kind == Fat16 && v.table == Packed16(es) && c < |es| && es[c] < 65536
    ensures InTable(v, c) && NextCluster(v, c) == es[c]
  {
    assert v.table[2 * c] == es[c] % 256 && v.table[2 * c + 1] == es[c] / 256 % 256;
  }

  /** The word stored for an entry: the reserved bits are the high four. */
  function Word32(e: nat, reserved: nat): word {
    e % 0x10000000 + (reserved % 16) * 0x10000000
  }

  lemma PackedWord(es: seq<nat>, reserved: seq<nat>, c: nat, i: nat)
    requires |reserved| == |es| && c < |es| && i < 4
    ensures Packed32(es, reserved)[4 * c + i] == Le32(Word32(es[c], reserved[c]))[i]
  {
    hide Le32, Word32;
    assert (4 * c + i) / 4 == c && (4 * c + i) % 4 == i;
  }

  lemma Decoded32(es: seq<nat>, reserved: seq<nat>, v: Volume, c: nat)
    requires |reserved| == |es| && v.kind == Fat32 && v.table == Packed32(es, reserved) && c < |es| && es[c] < 0x10000000
    ensures InTable(v, c) && NextCluster(v, c) == es[c]
  {
    hide Le32, Load32;
    forall i | 0 <= i < 4 ensures v.table[4 * c + i] == Le32(Word32(es[c], reserved[c]))[i] {
      PackedWord(es, reserved, c, i);
    }
    LoadStored(v.table, 4 * c, Word32(es[c], reserved[c]));
  }

  // ---------- sectors, blocks and clusters ----------

  function Quotient(n: nat, m: nat): nat
    requires m > 0
  {
    n / m
  }

  function RoundUp(n: nat, m: nat): nat {
    if m == 0 then n else U32(Quotient(U32(n + m - 1), m) * m)
  }

  function SectorsToBlocks(v: Volume, sectors: nat): nat
    requires v.blockSize > 0
  {
    Quotient(RoundUp(U32(sectors * v.bytesPerSector), v.blockSize), v.blockSize)
  }

  function SectorToLba(v: Volume, sector: nat): nat
    requires v.blockSize > 0
  {
    Quotient(U32(sector * v.bytesPerSector), v.blockSize)
  }

  function ClusterToSector(v: Volume, c: nat): nat {
    U32(U32(c - 2) * v.sectorsPerCluster + v.firstDataSector)
  }

  /** The size of a cluster, and the block size a divisor of it and of the start of the data area. */
  ghost predicate GeometryOk(v: Volume) {
    && 0 < v.blockSize < TWO32 && 0 < v.bytesPerSector < 65536 && 0 < v.sectorsPerCluster < 256
    && v.firstDataSector < TWO32
    && ClusterSize(v) % v.blockSize == 0
    && (v.firstDataSector * v.bytesPerSector) % v.blockSize == 0
  }

  function ClusterSize(v: Volume): nat { v.sectorsPerCluster * v.bytesPerSector }

  /** Where cluster `c` starts on the device, in bytes. */
  function ClusterStart(v: Volume, c: int): int {
    (c - 2) * ClusterSize(v) + v.firstDataSector * v.bytesPerSector
  }

  /** Cluster `c` has a table entry and lies on a device, in the part a 32-bit byte address can reach. */
  ghost predicate ClusterOk(v: Volume, disk: seq<byte>, c: int) {
    2 <= c < TWO32 && InTable(v, c) && ClusterStart(v, c) + ClusterSize(v) <= |disk| && ClusterStart(v, c) < TWO32
  }

  function ClusterBytes(v: Volume, disk: seq<byte>, c: nat): (bs: seq<byte>)
    requires 2 <= c && ClusterStart(v, c) + ClusterSize(v) <= |disk|
    ensures |bs| == ClusterSize(v)
  {
    StartNonNegative(v, c);
    disk[ClusterStart(v, c)..ClusterStart(v, c) + ClusterSize(v)]
  }

  /** The first cluster, number 2, starts with the data area, and the others follow one behind the other. */
  lemma ClusterPlaces(v: Volume, c: int, d: int)
    ensures ClusterStart(v, 2) == v.firstDataSector * v.bytesPerSector
    ensures ClusterStart(v, c + 1) == ClusterStart(v, c) + v.sectorsPerCluster * v.bytesPerSector
    ensures c < d ==> ClusterStart(v, c) + v.sectorsPerCluster * v.bytesPerSector <= ClusterStart(v, d)
  {
    var cs := v.sectorsPerCluster * v.bytesPerSector;
    assert (c + 1 - 2) * cs == (c - 2) * cs + cs;
    if c < d {
      assert (d - 2) * cs - (c - 2) * cs - cs == (d - c - 1) * cs;
      assert 0 <= (d - c - 1) * cs;
    }
  }

  /** The sector the source computes is that of the cluster, as long as it does not wrap around. */
  lemma SectorPlaces(v: Volume, c: nat)
    requires 2 <= c < TWO32 && (c - 2) * v.sectorsPerCluster + v.firstDataSector < TWO32
    ensures ClusterToSector(v, c) == (c - 2) * v.sectorsPerCluster + v.firstDataSector
  {
    assert 0 <= (c - 2) * v.sectorsPerCluster;
  }

  lemma StartNonNegative(v: Volume, c: nat)
    requires 2 <= c
    ensures 0 <= ClusterStart(v, c)
  {
    assert 0 <= (c - 2) * ClusterSize(v);
  }

  lemma WholeBlocks(n: nat, b: nat)
    requires 0 < b && n % b == 0
    ensures (n + b - 1) / b * b == n && n / b * b == n
  {
    var q := n / b;
    assert n == q * b;
    assert (n + b - 1) / b == q by { DivUnique(n + b - 1, b, q, b - 1); }
  }

  lemma OnlyMultiple(k: int, d: int)
    requires -d < k * d < d
    ensures k == 0
  {
    TimesSign(k, d);
  }

  lemma TimesSign(k: int, d: int)
    requires 0 < d
    ensures 1 <= k ==> d <= k * d
    ensures k <= -1 ==> k * d <= -d
  {
    if 1 <= k {
      assert 0 <= (k - 1) * d;
    } else if k <= -1 {
      assert 0 <= (-1 - k) * d;
    }
  }

  lemma DivUnique(x: int, d: int, q: int, r: int)
    requires 0 < d && x == q * d + r && 0 <= r < d
    ensures x / d == q && x % d == r
  {
    var q', r' := x / d, x % d;
    assert x == q' * d + r';
    assert (q - q') * d == r' - r;
    OnlyMultiple(q - q', d);
  }

  lemma SumDivisible(a: int, b: int, d: int)
    requires 0 < d && a % d == 0 && b % d == 0
    ensures (a + b) % d == 0
  {
    assert a + b == (a / d + b / d) * d;
    DivUnique(a + b, d, a / d + b / d, 0);
  }

  lemma ProductDivisible(k: int, a: int, d: int)
    requires 0 < d && a % d == 0
    ensures (k * a) % d == 0
  {
    assert k * a == (k * (a / d)) * d;
    DivUnique(k * a, d, k * (a / d), 0);
  }

  /** The block address of a sector is exact if and only if the sector starts on a block and below 4 GiB. */
  lemma LbaExact(v: Volume, sector: nat)
    requires v.blockSize > 0
    ensures var start := sector * v.bytesPerSector;
            SectorToLba(v, sector) * v.blockSize == start <==> start < TWO32 && start % v.blockSize == 0
  {
    var start := sector * v.bytesPerSector;
    var u := U32(start);
    var q := u / v.blockSize;
    assert u == q * v.blockSize + u % v.blockSize;
    if q * v.blockSize == start {
      assert u <= start;
    }
  }

  lemma SectorOfCluster(v: Volume, c: nat)
    requires GeometryOk(v) && 2 <= c < TWO32 && ClusterStart(v, c) < TWO32
    ensures ClusterToSector(v, c) * v.bytesPerSector == ClusterStart(v, c)
  {
    hide U32;
    var k, spc, bps, f := c - 2, v.sectorsPerCluster, v.bytesPerSector, v.firstDataSector;
    Product(k, spc);
    Distribute(k, spc, bps, f);
    Scaled(k * spc + f, bps);
    SmallU32(k);
    SmallU32(k * spc + f);
  }

  lemma SmallU32(x: int)
    requires 0 <= x < TWO32
    ensures U32(x) == x
  {
  }

  lemma Product(a: nat, b: nat)
    ensures 0 <= a * b
  {
  }

  lemma StartAligned(v: Volume, c: nat)
    requires GeometryOk(v)
    ensures ClusterStart(v, c) % v.blockSize == 0
  {
    hide ClusterSize;
    ProductDivisible(c - 2, ClusterSize(v), v.blockSize);
    SumDivisible((c - 2) * ClusterSize(v), v.firstDataSector * v.bytesPerSector, v.blockSize);
  }

  /** What is read for a cluster of a volume of good geometry is the cluster. */
  lemma ClusterBlocks(v: Volume, c: nat)
    requires GeometryOk(v) && 2 <= c < TWO32 && ClusterStart(v, c) < TWO32
    ensures SectorsToBlocks(v, v.sectorsPerCluster) * v.blockSize == ClusterSize(v)
    ensures SectorToLba(v, ClusterToSector(v, c)) * v.blockSize == ClusterStart(v, c)
  {
    hide ClusterStart, ClusterSize, SectorToLba, ClusterToSector, SectorsToBlocks;
    BlocksOfCluster(v);
    SectorOfCluster(v, c);
    StartAligned(v, c);
    LbaExact(v, ClusterToSector(v, c));
  }

  lemma BlocksOfCluster(v: Volume)
    requires GeometryOk(v)
    ensures 0 < ClusterSize(v) < 0x1000000
    ensures SectorsToBlocks(v, v.sectorsPerCluster) * v.blockSize == ClusterSize(v)
  {
    var cs, bs := ClusterSize(v), v.blockSize;
    ProductBounds(v.sectorsPerCluster, v.bytesPerSector);
    assert bs <= cs by { if cs < bs { DivUnique(cs, bs, 0, cs); } }
    assert U32(cs) == cs && U32(cs + bs - 1) == cs + bs - 1;
    WholeBlocks(cs, bs);
    assert RoundUp(cs, bs) == cs;
  }

  lemma ProductBounds(a: nat, b: nat)
    requires 0 < a < 256 && 0 < b < 65536
    ensures 0 < a * b < 0x1000000
  {
    assert a * b <= 255 * b;
  }

  lemma Distribute(k: int, a: int, b: int, f: int)
    ensures (k * a + f) * b == k * (a * b) + f * b
  {
    assert k * a * b == k * (a * b);
  }

  lemma Scaled(a: nat, b: nat)
    requires 0 < b
    ensures a <= a * b
  {
  }

  // ---------- chains ----------

  /** The first `n` clusters of the chain from `c` on exist. */
  ghost predicate ChainOk(v: Volume, disk: seq<byte>, c: nat, n: nat)
    decreases n
  {
    n > 0 ==> ClusterOk(v, disk, c) && ChainOk(v, disk, NextCluster(v, c), n - 1)
  }

  /** The bytes of the first `n` clusters of the chain, one after the other. */
  ghost function Content(v: Volume, disk: seq<byte>, c: nat, n: nat): seq<byte>
    requires ChainOk(v, disk, c, n)
    decreases n
  {
    if n == 0 then [] else ClusterBytes(v, disk, c) + Content(v, disk, NextCluster(v, c), n - 1)
  }

  /** The cluster reached after `k` steps. */
  ghost function Follow(v: Volume, disk: seq<byte>, c: nat, k: nat): nat
    requires ChainOk(v, disk, c, k)
    decreases k
  {
    if k == 0 then c else Follow(v, disk, NextCluster(v, c), k - 1)
  }

  /** One cluster is its bytes on the device, and the next is what the table says. */
  lemma ContentOne(v: Volume, disk: seq<byte>, c: nat)
    requires ChainOk(v, disk, c, 1)
    ensures var start := (c - 2) * (v.sectorsPerCluster * v.bytesPerSector) + v.firstDataSector * v.bytesPerSector;
            && 0 <= start && start + v.sectorsPerCluster * v.bytesPerSector <= |disk|
            && Content(v, disk, c, 1) == disk[start..start + v.sectorsPerCluster * v.bytesPerSector]
    ensures Follow(v, disk, c, 1) == NextCluster(v, c)
  {
    assert ClusterOk(v, disk, c);
    StartNonNegative(v, c);
    assert Content(v, disk, NextCluster(v, c), 0) == [];
  }

  lemma {:induction false} ContentLength(v: Volume, disk: seq<byte>, c: nat, n: nat)
    requires ChainOk(v, disk, c, n)
    ensures |Content(v, disk, c, n)| == n * ClusterSize(v)
    decreases n
  {
    hide ClusterSize, NextCluster, InTable, ClusterStart;
    if n > 0 {
      ContentLength(v, disk, NextCluster(v, c), n - 1);
      assert n * ClusterSize(v) == ClusterSize(v) + (n - 1) * ClusterSize(v);
    }
  }

  /** A chain cut after `a` clusters: the rest is the chain from the cluster reached. */
  lemma {:induction false} ContentSplit(v: Volume, disk: seq<byte>, c: nat, a: nat, b: nat)
    requires ChainOk(v, disk, c, a + b)
    ensures ChainOk(v, disk, c, a) && ChainOk(v, disk, Follow(v, disk, c, a), b)
    ensures Content(v, disk, c, a + b) == Content(v, disk, c, a) + Content(v, disk, Follow(v, disk, c, a), b)
    decreases a
  {
    hide ClusterBytes, ClusterSize, NextCluster, InTable, ClusterStart;
    if a > 0 {
      ContentSplit(v, disk, NextCluster(v, c), a - 1, b);
    }
  }

  lemma {:induction false} FollowNext(v: Volume, disk: seq<byte>, c: nat, k: nat)
    requires ChainOk(v, disk, c, k + 1)
    ensures ChainOk(v, disk, c, k) && ClusterOk(v, disk, Follow(v, disk, c, k))
    ensures Follow(v, disk, c, k + 1) == NextCluster(v, Follow(v, disk, c, k))
    decreases k
  {
    hide ClusterSize, NextCluster, InTable, ClusterStart;
    if k > 0 {
      FollowNext(v, disk, NextCluster(v, c), k - 1);
    }
  }
}
