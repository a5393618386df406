/** Byte-addressed memory of a 32-bit little-endian machine. */
module Bytes {

  type byte = x: int | 0 <= x < 256
  type word = x: int | 0 <= x < 0x1_0000_0000

  /** The four bytes a 32-bit store leaves in memory. */
  function Le32(w: word): (bs: seq<byte>)
    ensures |bs| == 4
  {
    [w % 256, w / 256 % 256, w / 65536 % 256, w / 16777216]
  }

  /** A 32-bit load at address `a`; no alignment is needed on this machine. */
  function Load32(ram: seq<byte>, a: nat): word
    requires a + 4 <= |ram|
  {
    (ram[a] as int) + 256 * (ram[a + 1] as int) + 65536 * (ram[a + 2] as int) + 16777216 * (ram[a + 3] as int)
  }

  /** Memory after `bs` has been stored at address `a`. */
  function Poke(ram: seq<byte>, a: nat, bs: seq<byte>): (r: seq<byte>)
    requires a + |bs| <= |ram|
    ensures |r| == |ram|
    ensures forall i :: a <= i < a + |bs| ==> r[i] == bs[i - a]
    ensures forall i :: 0 <= i < |ram| && !(a <= i < a + |bs|) ==> r[i] == ram[i]
  {
    ram[..a] + bs + ram[a + |bs|..]
  }

  /** The two memories hold the same bytes on [lo, hi). */
  ghost predicate Agree(ram: seq<byte>, ram': seq<byte>, lo: nat, hi: nat) {
    && |ram| == |ram'|
    && forall x :: lo <= x < hi && x < |ram| ==> ram'[x] == ram[x]
  }

  /** `n` bytes at `src` in `ram` are found at `dst` in `ram'`. */
  ghost predicate Copied(ram: seq<byte>, src: nat, ram': seq<byte>, dst: nat, n: nat)
    requires src + n <= |ram| && dst + n <= |ram'|
  {
    forall x :: dst <= x < dst + n ==> ram'[x] == ram[src + (x - dst)]
  }

  lemma LoadStored(ram: seq<byte>, a: nat, w: word)
    requires a + 4 <= |ram|
    requires forall i :: 0 <= i < 4 ==> ram[a + i] == Le32(w)[i]
    ensures Load32(ram, a) == w
  {
    assert ram[a + 0] == Le32(w)[0] && ram[a + 1] == Le32(w)[1];
    assert ram[a + 2] == Le32(w)[2] && ram[a + 3] == Le32(w)[3];
    assert w == w % 256 + 256 * (w / 256);
    var q := w / 256;
    assert q == q % 256 + 256 * (q / 256);
    var s := q / 256;
    assert s == s % 256 + 256 * (s / 256);
    assert w / 65536 == s && w / 16777216 == s / 256;
  }

  lemma LoadAgree(ram: seq<byte>, ram': seq<byte>, a: nat)
    requires a + 4 <= |ram|
    requires Agree(ram, ram', a, a + 4)
    ensures Load32(ram', a) == Load32(ram, a)
  {
  }

  lemma StoredLoad(ram: seq<byte>, a: nat)
    requires a + 4 <= |ram|
    ensures forall i :: 0 <= i < 4 ==> Le32(Load32(ram, a))[i] == ram[a + i]
  {
    var b0: int, b1: int, b2: int, b3: int := ram[a], ram[a + 1], ram[a + 2], ram[a + 3];
    LowByte(b0, b1 + 256 * (b2 + 256 * b3));
    LowByte(b1, b2 + 256 * b3);
    LowByte(b2, b3);
    HighParts(Load32(ram, a));
    assert forall i :: 0 <= i < 4 ==> ram[a + i] == [b0, b1, b2, b3][i];
  }

  lemma LowByte(r: int, q: nat)
    requires 0 <= r < 256
    ensures (r + 256 * q) % 256 == r && (r + 256 * q) / 256 == q
  {
  }

  lemma HighParts(w: nat)
    ensures w / 65536 == w / 256 / 256 && w / 16777216 == w / 256 / 256 / 256
  {
  }
}
