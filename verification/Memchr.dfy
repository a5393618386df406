/** The word-at-a-time memchr of libc/string/memchr.c. */
module Memchr {
  import opened Wrappers

  const WORD: nat := 4
  const LOW_BITS: bv32 := 0x01010101
  const HIGH_BITS: bv32 := 0x80808080

  /** A 32-bit little-endian load. */
  function Word(b0: bv8, b1: bv8, b2: bv8, b3: bv8): bv32 {
    (b0 as bv32) | ((b1 as bv32) << 8) | ((b2 as bv32) << 16) | ((b3 as bv32) << 24)
  }

  predicate FlagsZeroByte(w: bv32) {
    (w - LOW_BITS) & !w & HIGH_BITS != 0
  }

  /** The test raises its flag exactly for words with a zero byte. */
  lemma ZeroByteTest(w: bv32)
    ensures FlagsZeroByte(w) <==> w & 0xff == 0 || (w >> 8) & 0xff == 0 || (w >> 16) & 0xff == 0 || (w >> 24) & 0xff == 0
  {
  }

  lemma WordBytes(b0: bv8, b1: bv8, b2: bv8, b3: bv8)
    ensures HasBytes(Word(b0, b1, b2, b3), b0 as bv32, b1 as bv32, b2 as bv32, b3 as bv32)
  {
  }

  predicate HasBytes(w: bv32, b0: bv32, b1: bv32, b2: bv32, b3: bv32) {
    w & 0xff == b0 && (w >> 8) & 0xff == b1 && (w >> 16) & 0xff == b2 && (w >> 24) & 0xff == b3
  }

  /** The bytes of `w` equal to the repeated byte of `m` are the zero bytes of their exclusive or. */
  lemma XorBytes(w: bv32, m: bv32, b0: bv32, b1: bv32, b2: bv32, b3: bv32, t: bv32)
    requires HasBytes(w, b0, b1, b2, b3) && HasBytes(m, t, t, t, t)
    ensures FlagsZeroByte(w ^ m) <==> AnyEqual(b0, b1, b2, b3, t)
  {
    ZeroByteTest(w ^ m);
  }

  lemma SameByte(a: bv8, b: bv8)
    ensures a as bv32 == b as bv32 <==> a == b
  {
    assert (a as bv32) as bv8 == a && (b as bv32) as bv8 == b;
  }

  predicate AnyEqual(b0: bv32, b1: bv32, b2: bv32, b3: bv32, t: bv32) {
    b0 == t || b1 == t || b2 == t || b3 == t
  }

  lemma AnySameByte(b0: bv8, b1: bv8, b2: bv8, b3: bv8, t: bv8)
    ensures AnyEqual(b0 as bv32, b1 as bv32, b2 as bv32, b3 as bv32, t as bv32) <==> b0 == t || b1 == t || b2 == t || b3 == t
  {
    SameByte(b0, t);
    SameByte(b1, t);
    SameByte(b2, t);
    SameByte(b3, t);
  }

  /** A word is skipped exactly when none of its bytes is the target. */
  lemma SkippedWord(b0: bv8, b1: bv8, b2: bv8, b3: bv8, t: bv8)
    ensures FlagsZeroByte(Word(b0, b1, b2, b3) ^ Word(t, t, t, t)) <==> b0 == t || b1 == t || b2 == t || b3 == t
  {
    hide Word, FlagsZeroByte, HasBytes, AnyEqual;
    WordBytes(b0, b1, b2, b3);
    WordBytes(t, t, t, t);
    XorBytes(Word(b0, b1, b2, b3), Word(t, t, t, t), b0 as bv32, b1 as bv32, b2 as bv32, b3 as bv32, t as bv32);
    AnySameByte(b0, b1, b2, b3, t);
  }

  /** No byte on [s, p) is the target. */
  ghost predicate Absent(ram: seq<bv8>, s: nat, p: nat, t: bv8) {
    forall i :: s <= i < p && i < |ram| ==> ram[i] != t
  }

  /** The search area lies in memory, or at least the part of it up to the first match does. */
  ghost predicate Searchable(ram: seq<bv8>, s: nat, n: nat, t: bv8) {
    s <= |ram| && (s + n <= |ram| || exists i :: s <= i < |ram| && ram[i] == t)
  }

  lemma StillSearchable(ram: seq<bv8>, s: nat, n: nat, t: bv8, p: nat, k: nat)
    requires Searchable(ram, s, n, t) && s <= p && p + k == s + n && Absent(ram, s, p, t)
    ensures 0 < k ==> p < |ram|
  {
    if s + n > |ram| {
      var i :| s <= i < |ram| && ram[i] == t;
      assert p <= i;
    }
  }

  /** The mask loop: the target in all four bytes. */
  method Spread(target: bv8) returns (mask: bv32)
    ensures mask == Word(target, target, target, target)
  {
    mask := 0;
    var i := 0;
    while i < WORD
      invariant i <= WORD
      invariant mask == if i == 0 then 0 else if i == 1 then Word(target, 0, 0, 0)
                        else if i == 2 then Word(target, target, 0, 0)
                        else if i == 3 then Word(target, target, target, 0) else Word(target, target, target, target)
    {
      mask := (mask << 8) | (target as bv32);
      i := i + 1;
    }
  }

  /**
   The first of the `n` bytes from `s` on that equals `c` converted to a byte, as a linear search would find it;
   memory comes in whole words, and nothing beyond the word of the first match is read.
   */
  method Memchr(ram: seq<bv8>, s: nat, c: bv32, n: nat) returns (r: Option<nat>)
    requires |ram| % WORD == 0 && Searchable(ram, s, n, (c & 0xff) as bv8)
    ensures var t := (c & 0xff) as bv8;
            match r
            case None => s + n <= |ram| && Absent(ram, s, s + n, t)
            case Some(p) => s <= p < s + n && p < |ram| && ram[p] == t && Absent(ram, s, p, t)
  {
    hide Word, FlagsZeroByte;
    var p: nat, k: nat := s, n;
    var target := (c & 0xff) as bv8;
    while p % WORD != 0
      invariant s <= p <= |ram| && p + k == s + n && Absent(ram, s, p, target)
      decreases k
    {
      if k == 0 { return None; }
      StillSearchable(ram, s, n, target, p, k);
      if ram[p] == target { return Some(p); }
      p := p + 1;
      k := k - 1;
    }
    if k >= WORD {
      var mask := Spread(target);
      while k >= WORD
        invariant p % WORD == 0 && s <= p <= |ram| && p + k == s + n && Absent(ram, s, p, target)
        decreases k
      {
        StillSearchable(ram, s, n, target, p, k);
        var word := Word(ram[p], ram[p + 1], ram[p + 2], ram[p + 3]) ^ mask;
        SkippedWord(ram[p], ram[p + 1], ram[p + 2], ram[p + 3], target);
        if FlagsZeroByte(word) {
          break;
        }
        p := p + WORD;
        k := k - WORD;
      }
    }
    while k > 0
      invariant s <= p <= |ram| && p + k == s + n && Absent(ram, s, p, target)
    {
      StillSearchable(ram, s, n, target, p, k);
      if ram[p] == target { return Some(p); }
      p := p + 1;
      k := k - 1;
    }
    r := None;
  }
}
