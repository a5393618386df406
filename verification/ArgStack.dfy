/** The argument image that syscall_setup of kernel/kernel/i386/syscall.c builds on a new user stack. */
module ArgStack {
  import opened Wrappers
  import opened Bytes
  import opened CStrings
  import opened Errno

  const STACK_REGION_SIZE: nat := 0x400000

  type Text = seq<byte>

  class Regs {
    var useresp: nat
  }

  // ---------- the image ----------

  /** Room for a string of length `n`: with its terminator, in whole words. */
  function Room(n: nat): nat {
    var size := n + 1;
    if size % 4 != 0 then size + (4 - size % 4) else size
  }

  lemma RoomWhole(n: nat)
    ensures Room(n) % 4 == 0 && n < Room(n) <= n + 4
  {
  }

  /** Room for the first `k` strings. */
  function Used(args: seq<Text>, k: nat): nat
    requires k <= |args|
  {
    if k == 0 then 0 else Used(args, k - 1) + Room(|args[k - 1]|)
  }

  /** Everything: strings, the vector with its NULL, its address and the count. */
  function Total(args: seq<Text>): nat {
    Used(args, |args|) + 4 * (|args| + 1) + 8
  }

  /** 12 bytes without arguments, and for each one a pointer and its string, NUL and padding to a multiple of 4 included. */
  lemma {:induction false} TotalGrows(args: seq<Text>, a: Text)
    ensures Total([]) == 12
    ensures var more := Total(args + [a]) - Total(args) - 4; more % 4 == 0 && |a| + 1 <= more <= |a| + 4
  {
    RoomWhole(|a|);
    UsedPrefix(args, a, |args|);
  }

  lemma {:induction false} UsedPrefix(args: seq<Text>, a: Text, k: nat)
    requires k <= |args|
    ensures Used(args + [a], k) == Used(args, k)
  {
    if k > 0 { UsedPrefix(args, a, k - 1); }
  }

  lemma {:induction false} UsedGrows(args: seq<Text>, j: nat, k: nat)
    requires j <= k <= |args|
    ensures Used(args, j) <= Used(args, k)
    decreases k
  {
    if j < k { UsedGrows(args, j, k - 1); }
  }

  lemma {:induction false} UsedWhole(args: seq<Text>, k: nat)
    requires k <= |args|
    ensures Used(args, k) % 4 == 0
  {
    if k > 0 {
      UsedWhole(args, k - 1);
      RoomWhole(|args[k - 1]|);
    }
  }

  /** Where string `i` goes: strings are pushed one below the other. */
  function Place(args: seq<Text>, top: nat, i: nat): int
    requires i < |args|
  {
    top - Used(args, i + 1)
  }

  /** Strings do not overlap each other, and lie between the vector and the top. */
  lemma PlacesDisjoint(args: seq<Text>, top: nat, i: nat, j: nat)
    requires i < j < |args|
    ensures Place(args, top, j) + |args[j]| + 1 <= Place(args, top, i)
    ensures top - Used(args, |args|) <= Place(args, top, j) && Place(args, top, i) + |args[i]| + 1 <= top
  {
    UsedGrows(args, i + 1, j);
    UsedGrows(args, j + 1, |args|);
    UsedGrows(args, 0, i);
    RoomWhole(|args[j]|);
    RoomWhole(|args[i]|);
  }

  ghost predicate StringsAt(m: seq<byte>, args: seq<Text>, top: nat, k: nat)
    requires k <= |args|
  {
    forall i :: 0 <= i < k ==> 0 <= Place(args, top, i) && IsStr(m, Place(args, top, i), args[i])
  }

  /** Words `0 .. k` of the vector at `vec` point at the strings. */
  ghost predicate VectorAt(m: seq<byte>, args: seq<Text>, top: nat, vec: nat, k: nat)
    requires k <= |args| && vec + 4 * k <= |m|
  {
    forall i :: 0 <= i < k ==> WordAt(m, vec, i) == Place(args, top, i)
  }

  function WordAt(m: seq<byte>, vec: nat, i: nat): word
    requires vec + 4 * i + 4 <= |m|
  {
    Load32(m, vec + 4 * i)
  }

  /** The complete image below `top`, with the stack pointer at `sp`. */
  ghost predicate ImageAt(m: seq<byte>, args: seq<Text>, top: nat, sp: nat) {
    && sp + Total(args) == top <= |m|
    && StringsAt(m, args, top, |args|)
    && Load32(m, sp) == |args|
    && Load32(m, sp + 4) == sp + 8
    && VectorAt(m, args, top, sp + 8, |args|)
    && WordAt(m, sp + 8, |args|) == 0
  }

  // ---------- reading it back ----------

  /** What a program finds: the strings that the first `n` words of a vector point at. */
  ghost function ReadVector(m: seq<byte>, vec: nat, n: nat): Option<seq<Text>>
    requires vec + 4 * n <= |m|
  {
    if n == 0 then Some([]) else
    var before, p := ReadVector(m, vec, n - 1), WordAt(m, vec, n - 1);
    if before.Some? && Terminated(m, p) then Some(before.value + [StrAt(m, p)]) else None
  }

  /** A program started with the stack pointer `sp` reads the count, then the vector, up to its NULL. */
  ghost function ReadArguments(m: seq<byte>, sp: nat): Option<seq<Text>> {
    if sp + 8 > |m| then None else
    var argc, argv := Load32(m, sp), Load32(m, sp + 4);
    if argv + 4 * (argc + 1) > |m| || WordAt(m, argv, argc) != 0 then None else ReadVector(m, argv, argc)
  }

  lemma {:induction false} VectorRead(m: seq<byte>, args: seq<Text>, top: nat, vec: nat, k: nat)
    requires k <= |args| && vec + 4 * |args| <= |m|
    requires StringsAt(m, args, top, |args|) && VectorAt(m, args, top, vec, |args|)
    ensures ReadVector(m, vec, k) == Some(args[..k])
  {
    hide IsStr, Load32, Used, StrAt, Terminated;
    if k > 0 {
      VectorRead(m, args, top, vec, k - 1);
      StrIs(m, Place(args, top, k - 1), args[k - 1]);
      assert args[..k] == args[..k - 1] + [args[k - 1]];
    }
  }

  /** Reading the image back recovers exactly the arguments. */
  lemma ArgumentsRecovered(m: seq<byte>, args: seq<Text>, top: nat, sp: nat)
    requires ImageAt(m, args, top, sp)
    ensures ReadArguments(m, sp) == Some(args)
  {
    VectorRead(m, args, top, sp + 8, |args|);
    assert args[..|args|] == args;
  }

  /** From an aligned start everything in the image is aligned. */
  lemma ImageAligned(m: seq<byte>, args: seq<Text>, top: nat, sp: nat)
    requires ImageAt(m, args, top, sp) && top % 4 == 0
    ensures sp % 4 == 0 && forall i :: 0 <= i < |args| ==> Place(args, top, i) % 4 == 0
  {
    hide StringsAt, VectorAt, Load32, Used;
    UsedWhole(args, |args|);
    forall i | 0 <= i < |args| ensures Place(args, top, i) % 4 == 0 {
      UsedWhole(args, i + 1);
    }
  }

  // ---------- stores ----------

  method Store32(m: array<byte>, a: nat, w: word)
    requires a + 4 <= m.Length
    modifies m
    ensures m[..] == Poke(old(m[..]), a, Le32(w))
    ensures Load32(m[..], a) == w
  {
    var bs := Le32(w);
    forall i | 0 <= i < 4 { m[a + i] := bs[i]; }
    LoadStored(m[..], a, w);
  }

  /** Memory agrees outside [lo, hi). */
  ghost predicate Outside(m: seq<byte>, m': seq<byte>, lo: nat, hi: nat) {
    |m'| == |m| && forall x :: 0 <= x < |m| && !(lo <= x < hi) ==> m'[x] == m[x]
  }

  lemma StringKept(m: seq<byte>, m': seq<byte>, a: nat, s: Text, lo: nat, hi: nat)
    requires IsStr(m, a, s) && Outside(m, m', lo, hi) && hi <= a
    ensures IsStr(m', a, s)
  {
    assert m'[a..a + |s|] == m[a..a + |s|];
  }

  lemma StringsKept(m: seq<byte>, m': seq<byte>, args: seq<Text>, top: nat, k: nat, lo: nat, hi: nat)
    requires k <= |args| && StringsAt(m, args, top, k) && Outside(m, m', lo, hi) && hi <= top - Used(args, k)
    ensures StringsAt(m', args, top, k)
  {
    hide IsStr, Outside;
    forall i | 0 <= i < k ensures IsStr(m', Place(args, top, i), args[i]) {
      UsedGrows(args, i + 1, k);
      StringKept(m, m', Place(args, top, i), args[i], lo, hi);
    }
  }

  lemma VectorKept(m: seq<byte>, m': seq<byte>, args: seq<Text>, top: nat, vec: nat, k: nat, lo: nat, hi: nat)
    requires k <= |args| && vec + 4 * k <= |m| && VectorAt(m, args, top, vec, k)
    requires Outside(m, m', lo, hi) && (hi <= vec || vec + 4 * k <= lo)
    ensures VectorAt(m', args, top, vec, k)
  {
    forall i | 0 <= i < k ensures WordAt(m', vec, i) == WordAt(m, vec, i) {
      LoadAgree(m, m', vec + 4 * i);
    }
  }

  // ---------- the call ----------

  /** The arguments of the process, as they lie in kernel memory. */
  ghost function Arguments(kernel: seq<byte>, argv: seq<nat>): (args: seq<Text>)
    requires forall i :: 0 <= i < |argv| ==> Terminated(kernel, argv[i])
    ensures |args| == |argv| && forall i :: 0 <= i < |argv| ==> args[i] == StrAt(kernel, argv[i])
  {
    seq(|argv|, i requires 0 <= i < |argv| => StrAt(kernel, argv[i]))
  }

  /** The strings of the arguments with whatever follows them can be read in whole words. */
  ghost predicate Readable(kernel: seq<byte>, argv: seq<nat>) {
    forall i :: 0 <= i < |argv| ==> Terminated(kernel, argv[i]) && argv[i] + Room(|StrAt(kernel, argv[i])|) <= |kernel|
  }

  /** A string copied in whole words: up to three bytes that follow it are copied along. */
  method CopyString(user: array<byte>, dst: nat, kernel: seq<byte>, src: nat, size: nat)
    requires dst + size <= user.Length && src + size <= |kernel|
    requires Terminated(kernel, src) && |StrAt(kernel, src)| < size
    modifies user
    ensures Outside(old(user[..]), user[..], dst, dst + size)
    ensures IsStr(user[..], dst, StrAt(kernel, src))
  {
    StrAtChars(kernel, src);
    ghost var s := StrAt(kernel, src);
    forall i | 0 <= i < size { user[dst + i] := kernel[src + i]; }
    assert user[..][dst..dst + |s|] == kernel[src..src + |s|];
  }

  /** One turn of the first loop. */
  method PushString(user: array<byte>, regs: Regs, base: nat, kernel: seq<byte>, src: nat) returns (ok: bool)
    requires Terminated(kernel, src) && src + Room(|StrAt(kernel, src)|) <= |kernel|
    requires base <= regs.useresp <= user.Length
    modifies user, regs
    ensures var room, top := Room(|StrAt(kernel, src)|), old(regs.useresp);
            && (ok <==> room <= top - base)
            && regs.useresp == (if ok then top - room else top)
            && Outside(old(user[..]), user[..], regs.useresp, top)
            && (ok ==> IsStr(user[..], regs.useresp, StrAt(kernel, src)))
  {
    var argLen := Strlen(kernel, src);
    argLen := argLen + 1;
    if argLen % 4 != 0 { argLen := argLen + (4 - argLen % 4); }
    if argLen > regs.useresp - base {
      return false;
    }
    RoomWhole(|StrAt(kernel, src)|);
    regs.useresp := regs.useresp - argLen;
    CopyString(user, regs.useresp, kernel, src, argLen);
    ok := true;
  }

  lemma StringAdded(m: seq<byte>, m': seq<byte>, args: seq<Text>, top: nat, k: nat, sp: nat)
    requires k < |args| && sp == top - Used(args, k + 1) && StringsAt(m, args, top, k)
    requires Outside(m, m', sp, top - Used(args, k)) && IsStr(m', sp, args[k])
    ensures StringsAt(m', args, top, k + 1)
  {
    StringsKept(m, m', args, top, k, sp, top - Used(args, k));
    assert Place(args, top, k) == sp;
  }

  /** The first loop: pushes the strings, unless the stack gets too short. */
  method PushStrings(user: array<byte>, regs: Regs, base: nat, kernel: seq<byte>, argv: seq<nat>)
    returns (ok: bool, targv: seq<nat>)
    requires Readable(kernel, argv) && base <= regs.useresp <= user.Length
    modifies user, regs
    ensures var args, top := Arguments(kernel, argv), old(regs.useresp);
            && base <= regs.useresp <= top && Outside(old(user[..]), user[..], regs.useresp, top)
            && (ok <==> Used(args, |args|) <= top - base)
            && (ok ==>
                  && regs.useresp == top - Used(args, |args|) && StringsAt(user[..], args, top, |args|)
                  && |targv| == |args| && forall i :: 0 <= i < |args| ==> targv[i] == Place(args, top, i))
  {
    hide StringsAt, IsStr, StrAt, Terminated, Room, Outside;
    ghost var args, top, before := Arguments(kernel, argv), regs.useresp, user[..];
    NoStrings(user[..], args, top);
    NothingOutside(user[..], top);
    targv := [];
    var i := 0;
    while i < |argv|
      invariant i <= |argv| && base <= regs.useresp == top - Used(args, i)
      invariant Outside(before, user[..], regs.useresp, top)
      invariant StringsAt(user[..], args, top, i)
      invariant |targv| == i && forall j :: 0 <= j < i ==> targv[j] == Place(args, top, j)
    {
      ghost var m := user[..];
      UsedGrows(args, i + 1, |args|);
      ok := PushString(user, regs, base, kernel, argv[i]);
      OutsideBoth(before, m, user[..], regs.useresp, top - Used(args, i), top);
      if !ok {
        return false, [];
      }
      StringAdded(m, user[..], args, top, i, regs.useresp);
      targv := targv + [regs.useresp];
      i := i + 1;
    }
    ok := true;
  }

  lemma NothingOutside(m: seq<byte>, a: nat)
    ensures Outside(m, m, a, a)
  {
  }

  lemma OutsideBoth(m0: seq<byte>, m1: seq<byte>, m2: seq<byte>, lo: nat, mid: nat, hi: nat)
    requires lo <= mid <= hi && Outside(m0, m1, mid, hi) && Outside(m1, m2, lo, mid)
    ensures Outside(m0, m2, lo, hi)
  {
  }

  lemma NoStrings(m: seq<byte>, args: seq<Text>, top: nat)
    ensures StringsAt(m, args, top, 0)
  {
  }

  /** The second loop: the vector and its NULL. */
  method PushVector(user: array<byte>, vec: nat, targv: seq<nat>)
    requires vec + 4 * (|targv| + 1) <= user.Length
    requires forall i :: 0 <= i < |targv| ==> targv[i] < 0x1_0000_0000
    modifies user
    ensures Outside(old(user[..]), user[..], vec, vec + 4 * (|targv| + 1))
    ensures forall i :: 0 <= i < |targv| ==> WordAt(user[..], vec, i) == targv[i]
    ensures WordAt(user[..], vec, |targv|) == 0
  {
    hide Load32, Le32;
    var i := 0;
    while i < |targv|
      invariant i <= |targv| && Outside(old(user[..]), user[..], vec, vec + 4 * (|targv| + 1))
      invariant forall j :: 0 <= j < i ==> WordAt(user[..], vec, j) == targv[j]
    {
      ghost var m := user[..];
      Store32(user, vec + 4 * i, targv[i]);
      WordsKept(m, user[..], vec, i);
      i := i + 1;
    }
    ghost var m := user[..];
    Store32(user, vec + 4 * |targv|, 0);
    WordsKept(m, user[..], vec, |targv|);
  }

  lemma WordsKept(m: seq<byte>, m': seq<byte>, vec: nat, i: nat)
    requires vec + 4 * i + 4 <= |m| && Outside(m, m', vec + 4 * i, vec + 4 * i + 4)
    ensures forall j :: 0 <= j < i ==> WordAt(m', vec, j) == WordAt(m, vec, j)
  {
    forall j | 0 <= j < i ensures WordAt(m', vec, j) == WordAt(m, vec, j) {
      LoadAgree(m, m', vec + 4 * j);
    }
  }

  /** The rest of the image, below the strings: the vector, its address and the count. */
  method PushHead(user: array<byte>, regs: Regs, base: nat, targv: seq<nat>, ghost args: seq<Text>, ghost top: nat) returns (r: int)
    requires top <= user.Length < 0x1_0000_0000
    requires base <= regs.useresp == top - Used(args, |args|) && StringsAt(user[..], args, top, |args|)
    requires |targv| == |args| && forall i :: 0 <= i < |args| ==> targv[i] == Place(args, top, i)
    modifies user, regs
    ensures base <= regs.useresp <= old(regs.useresp) && Outside(old(user[..]), user[..], regs.useresp, old(regs.useresp))
    ensures r == if Total(args) <= top - base then 0 else -E2BIG
    ensures r == 0 ==> ImageAt(user[..], args, top, regs.useresp)
  {
    hide StringsAt, Load32, Le32, WordAt, ImageAt, Used;
    var argvSize := 4 * (|targv| + 1);
    if argvSize > regs.useresp - base { return -E2BIG; }
    regs.useresp := regs.useresp - argvSize;
    var userArgv := regs.useresp;
    ghost var m1 := user[..];
    PushVector(user, userArgv, targv);
    ghost var m2 := user[..];
    StringsKept(m1, m2, args, top, |args|, userArgv, userArgv + argvSize);
    if 8 > regs.useresp - base { return -E2BIG; }
    regs.useresp := regs.useresp - 4;
    Store32(user, regs.useresp, userArgv);
    ghost var m3 := user[..];
    regs.useresp := regs.useresp - 4;
    Store32(user, regs.useresp, |targv|);
    HeadWritten(m2, m3, user[..], args, top, regs.useresp);
    r := 0;
  }

  /**
   syscall_setup for a process with the arguments `argv` in kernel memory: the image is built exactly when it
   fits between the stack pointer and the bottom of the stack region, and nothing outside it is written.
   */
  method Setup(user: array<byte>, regs: Regs, stackPdi: nat, kernel: seq<byte>, argc: int, argv: seq<nat>) returns (r: int)
    requires user.Length < 0x1_0000_0000 && (stackPdi + 1) * STACK_REGION_SIZE <= user.Length
    requires 0 <= argc ==> argc == |argv| < 0x1_0000_0000 && Readable(kernel, argv)
    modifies user, regs
    ensures var base, top := stackPdi * STACK_REGION_SIZE, old(regs.useresp);
            if argc < 0 then r == -EINVAL && user[..] == old(user[..]) && regs.useresp == top
            else if !(base <= top <= base + STACK_REGION_SIZE) then r == -EFAULT && user[..] == old(user[..]) && regs.useresp == top
            else
              && base <= regs.useresp <= top && Outside(old(user[..]), user[..], regs.useresp, top)
              && r == (if Total(Arguments(kernel, argv)) <= top - base then 0 else -E2BIG)
              && (r == 0 ==> ImageAt(user[..], Arguments(kernel, argv), top, regs.useresp))
  {
    var stackBase := stackPdi * STACK_REGION_SIZE;
    var stackEnd := stackBase + STACK_REGION_SIZE;
    if argc < 0 { return -EINVAL; }
    if regs.useresp < stackBase || regs.useresp > stackEnd { return -EFAULT; }
    var ok, targv := PushStrings(user, regs, stackBase, kernel, argv);
    if !ok { return -E2BIG; }
    r := PushHead(user, regs, stackBase, targv, Arguments(kernel, argv), old(regs.useresp));
  }

  /** The last two words go below the vector and leave the rest of the image alone. */
  lemma HeadWritten(m: seq<byte>, m1: seq<byte>, m2: seq<byte>, args: seq<Text>, top: nat, sp: nat)
    requires sp + Total(args) == top <= |m| < 0x1_0000_0000
    requires StringsAt(m, args, top, |args|) && VectorAt(m, args, top, sp + 8, |args|) && WordAt(m, sp + 8, |args|) == 0
    requires m1 == Poke(m, sp + 4, Le32(sp + 8)) && m2 == Poke(m1, sp, Le32(|args|))
    ensures ImageAt(m2, args, top, sp)
  {
    hide Le32, Load32, IsStr, Used, Place;
    assert Outside(m, m2, sp, sp + 8);
    StringsKept(m, m2, args, top, |args|, sp, sp + 8);
    VectorKept(m, m2, args, top, sp + 8, |args|, sp, sp + 8);
    LoadAgree(m, m2, sp + 8 + 4 * |args|);
    LoadStored(m1, sp + 4, sp + 8);
    LoadAgree(m1, m2, sp + 4);
    LoadStored(m2, sp, |args|);
  }
}
