/** syscall_setenv and syscall_getenv of kernel/kernel/i386/syscall.c on the growing array of a process. */
module Environ {
  import opened Wrappers
  import opened Bytes
  import opened Errno
  import opened EnvironList

  const MAX_ENV_NAME_SIZE: nat := 4096
  const MAX_ENV_VALUE_SIZE: nat := 65536

  /** A string in user memory: None if it cannot be read. */
  type UserText = Option<Text>

  /** kstrdup_user's verdict on a name. */
  function NameError(name: UserText): int {
    if name.None? then -EFAULT else if |name.value| >= MAX_ENV_NAME_SIZE then -ENAMETOOLONG else 0
  }

  /** What setenv returns; `copied` is whether the second reading of the value succeeds. */
  function SetError(list: seq<Text>, name: UserText, value: UserText, copied: bool): int {
    if NameError(name) != 0 then NameError(name)
    else if name.value == [] then -EINVAL
    else if value.None? then -EFAULT
    else if |value.value| > MAX_ENV_VALUE_SIZE then -E2BIG
    else if !copied then -EFAULT
    else if !HasPlace(list, name.value) then -ENOSPC
    else 0
  }

  /**
   setenv succeeds exactly for a readable name of 1 to 4095 bytes and a readable value of at most 65536, if a variable
   is found under the name or there are fewer than 4096. Otherwise it answers, in this order: bad address, name too
   long, empty name, bad address, value too long, bad address, too many variables.
   */
  lemma SetAnswer(list: seq<Text>, name: UserText, value: UserText, copied: bool)
    ensures var r := SetError(list, name, value, copied);
            && (r == 0 <==>
                  && name != None && 1 <= |name.value| < 4096 && value != None && |value.value| <= 65536 && copied
                  && ((exists i :: 0 <= i < |list| && |name.value| < |list[i]| && list[i][..|name.value|] == name.value && list[i][|name.value|] == 61)
                      || |list| < 4096))
            && (r != 0 ==> r == if name == None then -7 else if |name.value| >= 4096 then -12 else if |name.value| == 0 then -8
                                else if value == None then -7 else if |value.value| > 65536 then -15 else if !copied then -7 else -13)
  {
    if name != None {
      assert forall i :: 0 <= i < |list| ==> (Matches(list[i], name.value) <==>
        |name.value| < |list[i]| && list[i][..|name.value|] == name.value && list[i][|name.value|] == 61);
    }
  }

  /** A name is accepted by getenv exactly if it can be read and has fewer than 4096 bytes. */
  lemma NameAnswer(name: UserText)
    ensures NameError(name) == if name == None then -7 else if |name.value| < 4096 then 0 else -12
  {
  }

  class Environment {
    /** Slots in use hold variables; behind them comes a NULL. */
    var environ: array<Option<Text>>
    var environc: nat

    ghost predicate Valid()
      reads this, environ
    {
      && environc <= environ.Length
      && (forall i :: 0 <= i < environc ==> environ[i].Some?)
      && (environ.Length == 0 || (environc < environ.Length && environ[environc] == None))
    }

    ghost function List(): (list: seq<Text>)
      reads this, environ
      requires Valid()
      ensures |list| == environc
      ensures forall i :: 0 <= i < environc ==> list[i] == environ[i].value
    {
      Values(environ[..environc])
    }

    static ghost function Values(slots: seq<Option<Text>>): (list: seq<Text>)
      requires forall i :: 0 <= i < |slots| ==> slots[i].Some?
      ensures |list| == |slots| && forall i :: 0 <= i < |slots| ==> list[i] == slots[i].value
    {
      if slots == [] then [] else [slots[0].value] + Values(slots[1..])
    }

    constructor ()
      ensures Valid() && List() == [] && fresh(environ)
    {
      environ := new Option<Text>[0];
      environc := 0;
    }

    /** The copy a new process gets of its parent's environment, just large enough for it and the NULL. */
    constructor Duplicate(parent: Environment)
      requires parent.Valid()
      ensures Valid() && List() == parent.List() && fresh(environ)
    {
      var size := parent.environc + 1;
      var copy := new Option<Text>[size];
      var i := 0;
      while i < parent.environc
        modifies copy
        invariant i <= parent.environc && copy[..i] == parent.environ[..i]
      {
        copy[i] := parent.environ[i];
        i := i + 1;
      }
      copy[parent.environc] := None;
      environ := copy;
      environc := parent.environc;
      new;
      assert environ[..environc] == parent.environ[..environc];
    }

    method FindVariable(name: Text) returns (index: int)
      requires Valid()
      ensures var i := Find(List(), name); index == if i < environc then i else -1
    {
      var i := 0;
      while i < environc
        invariant i <= environc
        invariant Find(List(), name) == i + Find(List()[i..], name)
      {
        var v := environ[i].value;
        if |v| > |name| && v[..|name|] == name && v[|name|] == EQ {
          return i;
        }
        assert List()[i..][1..] == List()[i + 1..];
        i := i + 1;
      }
      index := -1;
    }

    /** Makes sure that one more variable and the NULL behind it have room. */
    method Grow()
      requires Valid()
      modifies this`environ
      ensures environ == old(environ) || fresh(environ)
      ensures environc + 1 < environ.Length && environ[..environc] == old(environ[..environc])
    {
      if environc + 1 >= environ.Length {
        var newSize := if environ.Length != 0 then environ.Length * 2 else 4;
        if newSize <= environc { newSize := environc + 4; }
        var grown := new Option<Text>[newSize];
        var i := 0;
        while i < environ.Length
          modifies grown
          invariant i <= environ.Length <= grown.Length && grown[..i] == environ[..i]
        {
          grown[i] := environ[i];
          i := i + 1;
        }
        assert grown[..environc] == environ[..][..environc];
        environ := grown;
      }
    }

    /** A failed call changes nothing; a successful one leaves the list Set() describes. */
    method SetEnv(name: UserText, value: UserText, copied: bool) returns (r: int)
      requires Valid() && environc <= MAX_ENVIRON_VARS
      modifies this, environ
      ensures Valid() && r == SetError(old(List()), name, value, copied)
      ensures List() == if r == 0 then Set(old(List()), name.value, value.value) else old(List())
      ensures environ == old(environ) || fresh(environ)
    {
      hide Find, Matches;
      if name.None? { return -EFAULT; }
      if |name.value| >= MAX_ENV_NAME_SIZE { return -ENAMETOOLONG; }
      if |name.value| == 0 { return -EINVAL; }
      if value.None? { return -EFAULT; }
      if |value.value| >= MAX_ENV_VALUE_SIZE + 1 { return -E2BIG; }
      var index := FindVariable(name.value);
      ghost var list := List();
      if !copied { return -EFAULT; }
      var newVar := name.value + [EQ] + value.value;
      if index == -1 {
        if environc >= MAX_ENVIRON_VARS { return -ENOSPC; }
        Grow();
        index := environc;
        environc := environc + 1;
      }
      environ[index] := Some(newVar);
      if environc < environ.Length {
        environ[environc] := None;
      }
      assert List() == Set(list, name.value, value.value);
      r := 0;
    }

    /**
     The value goes to the user's buffer, cut to size - 1 bytes and always terminated; `dataOk` and `nulOk` are
     whether the two copies to user memory succeed.
     */
    method GetEnv(name: UserText, buf: array<byte>, size: nat, dataOk: bool, nulOk: bool) returns (r: int)
      requires Valid() && size <= buf.Length
      modifies buf
      ensures Valid() && List() == old(List())
      ensures NameError(name) != 0 ==> r == NameError(name) && buf[..] == old(buf[..])
      ensures NameError(name) == 0 && Lookup(List(), name.value) == None ==> r == -ENOENT && buf[..] == old(buf[..])
      ensures NameError(name) == 0 && Lookup(List(), name.value) != None && size == 0 ==> r == 0 && buf[..] == old(buf[..])
      ensures NameError(name) == 0 && Lookup(List(), name.value) != None && 0 < size ==>
                var value := Lookup(List(), name.value).value;
                var cut := size <= |value|;
                var n := if cut then size - 1 else |value|;
                // the terminator has a copy of its own only when the value is cut
                var dataFails, nulFails := !dataOk && (!cut || 0 < n), cut && !nulOk;
                && r == (if dataFails || nulFails then -EFAULT else 0)
                && buf[..] == if dataFails then old(buf[..]) else Poke(old(buf[..]), 0, value[..n] + if nulFails then [] else [0])
    {
      if name.None? { return -EFAULT; }
      if |name.value| >= MAX_ENV_NAME_SIZE { return -ENAMETOOLONG; }
      var index := FindVariable(name.value);
      if index == -1 { return -ENOENT; }
      if size == 0 { return 0; }
      var value := environ[index].value[|name.value| + 1..];
      if |value| + 1 > size {
        var n := size - 1;
        if n > 0 && !dataOk { return -EFAULT; }
        forall i | 0 <= i < n { buf[i] := value[i]; }
        if !nulOk { return -EFAULT; }
        buf[n] := 0;
        return 0;
      }
      if !dataOk { return -EFAULT; }
      forall i | 0 <= i < |value| + 1 { buf[i] := if i < |value| then value[i] else 0; }
      r := 0;
    }
  }
}
