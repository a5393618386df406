/** NUL-terminated strings in memory, and the libc scans over them: strspn, strcspn, strpbrk and strtok_r. */
module CStrings {
  import opened Wrappers
  import opened Bytes

  // ---------- strings in memory ----------

  predicate Terminated(m: seq<byte>, a: nat)
    decreases |m| - a
  {
    a < |m| && (m[a] == 0 || Terminated(m, a + 1))
  }

  /** The string at address `a`, without its terminator. */
  function StrAt(m: seq<byte>, a: nat): seq<byte>
    requires Terminated(m, a)
    decreases |m| - a
  {
    if m[a] == 0 then [] else [m[a]] + StrAt(m, a + 1)
  }

  predicate NoZero(s: seq<byte>) { forall i :: 0 <= i < |s| ==> s[i] != 0 }

  /** A string `s` with its terminator lies at `a`. */
  predicate IsStr(m: seq<byte>, a: nat, s: seq<byte>) {
    a + |s| < |m| && m[a..a + |s|] == s && m[a + |s|] == 0 && NoZero(s)
  }

  lemma {:induction false} StrAtChars(m: seq<byte>, a: nat)
    requires Terminated(m, a)
    ensures IsStr(m, a, StrAt(m, a))
    decreases |m| - a
  {
    if m[a] != 0 {
      StrAtChars(m, a + 1);
      assert m[a..a + |StrAt(m, a)|] == [m[a]] + m[a + 1..a + 1 + |StrAt(m, a + 1)|];
    }
  }

  lemma {:induction false} StrIs(m: seq<byte>, a: nat, s: seq<byte>)
    requires IsStr(m, a, s)
    ensures Terminated(m, a) && StrAt(m, a) == s
    decreases |s|
  {
    if s != [] {
      assert m[a] == m[a..a + |s|][0];
      assert m[a + 1..a + 1 + |s[1..]|] == s[1..] by { assert m[a + 1..a + |s|] == m[a..a + |s|][1..]; }
      StrIs(m, a + 1, s[1..]);
      assert s == [s[0]] + s[1..];
    }
  }

  /** A suffix of a string is a string. */
  lemma Suffix(m: seq<byte>, a: nat, s: seq<byte>, k: nat)
    requires IsStr(m, a, s) && k <= |s|
    ensures IsStr(m, a + k, s[k..])
  {
    assert m[a + k..a + k + |s[k..]|] == m[a..a + |s|][k..];
  }

  /** A NUL written at position `k` of a string cuts it there. */
  lemma Cut(m: seq<byte>, a: nat, s: seq<byte>, k: nat)
    requires IsStr(m, a, s) && k <= |s|
    ensures IsStr(m[a + k := 0], a, s[..k])
    ensures k < |s| ==> IsStr(m[a + k := 0], a + k + 1, s[k + 1..])
  {
    var m' := m[a + k := 0];
    assert m'[a..a + k] == m[a..a + |s|][..k];
    if k < |s| {
      assert m'[a + k + 1..a + k + 1 + |s[k + 1..]|] == m[a..a + |s|][k + 1..];
    }
  }

  method Strlen(m: seq<byte>, a: nat) returns (n: nat)
    requires Terminated(m, a)
    ensures n == |StrAt(m, a)|
  {
    ghost var s := StrAt(m, a);
    StrAtChars(m, a);
    n := 0;
    while m[a + n] != 0
      invariant n <= |s|
      decreases |s| - n
    {
      n := n + 1;
    }
  }

  // ---------- scans ----------

  /** Length of the longest prefix made of bytes of `accept`. */
  function SpanLen(s: seq<byte>, accept: seq<byte>): (n: nat)
    ensures n <= |s|
    ensures forall i :: 0 <= i < n ==> s[i] in accept
    ensures n < |s| ==> s[n] !in accept
  {
    if s == [] || s[0] !in accept then 0 else 1 + SpanLen(s[1..], accept)
  }

  /** Length of the longest prefix without bytes of `reject`. */
  function CspanLen(s: seq<byte>, reject: seq<byte>): (n: nat)
    ensures n <= |s|
    ensures forall i :: 0 <= i < n ==> s[i] !in reject
    ensures n < |s| ==> s[n] in reject
  {
    if s == [] || s[0] in reject then 0 else 1 + CspanLen(s[1..], reject)
  }

  lemma SpanIs(s: seq<byte>, accept: seq<byte>, n: nat)
    requires n <= |s| && (forall i :: 0 <= i < n ==> s[i] in accept) && (n < |s| ==> s[n] !in accept)
    ensures SpanLen(s, accept) == n
  {
  }

  lemma CspanIs(s: seq<byte>, reject: seq<byte>, n: nat)
    requires n <= |s| && (forall i :: 0 <= i < n ==> s[i] !in reject) && (n < |s| ==> s[n] in reject)
    ensures CspanLen(s, reject) == n
  {
  }

  /** The 256-entry table both scans build: which bytes are in `set`. */
  method FillTable(bytes: seq<byte>) returns (table: array<bool>)
    ensures fresh(table) && table.Length == 256
    ensures forall b: byte :: table[b] <==> b in bytes
  {
    table := new bool[256](_ => false);
    var i := 0;
    while i < |bytes|
      invariant i <= |bytes| && table.Length == 256
      invariant forall b: byte :: table[b] <==> b in bytes[..i]
    {
      table[bytes[i]] := true;
      assert bytes[..i + 1] == bytes[..i] + [bytes[i]];
      i := i + 1;
    }
    assert bytes[..i] == bytes;
  }

  /** strspn; `accept` is a C string, given by its contents. */
  method Strspn(m: array<byte>, s: nat, accept: seq<byte>) returns (n: nat)
    requires Terminated(m[..], s) && NoZero(accept)
    ensures n == SpanLen(StrAt(m[..], s), accept)
  {
    ghost var str := StrAt(m[..], s);
    StrAtChars(m[..], s);
    n := 0;
    if |accept| == 0 { return; }
    if |accept| == 1 {
      while m[s + n] == accept[0]
        invariant n <= |str| && forall i :: 0 <= i < n ==> str[i] in accept
        decreases |str| - n
      {
        assert n < |str| ==> m[s + n] == m[..][s..s + |str|][n];
        n := n + 1;
      }
      assert n < |str| ==> m[s + n] == m[..][s..s + |str|][n];
      SpanIs(str, accept, n);
      return;
    }
    var table := FillTable(accept);
    while m[s + n] != 0 && table[m[s + n]]
      invariant n <= |str| && forall i :: 0 <= i < n ==> str[i] in accept
      decreases |str| - n
    {
      assert n < |str| ==> m[s + n] == m[..][s..s + |str|][n];
      n := n + 1;
    }
    assert n < |str| ==> m[s + n] == m[..][s..s + |str|][n];
    SpanIs(str, accept, n);
  }

  method Strcspn(m: array<byte>, s: nat, reject: seq<byte>) returns (n: nat)
    requires Terminated(m[..], s)
    ensures n == CspanLen(StrAt(m[..], s), reject)
  {
    ghost var str := StrAt(m[..], s);
    StrAtChars(m[..], s);
    var table := FillTable(reject);
    n := 0;
    while m[s + n] != 0
      invariant n <= |str| && forall i :: 0 <= i < n ==> str[i] !in reject
      decreases |str| - n
    {
      assert n < |str| ==> m[s + n] == m[..][s..s + |str|][n];
      if table[m[s + n]] {
        break;
      }
      n := n + 1;
    }
    assert n < |str| ==> m[s + n] == m[..][s..s + |str|][n];
    CspanIs(str, reject, n);
  }

  // ---------- tokens ----------

  /** A string without its leading delimiters. */
  function Trim(s: seq<byte>, delim: seq<byte>): seq<byte> { s[SpanLen(s, delim)..] }

  /** The first token of a string that starts with one. */
  function Token(s: seq<byte>, delim: seq<byte>): seq<byte> { s[..CspanLen(s, delim)] }

  /** What is left behind the first token and the delimiter that ends it. */
  function Rest(s: seq<byte>, delim: seq<byte>): seq<byte> {
    var n := CspanLen(s, delim);
    if n < |s| then s[n + 1..] else []
  }

  /** Memory after the first token of the string `t` at `p` has been cut off, and where the rest is. */
  function CutToken(m: seq<byte>, p: nat, t: seq<byte>, delim: seq<byte>): (seq<byte>, nat)
    requires IsStr(m, p, t)
  {
    var n := CspanLen(t, delim);
    if n < |t| then (m[p + n := 0], p + n + 1) else (m, p + n)
  }

  lemma TokenCut(m: seq<byte>, p: nat, t: seq<byte>, delim: seq<byte>)
    requires IsStr(m, p, t)
    ensures var n := CspanLen(t, delim); m[p + n] == 0 <==> n == |t|
    ensures var (m', r) := CutToken(m, p, t, delim);
            && p <= r && m'[..p] == m[..p]
            && Terminated(m', p) && StrAt(m', p) == Token(t, delim)
            && Terminated(m', r) && StrAt(m', r) == Rest(t, delim)
  {
    hide Terminated, StrAt, CspanLen;
    var n := CspanLen(t, delim);
    var m' := CutToken(m, p, t, delim).0;
    Cut(m, p, t, n);
    Suffix(m, p, t, n);
    if n < |t| {
      assert m[p + n] == m[p..p + |t|][n];
      StrIs(m', p, t[..n]);
      StrIs(m', p + n + 1, t[n + 1..]);
    } else {
      assert t[..n] == t && t[n..] == [];
      StrIs(m, p, t);
      StrIs(m, p + n, []);
    }
  }

  /**
   strtok_r on the string at `s`: cuts off its first token with a NUL and leaves the position of the rest.
   Without a token nothing is written.
   */
  method StrtokR(m: array<byte>, s: nat, delim: seq<byte>) returns (token: Option<nat>, olds: nat)
    requires Terminated(m[..], s) && NoZero(delim)
    modifies m
    ensures s <= olds && Terminated(m[..], olds)
    ensures m[..s] == old(m[..s])
    ensures var t := Trim(old(StrAt(m[..], s)), delim);
            if t == [] then token == None && m[..] == old(m[..]) && StrAt(m[..], olds) == []
            else && token.Some? && s <= token.value && Terminated(m[..], token.value)
                 && StrAt(m[..], token.value) == Token(t, delim)
                 && StrAt(m[..], olds) == Rest(t, delim)
  {
    hide IsStr, Terminated, StrAt, SpanLen, CspanLen, Token, Rest;
    ghost var mem, str := m[..], StrAt(m[..], s);
    StrAtChars(mem, s);
    var skip := Strspn(m, s, delim);
    var p := s + skip;
    ghost var t := Trim(str, delim);
    Suffix(mem, s, str, skip);
    StrIs(mem, p, t);
    StrFirst(mem, p);
    if m[p] == 0 {
      return None, p;
    }
    token := Some(p);
    var n := Strcspn(m, p, delim);
    TokenCut(mem, p, t, delim);
    CutInside(mem, p, t, n);
    if m[p + n] == 0 {
      olds := p + n;
    } else {
      m[p + n] := 0;
      olds := p + n + 1;
    }
    assert (m[..], olds) == CutToken(mem, p, t, delim);
    assert mem[..p][..s] == mem[..s] && m[..p][..s] == m[..s];
  }

  lemma StrFirst(m: seq<byte>, a: nat)
    requires Terminated(m, a)
    ensures a < |m| && (m[a] == 0 <==> StrAt(m, a) == [])
  {
  }

  lemma CutInside(m: seq<byte>, a: nat, s: seq<byte>, k: nat)
    requires IsStr(m, a, s) && k <= |s|
    ensures a + k < |m|
  {
  }
}
