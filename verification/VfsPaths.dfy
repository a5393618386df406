/** The path routines of kernel/kernel/drv/fs/vfs.c over character buffers, against the specification of Paths. */
module VfsPaths {
  import opened Wrappers
  import opened Bytes
  import opened CStrings
  import opened Paths

  // ---------- the volume part ----------

  /** Character `i` of the C string `s`: NUL at its end. */
  function CharAt(s: seq<byte>, i: nat): byte
    requires i <= |s|
  {
    if i < |s| then s[i] else 0
  }

  /** vfs_find_block_device_by_path: at most 16 characters are copied before the colon has to come. */
  method FindBlockDevice(fs: Vfs, path: seq<byte>) returns (v: Option<nat>)
    requires NoZero(path)
    ensures v == FindVolume(fs, path)
  {
    var buf := new byte[MAX_VOLUME_NAME + 1];
    var i := 0;
    while i < buf.Length
      invariant i <= buf.Length && i <= |path| && buf[..i] == path[..i]
      invariant forall j :: 0 <= j < i ==> path[j] != COLON
      decreases buf.Length - i
    {
      var c := CharAt(path, i);
      if c == 0 {
        CspanIs(path, [COLON], |path|);
        return None;
      }
      if c == COLON {
        break;
      }
      buf[i] := c;
      i := i + 1;
    }
    if i >= buf.Length || CharAt(path, i) != COLON {
      return None;
    }
    CspanIs(path, [COLON], i);
    buf[i] := 0;
    ghost var name := path[..i];
    StrIs(buf[..], 0, name);
    var w := 0;
    while w < |fs.volumes|
      invariant w <= |fs.volumes| && FirstVolume(fs, name, w) == FirstVolume(fs, name, 0)
    {
      if fs.volumes[w].mounted {
        if fs.volumes[w].name == StrAt(buf[..], 0) {
          return Some(w);
        }
      }
      w := w + 1;
    }
    v := None;
  }

  // ---------- resolving ----------

  /** The components still to come: the one just cut off, and those of the string at `rest`. */
  ghost function Ahead(m: seq<byte>, entry: Option<nat>, rest: nat): seq<seq<byte>>
    requires Terminated(m, rest) && (entry.Some? ==> Terminated(m, entry.value))
  {
    if entry.Some? then [StrAt(m, entry.value)] + Tokens(StrAt(m, rest)) else []
  }

  /** The next component: a call of strtok_r with the position left by the previous one. */
  method NextEntry(m: array<byte>, at: nat) returns (entry: Option<nat>, rest: nat)
    requires Terminated(m[..], at)
    modifies m
    ensures Terminated(m[..], rest) && (entry.Some? ==> Terminated(m[..], entry.value))
    ensures Ahead(m[..], entry, rest) == Tokens(old(StrAt(m[..], at)))
    ensures entry.Some? ==> |StrAt(m[..], rest)| < |old(StrAt(m[..], at))|
  {
    hide Terminated, StrAt, SpanLen, CspanLen, Token, Rest;
    ghost var s := StrAt(m[..], at);
    entry, rest := StrtokR(m, at, [SLASH]);
    RestShorter(s);
  }

  lemma RestShorter(s: seq<byte>)
    ensures Trim(s, [SLASH]) != [] ==> |Rest(Trim(s, [SLASH]), [SLASH])| < |s|
  {
  }

  /** The scan of one directory for an entry; the directory changes under the running position. */
  method ScanEntries(fs: Vfs, dir: nat, entry: seq<byte>) returns (d: nat, found: bool)
    requires TreeOk(fs) && dir < |fs.dirs|
    ensures (d, found) == Scan(fs, dir, 0, false, entry)
  {
    d, found := dir, false;
    var i := 0;
    while i < |fs.dirs[d].children|
      invariant d < |fs.dirs| && Scan(fs, d, i, found, entry) == Scan(fs, dir, 0, false, entry)
      decreases |fs.dirs| - d, |fs.dirs[d].children| - i
    {
      assert DirOk(fs, d);
      if fs.dirs[fs.dirs[d].children[i]].name == entry {
        d := fs.dirs[d].children[i];
        found := true;
      }
      i := i + 1;
    }
  }

  /** A copy of a string, with its terminator. */
  method Strdup(s: seq<byte>) returns (m: array<byte>)
    requires NoZero(s)
    ensures fresh(m) && m[..] == s + [0] && Terminated(m[..], 0) && StrAt(m[..], 0) == s
  {
    m := new byte[|s| + 1](i requires 0 <= i <= |s| => CharAt(s, i));
    assert m[..] == s + [0];
    StrIs(m[..], 0, s);
  }

  /** vfs_find_directory. */
  method FindDirectory(fs: Vfs, path: seq<byte>) returns (r: Option<nat>)
    requires TreeOk(fs) && NoZero(path)
    ensures r == Lookup(fs, path)
  {
    hide TreeOk, FindVolume, SpanLen, CspanLen, Terminated, StrAt, Scan, Tokens;
    var v := FindBlockDevice(fs, path);
    if v == None { return None; }
    VolumeRoot(fs, path, v.value);
    var m := Strdup(path);
    var volume, at := StrtokR(m, 0, [COLON]);
    NoVolumeToken(path);
    var entry, rest := NextEntry(m, at);
    var dir: nat := fs.volumes[v.value].root;
    while entry != None
      invariant dir < |fs.dirs|
      invariant Terminated(m[..], rest) && (entry.Some? ==> Terminated(m[..], entry.value))
      invariant Resolve(fs, dir, Ahead(m[..], entry, rest)) == Lookup(fs, path)
      decreases entry.Some?, |StrAt(m[..], rest)|
    {
      ghost var es := Ahead(m[..], entry, rest);
      var name := StrAt(m[..], entry.value);
      var found: bool;
      ghost var dir0 := dir;
      dir, found := ScanEntries(fs, dir, name);
      if name == [DOT, DOT] {
        ParentInside(fs, dir);
        if fs.dirs[dir].parent == None { return None; }
        dir := fs.dirs[dir].parent.value;
        found := true;
      }
      if name == [DOT] {
        found := true;
      }
      entry, rest := NextEntry(m, rest);
      assert es[1..] == Ahead(m[..], entry, rest);
      if entry == None && !found { return None; }
    }
    r := Some(dir);
  }

  lemma VolumeRoot(fs: Vfs, path: seq<byte>, v: nat)
    requires TreeOk(fs) && FindVolume(fs, path) == Some(v)
    ensures v < |fs.volumes| && fs.volumes[v].root < |fs.dirs|
  {
  }

  lemma ParentInside(fs: Vfs, d: nat)
    requires TreeOk(fs) && d < |fs.dirs|
    ensures fs.dirs[d].parent.Some? ==> fs.dirs[d].parent.value < |fs.dirs|
  {
    assert DirOk(fs, d);
  }

  /** What the first strtok_r leaves over, also when the path is nothing but colons. */
  lemma NoVolumeToken(path: seq<byte>)
    ensures Trim(path, [COLON]) == [] ==> Rest(Trim(path, [COLON]), [COLON]) == []
  {
  }

  // ---------- printing ----------

  method Copy(dst: array<byte>, at: nat, src: seq<byte>)
    requires at + |src| <= dst.Length
    modifies dst
    ensures dst[..] == Poke(old(dst[..]), at, src)
  {
    forall i | 0 <= i < |src| {
      dst[at + i] := src[i];
    }
  }

  /** One turn of the printing loop: `name` and a slash in front of the string in `w`, by way of `w2`. */
  method PrependInPlace(w: array<byte>, w2: array<byte>, name: seq<byte>)
    requires w != w2 && w.Length == w2.Length && Terminated(w[..], 0)
    requires NoZero(name) && |StrAt(w[..], 0)| + |name| + 2 <= w.Length
    modifies w, w2
    ensures IsStr(w[..], 0, Prepend(name, old(StrAt(w[..], 0))))
  {
    hide StrAt, Terminated;
    ghost var path := StrAt(w[..], 0);
    StrAtChars(w[..], 0);
    var curLen := Strlen(w[..], 0);
    if curLen != 0 {
      var total := |name| + 1 + curLen;
      Copy(w2, 0, name);
      w2[|name|] := SLASH;
      Copy(w2, |name| + 1, w[..curLen]);
      w2[total] := 0;
      ghost var joined := name + [SLASH] + path + [0];
      assert w2[..total + 1] == joined;
      Copy(w, 0, w2[..total + 1]);
      Written(w[..], joined, Prepend(name, path));
    } else {
      Copy(w, 0, name);
      w[|name|] := 0;
      assert w[0..|name|] == name;
    }
  }

  lemma Written(m: seq<byte>, bytes: seq<byte>, s: seq<byte>)
    requires bytes == s + [0] && NoZero(s) && |bytes| <= |m| && forall i :: 0 <= i < |bytes| ==> m[i] == bytes[i]
    ensures IsStr(m, 0, s)
  {
    assert m[0..|s|] == s;
  }

  /** Names are C strings; that of a root is not used. */
  ghost predicate NamesAreStrings(fs: Vfs) {
    forall d :: 0 <= d < |fs.dirs| && fs.dirs[d].parent.Some? ==> NoZero(fs.dirs[d].name)
  }

  /** The loop up to the root; it gives up exactly when the buffer is too short for names, a colon and a NUL. */
  method CollectNames(fs: Vfs, d: nat, w: array<byte>, w2: array<byte>) returns (ok: bool)
    requires TreeOk(fs) && NamesAreStrings(fs) && d < |fs.dirs| && w != w2 && 0 < w.Length == w2.Length
    modifies w, w2
    ensures ok ==> IsStr(w[..], 0, PathFrom(fs, d, []))
    ensures !ok ==> |PathFrom(fs, d, [])| + 2 > w.Length
  {
    hide IsStr, StrAt, Terminated, NamesAreStrings, TreeOk;
    w[0] := 0;
    ghost var path: seq<byte> := [];
    EmptyStr(w[..]);
    var dir: nat := d;
    while fs.dirs[dir].parent != None
      invariant dir < |fs.dirs| && IsStr(w[..], 0, path)
      invariant PathFrom(fs, dir, path) == PathFrom(fs, d, [])
      decreases dir
    {
      NamedDir(fs, dir);
      StrIs(w[..], 0, path);
      var curLen := Strlen(w[..], 0);
      var name := fs.dirs[dir].name;
      PathFromLength(fs, fs.dirs[dir].parent.value, Prepend(name, path));
      if curLen + |name| + 2 > w.Length {
        return false;
      }
      PrependInPlace(w, w2, name);
      path := Prepend(name, path);
      dir := fs.dirs[dir].parent.value;
    }
    ok := true;
  }

  lemma EmptyStr(m: seq<byte>)
    requires 0 < |m| && m[0] == 0
    ensures IsStr(m, 0, [])
  {
    assert m[0..0] == [];
  }

  lemma NamedDir(fs: Vfs, d: nat)
    requires TreeOk(fs) && NamesAreStrings(fs) && d < |fs.dirs| && fs.dirs[d].parent.Some?
    ensures NoZero(fs.dirs[d].name) && fs.dirs[d].parent.value < d
  {
    assert DirOk(fs, d);
  }

  lemma PrintedPart(m: seq<byte>, a: nat, s: seq<byte>)
    requires IsStr(m, a, s)
    ensures a + |s| < |m| && m[a..a + |s|] == s
  {
  }

  method WritePath(dst: array<byte>, volume: seq<byte>, path: seq<byte>)
    requires |volume| + 1 + |path| + 1 <= dst.Length
    modifies dst
    ensures dst[..] == Poke(old(dst[..]), 0, volume + [COLON] + path + [0])
  {
    Copy(dst, 0, volume);
    dst[|volume|] := COLON;
    Copy(dst, |volume| + 1, path);
    dst[|volume| + 1 + |path|] := 0;
  }

  /**
   vfs_get_path_directory: the full path and its terminator, or -1 exactly when they do not fit; nothing
   beyond them is written.
   */
  method GetPath(fs: Vfs, d: nat, dst: array<byte>, size: nat) returns (r: int)
    requires TreeOk(fs) && NamesAreStrings(fs) && d < |fs.dirs| && size <= dst.Length
    modifies dst
    ensures r == if |FullPath(fs, d)| + 1 <= size then |FullPath(fs, d)| else -1
    ensures dst[..] == if r == -1 then old(dst[..]) else Poke(old(dst[..]), 0, FullPath(fs, d) + [0])
  {
    hide StrAt, Terminated, NamesAreStrings, TreeOk, IsStr, PathFrom;
    if size == 0 { return -1; }
    var w, w2 := new byte[size], new byte[size];
    var ok := CollectNames(fs, d, w, w2);
    if !ok { return -1; }
    VolumeOf(fs, d);
    StrIs(w[..], 0, PathFrom(fs, d, []));
    var volume := fs.volumes[fs.dirs[d].volume].name;
    var pathLen := Strlen(w[..], 0);
    var total := |volume| + 1 + pathLen;
    if total + 1 > size {
      return -1;
    }
    PrintedPart(w[..], 0, PathFrom(fs, d, []));
    WritePath(dst, volume, w[..pathLen]);
    r := total;
  }

  lemma VolumeOf(fs: Vfs, d: nat)
    requires TreeOk(fs) && d < |fs.dirs|
    ensures fs.dirs[d].volume < |fs.volumes|
  {
    assert DirOk(fs, d);
  }
}
