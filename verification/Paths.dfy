/** Paths of kernel/kernel/drv/fs/vfs.c as values: what the printer prints and what the resolver finds. */
module Paths {
  import opened Wrappers
  import opened Bytes
  import opened CStrings

  const SLASH: byte := 47
  const COLON: byte := 58
  const DOT: byte := 46
  const MAX_VOLUME_NAME: nat := 16

  /** A directory; `parent` is None for the root of a volume, whose name is not used. */
  datatype Dir = Dir(name: seq<byte>, parent: Option<nat>, children: seq<nat>, volume: nat)

  datatype Volume = Volume(mounted: bool, name: seq<byte>, root: nat)

  /** Directories and block devices are named by their position. */
  datatype Vfs = Vfs(dirs: seq<Dir>, volumes: seq<Volume>)

  // ---------- well-formed trees ----------

  /** Children know their parent and come after it; every directory lies under the root of its volume. */
  ghost predicate TreeOk(fs: Vfs) {
    && (forall d :: 0 <= d < |fs.dirs| ==> DirOk(fs, d))
    && (forall v :: 0 <= v < |fs.volumes| && fs.volumes[v].mounted ==>
          fs.volumes[v].root < |fs.dirs| && fs.dirs[fs.volumes[v].root].parent == None)
  }

  ghost predicate DirOk(fs: Vfs, d: int)
    requires 0 <= d < |fs.dirs|
  {
    var r := fs.dirs[d];
    && r.volume < |fs.volumes| && fs.volumes[r.volume].mounted
    && (match r.parent
        case None => fs.volumes[r.volume].root == d
        case Some(p) => p < d && d in fs.dirs[p].children && fs.dirs[p].volume == r.volume)
    && (forall i :: 0 <= i < |r.children| ==> d < r.children[i] < |fs.dirs| && fs.dirs[r.children[i]].parent == Some(d))
  }

  predicate PlainName(name: seq<byte>) {
    name != [] && NoZero(name) && SLASH !in name && name != [DOT] && name != [DOT, DOT]
  }

  ghost predicate NamesOk(fs: Vfs) {
    && (forall d :: 0 <= d < |fs.dirs| && fs.dirs[d].parent.Some? ==> PlainName(fs.dirs[d].name))
    && (forall d, i, j :: 0 <= d < |fs.dirs| && 0 <= i < j < |fs.dirs[d].children| ==> !SameName(fs, fs.dirs[d].children[i], fs.dirs[d].children[j]))
    && (forall v :: 0 <= v < |fs.volumes| && fs.volumes[v].mounted ==> VolumeNameOk(fs.volumes[v].name))
    && (forall v, w :: 0 <= v < w < |fs.volumes| && fs.volumes[v].mounted && fs.volumes[w].mounted ==> fs.volumes[v].name != fs.volumes[w].name)
  }

  predicate VolumeNameOk(name: seq<byte>) {
    0 < |name| <= MAX_VOLUME_NAME && NoZero(name) && COLON !in name
  }

  predicate SameName(fs: Vfs, c: nat, e: nat) {
    c < |fs.dirs| && e < |fs.dirs| && fs.dirs[c].name == fs.dirs[e].name
  }

  // ---------- printing ----------

  function Prepend(name: seq<byte>, path: seq<byte>): seq<byte> {
    if path != [] then name + [SLASH] + path else name
  }

  /** The names from below the root down to `d`, in front of what has been printed already. */
  function PathFrom(fs: Vfs, d: nat, path: seq<byte>): seq<byte>
    requires TreeOk(fs) && d < |fs.dirs|
    decreases d
  {
    match fs.dirs[d].parent
    case None => path
    case Some(p) => assert DirOk(fs, d); PathFrom(fs, p, Prepend(fs.dirs[d].name, path))
  }

  function FullPath(fs: Vfs, d: nat): seq<byte>
    requires TreeOk(fs) && d < |fs.dirs|
  {
    assert DirOk(fs, d);
    fs.volumes[fs.dirs[d].volume].name + [COLON] + PathFrom(fs, d, [])
  }

  lemma {:induction false} PathFromLength(fs: Vfs, d: nat, path: seq<byte>)
    requires TreeOk(fs) && d < |fs.dirs|
    ensures |PathFrom(fs, d, path)| >= |path|
    decreases d
  {
    if fs.dirs[d].parent.Some? {
      assert DirOk(fs, d);
      PathFromLength(fs, fs.dirs[d].parent.value, Prepend(fs.dirs[d].name, path));
    }
  }

  // ---------- resolving ----------

  /** First mounted volume of that name, from position `i` on. */
  function FirstVolume(fs: Vfs, name: seq<byte>, i: nat): (v: Option<nat>)
    requires i <= |fs.volumes|
    ensures v.Some? ==> i <= v.value < |fs.volumes| && fs.volumes[v.value].mounted && fs.volumes[v.value].name == name
    ensures v.None? ==> forall w :: i <= w < |fs.volumes| && fs.volumes[w].mounted ==> fs.volumes[w].name != name
    decreases |fs.volumes| - i
  {
    if i == |fs.volumes| then None
    else if fs.volumes[i].mounted && fs.volumes[i].name == name then Some(i)
    else FirstVolume(fs, name, i + 1)
  }

  /** The volume a path names in front of its first colon. */
  function FindVolume(fs: Vfs, path: seq<byte>): Option<nat> {
    var k := CspanLen(path, [COLON]);
    if k == |path| || k > MAX_VOLUME_NAME then None else FirstVolume(fs, path[..k], 0)
  }

  /** The components of a path. */
  function Tokens(s: seq<byte>): seq<seq<byte>>
    decreases |s|
  {
    var t := Trim(s, [SLASH]);
    if t == [] then [] else [Token(t, [SLASH])] + Tokens(Rest(t, [SLASH]))
  }

  /** The scan for an entry. It goes on after a match, from the next position, in the directory just entered. */
  function Scan(fs: Vfs, d: nat, i: nat, found: bool, e: seq<byte>): (r: (nat, bool))
    requires TreeOk(fs) && d < |fs.dirs|
    ensures d <= r.0 < |fs.dirs|
    decreases |fs.dirs| - d, |fs.dirs[d].children| - i
  {
    assert DirOk(fs, d);
    if i >= |fs.dirs[d].children| then (d, found)
    else if fs.dirs[fs.dirs[d].children[i]].name == e then Scan(fs, fs.dirs[d].children[i], i + 1, true, e)
    else Scan(fs, d, i + 1, found, e)
  }

  /** The loop over the components; an unknown one is an error only in last place. */
  function Resolve(fs: Vfs, d: nat, es: seq<seq<byte>>): Option<nat>
    requires TreeOk(fs) && d < |fs.dirs|
    decreases |es|
  {
    if es == [] then Some(d) else
    var (d1, found) := Scan(fs, d, 0, false, es[0]);
    if es[0] == [DOT, DOT] then
      match fs.dirs[d1].parent
      case None => None
      case Some(p) => assert DirOk(fs, d1); Resolve(fs, p, es[1..])
    else if |es| == 1 && !found && es[0] != [DOT] then None
    else Resolve(fs, d1, es[1..])
  }

  function Lookup(fs: Vfs, path: seq<byte>): Option<nat>
    requires TreeOk(fs)
  {
    match FindVolume(fs, path)
    case None => None
    case Some(v) => Resolve(fs, fs.volumes[v].root, Tokens(Rest(Trim(path, [COLON]), [COLON])))
  }

  // ---------- special components ----------

  /** ".." leads to the parent, and from a root to nothing. */
  lemma ResolveParent(fs: Vfs, d: nat, es: seq<seq<byte>>)
    requires TreeOk(fs) && d < |fs.dirs|
    requires forall j :: 0 <= j < |fs.dirs[d].children| ==> !NamedAt(fs, d, j, [46, 46])
    ensures match fs.dirs[d].parent
            case None => Resolve(fs, d, [[46, 46]] + es) == None
            case Some(p) => p < |fs.dirs| && Resolve(fs, d, [[46, 46]] + es) == Resolve(fs, p, es)
  {
    assert DirOk(fs, d);
    ScanNothing(fs, d, 0, false, [46, 46]);
    assert ([[46, 46]] + es)[1..] == es;
  }

  /** "." leads nowhere else. */
  lemma ResolveDot(fs: Vfs, d: nat, es: seq<seq<byte>>)
    requires TreeOk(fs) && d < |fs.dirs|
    requires forall j :: 0 <= j < |fs.dirs[d].children| ==> !NamedAt(fs, d, j, [46])
    ensures Resolve(fs, d, [[46]] + es) == Resolve(fs, d, es)
  {
    ScanNothing(fs, d, 0, false, [46]);
    assert ([[46]] + es)[1..] == es;
  }

  /** A name that no entry has makes a path fail in last place only; elsewhere it is passed over. */
  lemma ResolveUnknown(fs: Vfs, d: nat, e: seq<byte>, es: seq<seq<byte>>)
    requires TreeOk(fs) && d < |fs.dirs| && e != [46] && e != [46, 46]
    requires forall j :: 0 <= j < |fs.dirs[d].children| ==> !NamedAt(fs, d, j, e)
    ensures Resolve(fs, d, [e] + es) == if es == [] then None else Resolve(fs, d, es)
  {
    ScanNothing(fs, d, 0, false, e);
    assert ([e] + es)[1..] == es;
  }

  /** Without a colon, with more than 16 bytes in front of it, or with a name no mounted volume has, there is no volume. */
  lemma NoVolume(fs: Vfs, path: seq<byte>, k: nat)
    requires k <= |path| && 58 !in path[..k] && (k < |path| ==> path[k] == 58)
    ensures k == |path| || k > 16 || (forall w :: 0 <= w < |fs.volumes| && fs.volumes[w].mounted ==> fs.volumes[w].name != path[..k]) ==>
              FindVolume(fs, path) == None
    ensures FindVolume(fs, path) == None && k < |path| && k <= 16 ==>
              forall w :: 0 <= w < |fs.volumes| && fs.volumes[w].mounted ==> fs.volumes[w].name != path[..k]
  {
    CspanIs(path, [COLON], k);
  }

  // ---------- printed paths, from the root down ----------

  /** A root is printed as its volume and a colon; a directory as its parent, a slash if that is no root, and its name. */
  lemma {:induction false} PrintedPath(fs: Vfs, d: nat)
    requires TreeOk(fs) && d < |fs.dirs| && NamesOk(fs)
    ensures DirOk(fs, d)
    ensures match fs.dirs[d].parent
            case None => FullPath(fs, d) == fs.volumes[fs.dirs[d].volume].name + [58]
            case Some(p) => p < |fs.dirs| && FullPath(fs, d) ==
                            FullPath(fs, p) + (if fs.dirs[p].parent == None then [] else [47]) + fs.dirs[d].name
  {
    assert DirOk(fs, d);
    match fs.dirs[d].parent
    case None =>
    case Some(p) =>
      assert DirOk(fs, p) && PlainName(fs.dirs[d].name);
      Behind(fs, p, fs.dirs[d].name);
  }

  /** What has been printed already stays behind the names in front of it. */
  lemma {:induction false} Behind(fs: Vfs, p: nat, path: seq<byte>)
    requires TreeOk(fs) && p < |fs.dirs| && path != [] && NamesOk(fs)
    ensures PathFrom(fs, p, path) == PathFrom(fs, p, []) + (if fs.dirs[p].parent == None then [] else [SLASH]) + path
    ensures fs.dirs[p].parent != None ==> PathFrom(fs, p, []) != []
    decreases p
  {
    assert DirOk(fs, p);
    match fs.dirs[p].parent
    case None =>
    case Some(q) =>
      var name := fs.dirs[p].name;
      assert PlainName(name) && DirOk(fs, q);
      Behind(fs, q, name + [SLASH] + path);
      Behind(fs, q, name);
      var a, sep := PathFrom(fs, q, []), if fs.dirs[q].parent == None then [] else [SLASH];
      assert a + sep + (name + [SLASH] + path) == (a + sep + name) + [SLASH] + path;
  }

  // ---------- components of printed paths ----------

  /** A path that starts with a plain name has it as its first component. */
  lemma FirstComponent(name: seq<byte>, tail: seq<byte>)
    requires PlainName(name) && (tail != [] ==> tail[0] == SLASH)
    ensures Tokens(name + tail) == [name] + Tokens(if tail == [] then [] else tail[1..])
  {
    hide SpanLen, CspanLen;
    var s := name + tail;
    assert s[0] == name[0];
    SpanIs(s, [SLASH], 0);
    assert Trim(s, [SLASH]) == s;
    CspanIs(s, [SLASH], |name|);
    assert s[..|name|] == name;
    assert tail != [] ==> s[|name| + 1..] == tail[1..];
  }

  lemma PrependedTokens(name: seq<byte>, path: seq<byte>)
    requires PlainName(name)
    ensures Tokens(Prepend(name, path)) == [name] + Tokens(path)
  {
    hide Tokens, PlainName;
    if path != [] {
      FirstComponent(name, [SLASH] + path);
      assert ([SLASH] + path)[1..] == path && name + ([SLASH] + path) == name + [SLASH] + path;
    } else {
      FirstComponent(name, []);
      assert name + [] == name;
    }
  }

  /** The names on the way from the root to `d`. */
  function Names(fs: Vfs, d: nat): seq<seq<byte>>
    requires TreeOk(fs) && d < |fs.dirs|
    decreases d
  {
    match fs.dirs[d].parent
    case None => []
    case Some(p) => assert DirOk(fs, d); Names(fs, p) + [fs.dirs[d].name]
  }

  lemma {:induction false} PathTokens(fs: Vfs, d: nat, path: seq<byte>)
    requires TreeOk(fs) && NamesOk(fs) && d < |fs.dirs|
    ensures Tokens(PathFrom(fs, d, path)) == Names(fs, d) + Tokens(path)
    decreases d
  {
    hide Tokens, Prepend, PlainName;
    if fs.dirs[d].parent.Some? {
      assert DirOk(fs, d);
      var name := fs.dirs[d].name;
      PathTokens(fs, fs.dirs[d].parent.value, Prepend(name, path));
      PrependedTokens(name, path);
    }
  }

  /** The volume of a printed path is found again, and what follows the colon is left over. */
  lemma VolumeFound(fs: Vfs, v: nat, rest: seq<byte>)
    requires NamesOk(fs) && v < |fs.volumes| && fs.volumes[v].mounted
    ensures var path := fs.volumes[v].name + [COLON] + rest;
            FindVolume(fs, path) == Some(v) && Rest(Trim(path, [COLON]), [COLON]) == rest
  {
    var name := fs.volumes[v].name;
    var path := name + [COLON] + rest;
    assert VolumeNameOk(name);
    CspanIs(path, [COLON], |name|);
    assert path[..|name|] == name && path[|name| + 1..] == rest;
    assert path[0] == name[0];
    assert Trim(path, [COLON]) == path;
  }

  // ---------- finding a directory again ----------

  lemma {:induction false} ScanNothing(fs: Vfs, d: nat, i: nat, found: bool, e: seq<byte>)
    requires TreeOk(fs) && d < |fs.dirs|
    requires forall j :: i <= j < |fs.dirs[d].children| ==> !NamedAt(fs, d, j, e)
    ensures Scan(fs, d, i, found, e) == (d, found)
    decreases |fs.dirs[d].children| - i
  {
    assert DirOk(fs, d);
    if i < |fs.dirs[d].children| {
      assert !NamedAt(fs, d, i, e);
      ScanNothing(fs, d, i + 1, found, e);
    }
  }

  /** Child `j` of `d` is called `e`. */
  predicate NamedAt(fs: Vfs, d: nat, j: nat, e: seq<byte>) {
    && d < |fs.dirs| && j < |fs.dirs[d].children|
    && fs.dirs[d].children[j] < |fs.dirs| && fs.dirs[fs.dirs[d].children[j]].name == e
  }

  /** Up to the first child of that name the scan stays where it is. */
  lemma {:induction false} ScanTo(fs: Vfs, d: nat, i: nat, k: nat, found: bool, e: seq<byte>)
    requires TreeOk(fs) && d < |fs.dirs| && i <= k && NamedAt(fs, d, k, e)
    requires forall j :: i <= j < k ==> !NamedAt(fs, d, j, e)
    ensures Scan(fs, d, i, found, e) == Scan(fs, fs.dirs[d].children[k], k + 1, true, e)
    decreases k - i
  {
    assert DirOk(fs, d);
    if i < k {
      assert !NamedAt(fs, d, i, e);
      ScanTo(fs, d, i + 1, k, found, e);
    }
  }

  /** A child called `e` at position `i` or later takes the scan further down. */
  lemma {:induction false} ScanLeaves(fs: Vfs, d: nat, i: nat, k: nat, found: bool, e: seq<byte>)
    requires TreeOk(fs) && d < |fs.dirs| && i <= k && NamedAt(fs, d, k, e)
    ensures Scan(fs, d, i, found, e).0 > d
    decreases k - i
  {
    assert DirOk(fs, d);
    if !NamedAt(fs, d, i, e) {
      ScanLeaves(fs, d, i + 1, k, found, e);
    }
  }

  /** Some child of `x` has the name of `x` and a later position than `x` has among its siblings. */
  ghost predicate Shadowed(fs: Vfs, x: nat) {
    && x < |fs.dirs| && fs.dirs[x].parent.Some? && fs.dirs[x].parent.value < |fs.dirs|
    && exists k, j :: ShadowedAt(fs, x, k, j)
  }

  ghost predicate ShadowedAt(fs: Vfs, x: nat, k: nat, j: nat)
    requires x < |fs.dirs| && fs.dirs[x].parent.Some? && fs.dirs[x].parent.value < |fs.dirs|
  {
    var siblings := fs.dirs[fs.dirs[x].parent.value].children;
    k < |siblings| && siblings[k] == x && k < j && NamedAt(fs, x, j, fs.dirs[x].name)
  }

  lemma PositionUnique(fs: Vfs, d: nat, k: nat, k': nat)
    requires TreeOk(fs) && NamesOk(fs) && d < |fs.dirs|
    requires k < |fs.dirs[d].children| && k' < |fs.dirs[d].children| && fs.dirs[d].children[k] == fs.dirs[d].children[k']
    ensures k == k'
  {
    assert DirOk(fs, d);
    assert k < k' ==> !SameName(fs, fs.dirs[d].children[k], fs.dirs[d].children[k']);
    assert k' < k ==> !SameName(fs, fs.dirs[d].children[k'], fs.dirs[d].children[k]);
  }

  /** Looking up the name of `x` in its parent finds `x` itself exactly when `x` is not shadowed. */
  lemma StepDown(fs: Vfs, x: nat)
    requires TreeOk(fs) && NamesOk(fs) && x < |fs.dirs| && fs.dirs[x].parent.Some?
    ensures fs.dirs[x].parent.value < |fs.dirs|
    ensures var (y, found) := Scan(fs, fs.dirs[x].parent.value, 0, false, fs.dirs[x].name);
            found && (y == x <==> !Shadowed(fs, x))
  {
    assert DirOk(fs, x);
    var p, e := fs.dirs[x].parent.value, fs.dirs[x].name;
    assert DirOk(fs, p);
    var siblings := fs.dirs[p].children;
    var k: nat :| k < |siblings| && siblings[k] == x;
    forall j | 0 <= j < k ensures !NamedAt(fs, p, j, e) {
      assert !SameName(fs, siblings[j], siblings[k]);
    }
    ScanTo(fs, p, 0, k, false, e);
    ScanFound(fs, x, k + 1, e);
    forall k': nat, j: nat | ShadowedAt(fs, x, k', j) ensures k' == k {
      PositionUnique(fs, p, k, k');
    }
    if j: nat :| k < j && NamedAt(fs, x, j, e) {
      assert ShadowedAt(fs, x, k, j);
      ScanLeaves(fs, x, k + 1, j, true, e);
    } else {
      ScanNothing(fs, x, k + 1, true, e);
    }
  }

  lemma {:induction false} ScanFound(fs: Vfs, d: nat, i: nat, e: seq<byte>)
    requires TreeOk(fs) && d < |fs.dirs|
    ensures Scan(fs, d, i, true, e).1
    decreases |fs.dirs| - d, |fs.dirs[d].children| - i
  {
    assert DirOk(fs, d);
    if i < |fs.dirs[d].children| {
      if fs.dirs[fs.dirs[d].children[i]].name == e {
        ScanFound(fs, fs.dirs[d].children[i], i + 1, e);
      } else {
        ScanFound(fs, d, i + 1, e);
      }
    }
  }

  /** No directory on the way from the root to `d`, `d` included, is shadowed. */
  ghost predicate ClearWay(fs: Vfs, d: nat)
    requires TreeOk(fs) && d < |fs.dirs|
    decreases d
  {
    match fs.dirs[d].parent
    case None => true
    case Some(p) => assert DirOk(fs, d); !Shadowed(fs, d) && ClearWay(fs, p)
  }

  /** The names down to `d` lead from the root of its volume to `d`, whatever follows. */
  lemma {:induction false} ResolveNames(fs: Vfs, d: nat, es: seq<seq<byte>>)
    requires TreeOk(fs) && NamesOk(fs) && d < |fs.dirs| && ClearWay(fs, d)
    ensures DirOk(fs, d) && fs.volumes[fs.dirs[d].volume].root < |fs.dirs|
    ensures Resolve(fs, fs.volumes[fs.dirs[d].volume].root, Names(fs, d) + es) == Resolve(fs, d, es)
    decreases d
  {
    assert DirOk(fs, d);
    match fs.dirs[d].parent
    case None => assert Names(fs, d) + es == es;
    case Some(p) =>
      var name := fs.dirs[d].name;
      assert Names(fs, d) + es == Names(fs, p) + ([name] + es);
      ResolveNames(fs, p, [name] + es);
      StepDown(fs, d);
      assert PlainName(name);
      assert ([name] + es)[1..] == es;
  }

  lemma LookupPrinted(fs: Vfs, d: nat)
    requires TreeOk(fs) && NamesOk(fs) && d < |fs.dirs|
    ensures DirOk(fs, d) && fs.volumes[fs.dirs[d].volume].root < |fs.dirs|
    ensures Lookup(fs, FullPath(fs, d)) == Resolve(fs, fs.volumes[fs.dirs[d].volume].root, Names(fs, d))
  {
    assert DirOk(fs, d);
    VolumeFound(fs, fs.dirs[d].volume, PathFrom(fs, d, []));
    PathTokens(fs, d, []);
    assert Names(fs, d) + Tokens([]) == Names(fs, d);
  }

  /** A printed path leads back to its directory if nothing on the way is shadowed. */
  lemma RoundTripClear(fs: Vfs, d: nat)
    requires TreeOk(fs) && NamesOk(fs) && d < |fs.dirs| && ClearWay(fs, d)
    ensures Lookup(fs, FullPath(fs, d)) == Some(d)
  {
    LookupPrinted(fs, d);
    ResolveNames(fs, d, []);
    assert Names(fs, d) + [] == Names(fs, d);
  }

  /** The path of a shadowed directory below a clear way leads elsewhere. */
  lemma ShadowedLost(fs: Vfs, x: nat)
    requires TreeOk(fs) && NamesOk(fs) && Shadowed(fs, x)
    requires fs.dirs[x].parent.Some? && fs.dirs[x].parent.value < |fs.dirs| && ClearWay(fs, fs.dirs[x].parent.value)
    ensures Lookup(fs, FullPath(fs, x)) != Some(x)
  {
    assert DirOk(fs, x);
    LookupPrinted(fs, x);
    var name := fs.dirs[x].name;
    ResolveNames(fs, fs.dirs[x].parent.value, [name]);
    StepDown(fs, x);
    assert PlainName(name);
  }

  lemma {:induction false} ClearWayBelow(fs: Vfs, d: nat)
    requires TreeOk(fs) && d < |fs.dirs| && forall y :: 0 <= y <= d ==> !Shadowed(fs, y)
    ensures ClearWay(fs, d)
    decreases d
  {
    assert DirOk(fs, d);
    if fs.dirs[d].parent.Some? {
      ClearWayBelow(fs, fs.dirs[d].parent.value);
    }
  }

  lemma {:induction false} FirstShadowed(fs: Vfs, x: nat) returns (y: nat)
    requires Shadowed(fs, x)
    ensures y <= x && Shadowed(fs, y) && forall z :: 0 <= z < y ==> !Shadowed(fs, z)
    decreases x
  {
    y := x;
    if z: nat :| z < x && Shadowed(fs, z) {
      y := FirstShadowed(fs, z);
    }
  }

  /** All printed paths lead back to their directories if and only if no directory is shadowed. */
  lemma RoundTripIffUnshadowed(fs: Vfs)
    requires TreeOk(fs) && NamesOk(fs)
    ensures (forall d :: 0 <= d < |fs.dirs| ==> Lookup(fs, FullPath(fs, d)) == Some(d)) <==> (forall x: nat :: !Shadowed(fs, x))
  {
    hide Shadowed, NamesOk, TreeOk, Lookup, FullPath, ClearWay;
    if x: nat :| Shadowed(fs, x) {
      var y := FirstShadowed(fs, x);
      ShadowedExists(fs, y);
      ClearWayBelow(fs, fs.dirs[y].parent.value);
      ShadowedLost(fs, y);
    } else {
      forall d | 0 <= d < |fs.dirs| ensures Lookup(fs, FullPath(fs, d)) == Some(d) {
        ClearWayBelow(fs, d);
        RoundTripClear(fs, d);
      }
    }
  }

  lemma ShadowedExists(fs: Vfs, y: nat)
    requires TreeOk(fs) && Shadowed(fs, y)
    ensures y < |fs.dirs| && fs.dirs[y].parent.Some? && fs.dirs[y].parent.value < y
  {
    assert DirOk(fs, y);
  }
}
