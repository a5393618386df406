/** The environment of a process as a list of NAME=VALUE strings, and the finite map it stands for. */
module EnvironList {
  import opened Wrappers
  import opened Bytes

  const EQ: byte := 61
  const MAX_ENVIRON_VARS: nat := 4096

  type Text = seq<byte>

  /** The test both system calls make on a variable. */
  predicate Matches(v: Text, name: Text) {
    |v| > |name| && v[..|name|] == name && v[|name|] == EQ
  }

  /** Position of the first matching variable; the length of the list if there is none. */
  function Find(list: seq<Text>, name: Text): (i: nat)
    ensures i <= |list|
    ensures forall j :: 0 <= j < i ==> !Matches(list[j], name)
    ensures i < |list| ==> Matches(list[i], name)
  {
    if list == [] || Matches(list[0], name) then 0 else 1 + Find(list[1..], name)
  }

  function Lookup(list: seq<Text>, name: Text): Option<Text> {
    var i := Find(list, name);
    if i < |list| then Some(list[i][|name| + 1..]) else None
  }

  function Variable(name: Text, value: Text): Text { name + [EQ] + value }

  /** The list after a successful setenv. */
  function Set(list: seq<Text>, name: Text, value: Text): seq<Text> {
    var i := Find(list, name);
    if i < |list| then list[i := Variable(name, value)] else list + [Variable(name, value)]
  }

  /** setenv may add a variable only while there are fewer than the limit. */
  predicate HasPlace(list: seq<Text>, name: Text) {
    Find(list, name) < |list| || |list| < MAX_ENVIRON_VARS
  }

  // ---------- names ----------

  /** The name a variable is found under: what stands before its first '='. */
  function Key(v: Text): (k: Text)
    ensures EQ !in k && |k| <= |v| && v[..|k|] == k
    ensures |k| < |v| ==> v[|k|] == EQ
  {
    if v == [] || v[0] == EQ then [] else [v[0]] + Key(v[1..])
  }

  /** Under names without '=' a variable is found exactly under its own. */
  lemma MatchesKey(v: Text, name: Text)
    requires EQ !in name
    ensures Matches(v, name) <==> EQ in v && Key(v) == name
  {
    var k := Key(v);
    assert |k| == |v| ==> v == k;
  }

  lemma KeyOfVariable(name: Text, value: Text)
    requires EQ !in name
    ensures Key(Variable(name, value)) == name && EQ in Variable(name, value)
    ensures Variable(name, value)[|name| + 1..] == value
  {
    var v := Variable(name, value);
    assert v[|name|] == EQ;
    assert Matches(v, name);
    MatchesKey(v, name);
  }

  /** Every variable has a name and a value, and no two have the same name. */
  ghost predicate ListOk(list: seq<Text>) {
    && |list| <= MAX_ENVIRON_VARS
    && (forall i :: 0 <= i < |list| ==> EQ in list[i])
    && (forall i, j :: 0 <= i < j < |list| ==> Key(list[i]) != Key(list[j]))
  }

  lemma FindUnique(list: seq<Text>, i: nat)
    requires ListOk(list) && i < |list|
    ensures Find(list, Key(list[i])) == i
  {
    MatchesKey(list[i], Key(list[i]));
    var j := Find(list, Key(list[i]));
    if j < |list| { MatchesKey(list[j], Key(list[i])); }
  }

  /** For names without '=', setenv changes what is found under that name and nothing else. */
  lemma SetThenLookup(list: seq<Text>, name: Text, value: Text, other: Text)
    requires ListOk(list) && HasPlace(list, name) && EQ !in name && EQ !in other
    ensures ListOk(Set(list, name, value))
    ensures Lookup(Set(list, name, value), other) == if other == name then Some(value) else Lookup(list, other)
  {
    var list', i, n := Set(list, name, value), Find(list, name), |list|;
    var at := if i < n then i else n;
    KeyOfVariable(name, value);
    SetOk(list, name, value);
    assert list'[at] == Variable(name, value) && forall j :: 0 <= j < n && j != at ==> list'[j] == list[j];
    if other == name {
      FindUnique(list', at);
    } else {
      var k := Find(list, other);
      if k < n {
        MatchesKey(list[k], other);
        MatchesKey(list[k], name);
        FindUnique(list', k);
      } else {
        forall j | 0 <= j < |list'| ensures !Matches(list'[j], other) {
          MatchesKey(list'[j], other);
        }
      }
    }
  }

  lemma SetOk(list: seq<Text>, name: Text, value: Text)
    requires ListOk(list) && HasPlace(list, name) && EQ !in name
    ensures ListOk(Set(list, name, value))
  {
    var list', i := Set(list, name, value), Find(list, name);
    KeyOfVariable(name, value);
    forall j | 0 <= j < |list| ensures Key(list[j]) == name ==> j == i {
      MatchesKey(list[j], name);
      if Key(list[j]) == name { FindUnique(list, j); }
    }
  }

  /** setenv of `name` acts as an update of a map, whatever the list and the value. */
  ghost predicate ActsAsUpdate(name: Text) {
    forall list: seq<Text>, value: Text, other: Text :: ListOk(list) && HasPlace(list, name) && EQ !in other ==>
      Updated(list, name, value, other)
  }

  ghost predicate Updated(list: seq<Text>, name: Text, value: Text, other: Text) {
    Lookup(Set(list, name, value), other) == if other == name then Some(value) else Lookup(list, other)
  }

  /** The names for which it does are exactly those without '='. */
  lemma UpdateIffNoEquals(name: Text)
    ensures ActsAsUpdate(name) <==> EQ !in name
  {
    if EQ !in name {
      forall list: seq<Text>, value: Text, other: Text | ListOk(list) && HasPlace(list, name) && EQ !in other
        ensures Updated(list, name, value, other)
      {
        SetThenLookup(list, name, value, other);
      }
    } else {
      var v, k := Variable(name, []), Key(name);
      assert |k| == |name| ==> k == name;
      assert v[..|k|] == k && v[|k|] == EQ;
      assert Set([], name, []) == [v] && Matches(v, k);
      assert Lookup([v], k) != None && Lookup([], k) == None;
      assert !Updated([], name, [], k);
    }
  }

  // ---------- runs ----------

  datatype Assignment = Assignment(name: Text, value: Text)

  /** A call on the list: refused when there is no place. */
  function Step(list: seq<Text>, a: Assignment): seq<Text> {
    if a.name != [] && HasPlace(list, a.name) then Set(list, a.name, a.value) else list
  }

  function Run(calls: seq<Assignment>): seq<Text> {
    if calls == [] then [] else Step(Run(calls[..|calls| - 1]), calls[|calls| - 1])
  }

  /** The same calls on a finite map of at most the same size. */
  function MapRun(calls: seq<Assignment>): map<Text, Text> {
    if calls == [] then map[] else
    var m, a := MapRun(calls[..|calls| - 1]), calls[|calls| - 1];
    if a.name != [] && (a.name in m || |m| < MAX_ENVIRON_VARS) then m[a.name := a.value] else m
  }

  ghost predicate Refines(list: seq<Text>, m: map<Text, Text>) {
    && ListOk(list) && |list| == |m|
    && forall name: Text :: EQ !in name ==> Lookup(list, name) == if name in m then Some(m[name]) else None
  }

  lemma StepRefines(list: seq<Text>, m: map<Text, Text>, name: Text, value: Text)
    requires Refines(list, m) && EQ !in name
    ensures HasPlace(list, name) <==> name in m || |m| < MAX_ENVIRON_VARS
    ensures HasPlace(list, name) ==> Refines(Set(list, name, value), m[name := value])
  {
    hide ListOk, Matches, Key;
    assert Find(list, name) < |list| <==> name in m by { assert Lookup(list, name) == if name in m then Some(m[name]) else None; }
    if HasPlace(list, name) {
      forall other: Text | EQ !in other
        ensures Lookup(Set(list, name, value), other) == if other in m[name := value] then Some(m[name := value][other]) else None
      {
        SetThenLookup(list, name, value, other);
      }
      SetOk(list, name, value);
      assert m[name := value].Keys == m.Keys + {name};
    }
  }

  /** Any sequence of setenv calls with names without '=' leaves a list that answers like a finite map. */
  lemma {:induction false} RunRefinesMap(calls: seq<Assignment>)
    requires forall i :: 0 <= i < |calls| ==> EQ !in calls[i].name
    ensures Refines(Run(calls), MapRun(calls))
  {
    if calls != [] {
      var before, a := calls[..|calls| - 1], calls[|calls| - 1];
      RunRefinesMap(before);
      StepRefines(Run(before), MapRun(before), a.name, a.value);
    }
  }
}
