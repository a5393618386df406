/** sched_pick_next as a whole: it terminates, picks a runnable thread, and is fair. */
module SchedPick {
  import opened Wrappers
  import opened SchedState
  import opened SchedProofs

  /** Pops the next queue entry; at the end of the queue starts over once, and after that offers the idle thread. */
  function NextEntry(s: Sched, loop: bool): (Sched, nat, bool) {
    if s.loc < |s.queue| then (s.(loc := s.loc + 1), s.queue[s.loc], loop)
    else if loop then (s, s.idle, true)
    else if 0 < |s.queue| then (s.(loc := 1), s.queue[0], true)
    else (s.(loc := 0), s.idle, true)
  }

  lemma NextEntrySound(s: Sched, loop: bool)
    requires Sound(s) && s.current == None
    ensures var (s1, t, loop') := NextEntry(s, loop); Sound(s1) && Taken(s1, t) && s1.current == None
  {
    var (s1, t, loop') := NextEntry(s, loop);
    SelectionSound(s, s1);
  }

  lemma NextEntryInv(s: Sched, loop: bool)
    requires Inv(s) && s.current == None
    ensures var (s1, t, loop') := NextEntry(s, loop); Inv(s1) && Taken(s1, t) && s1.current == None
  {
    var (s1, t, loop') := NextEntry(s, loop);
    OtherCurrent(s, s1);
  }

  /** Resuming a waiter touches no other thread: the process waited for lists none any more. */
  lemma ResumeShape(s: Sched, t: nat)
    requires Sound(s) && ThreadAt(s, t) && t != s.idle && s.current == None
    requires s.threads[t].value.state == Waiting && s.threads[t].value.waitMsg == None && CheckWaiting(s, t).0.Some?
    ensures var (pid, s1) := CheckWaiting(s, t);
            && ThreadAt(s1, t) && ProcessAt(s1, pid.value) && TidsLive(s1, pid.value)
            && var s' := Resume(s1, t, pid.value);
               && s'.threads == s.threads[t := Some(s.threads[t].value.(wait := 0, state := Running, eax := s.processes[pid.value].value.exitcode))]
               && s'.queue == s.queue && s'.loc == s.loc && s'.idle == s.idle && s'.current == Some(t)
               && |s'.processes| == |s.processes| && s.processes[pid.value].value.tids == []
               && (forall p :: 0 <= p < |s.processes| && p != pid.value ==> s'.processes[p] == s.processes[p])
               && (ProcessAt(s', pid.value) ==>
                     && s'.processes[pid.value].value.exitcode == s.processes[pid.value].value.exitcode
                     && s'.processes[pid.value].value.state == s.processes[pid.value].value.state)
  {
    WaitOver(s, t);
    var (pid, s1) := CheckWaiting(s, t);
    assert s1.processes[pid.value].value.tids == [];
  }

  /** A turn changes no thread but the one it looks at, and the queue only by taking out a dead one. */
  ghost predicate TurnOf(s: Sched, t: nat, s': Sched)
    requires ThreadAt(s, t)
  {
    && s'.idle == s.idle && |s'.threads| == |s.threads| && |s'.processes| == |s.processes|
    && (forall u :: 0 <= u < |s.threads| && u != t ==> s'.threads[u] == s.threads[u])
    && (if s.threads[t].value.state == Dead
        then 0 < s.loc <= |s.queue| && s'.threads[t] == None && s'.queue == s.queue[..s.loc - 1] + s.queue[s.loc..] && s'.loc == s.loc - 1
        else s'.threads[t].Some? && s'.queue == s.queue && s'.loc == s.loc)
    && (s'.current.Some? ==> s'.current == Some(t) && ThreadAt(s', t) && s'.threads[t].value.state == Running)
    && (s.threads[t].value.state == Running ==> s'.current == Some(t))
    && (t == s.idle && s'.current == None ==> s.threads[t].value.state == Starting && ThreadAt(s', t) && s'.threads[t].value.state == Running)
  }

  lemma VisitShape(s: Sched, t: nat, env: Env)
    requires Sound(s) && Taken(s, t) && s.current == None
    ensures NoPanic(s, t) && (s.threads[t].value.state == Dead ==> 0 < s.loc <= |s.queue| && s.queue[s.loc - 1] == t && t != s.idle)
    ensures TurnOf(s, t, Visit(s, t, env))
  {
    NoPanicReachable(s, t);
    IdlePlain(s);
    hide QueueOk, IdleOk, OwnersOk, OwnLists;
    var r := s.threads[t].value;
    if r.state == Waiting && r.waitMsg == None && CheckWaiting(s, t).0.Some? {
      hide Resume, CheckWaiting;
      ResumeShape(s, t);
    }
  }

  /** The loop of sched_pick_next from any of its turns on. */
  ghost function PickFrom(s: Sched, loop: bool, env: Env): Sched
    requires Sound(s) && s.current == None
    decreases !loop, |s.queue| - s.loc, s.threads[s.idle].value.state == Starting
  {
    NextEntrySound(s, loop);
    var (s1, t, loop') := NextEntry(s, loop);
    VisitShape(s1, t, env);
    VisitSound(s1, t, env);
    var s2 := Visit(s1, t, env);
    if s2.current.Some? then s2 else PickFrom(s2, loop', env)
  }

  ghost function Pick(s: Sched, env: Env): Sched
    requires Sound(s)
  {
    NoneSelected(s);
    PickFrom(s.(current := None), false, env)
  }

  // ---------- what a pick guarantees ----------

  /** No queue entry from position `from` on is RUNNING. */
  ghost predicate NoneRunning(s: Sched, from: nat) {
    forall i :: from <= i < |s.queue| ==> ThreadAt(s, s.queue[i]) && s.threads[s.queue[i]].value.state != Running
  }

  /** The entries of a queue whose threads have not been freed, in order. */
  function Survivors(queue: seq<nat>, threads: seq<Option<Thread>>): seq<nat> {
    if queue == [] then [] else
    (if queue[0] < |threads| && threads[queue[0]].Some? then [queue[0]] else []) + Survivors(queue[1..], threads)
  }

  lemma {:induction false} SurvivorsConcat(a: seq<nat>, b: seq<nat>, threads: seq<Option<Thread>>)
    ensures Survivors(a + b, threads) == Survivors(a, threads) + Survivors(b, threads)
  {
    if a == [] {
      assert a + b == b;
    } else {
      assert (a + b)[1..] == a[1..] + b;
      SurvivorsConcat(a[1..], b, threads);
    }
  }

  lemma {:induction false} AllSurvive(queue: seq<nat>, threads: seq<Option<Thread>>)
    requires forall i :: 0 <= i < |queue| ==> queue[i] < |threads| && threads[queue[i]].Some?
    ensures Survivors(queue, threads) == queue
  {
    if queue != [] {
      AllSurvive(queue[1..], threads);
      assert queue == [queue[0]] + queue[1..];
    }
  }

  /** Filtering by fewer threads after filtering by more. */
  lemma {:induction false} SurvivorsTwice(queue: seq<nat>, threads: seq<Option<Thread>>, later: seq<Option<Thread>>)
    requires |later| == |threads| && forall t :: 0 <= t < |threads| && threads[t] == None ==> later[t] == None
    ensures Survivors(Survivors(queue, threads), later) == Survivors(queue, later)
  {
    if queue != [] {
      var head := if queue[0] < |threads| && threads[queue[0]].Some? then [queue[0]] else [];
      SurvivorsTwice(queue[1..], threads, later);
      SurvivorsConcat(head, Survivors(queue[1..], threads), later);
      if head != [] { assert head[1..] == []; }
    }
  }

  lemma OneGone(queue: seq<nat>, k: nat, threads: seq<Option<Thread>>)
    requires k < |queue| && !(queue[k] < |threads| && threads[queue[k]].Some?)
    requires forall i :: 0 <= i < |queue| && i != k ==> queue[i] < |threads| && threads[queue[i]].Some?
    ensures Survivors(queue, threads) == queue[..k] + queue[k + 1..]
  {
    hide Survivors;
    var a, t, b := queue[0..k], [queue[k]], queue[k + 1..|queue|];
    NoneSurvives(queue[k], threads);
    PartSurvives(queue, 0, k, threads);
    PartSurvives(queue, k + 1, |queue|, threads);
    SurvivorsConcat(t, b, threads);
    SurvivorsConcat(a, t + b, threads);
    assert [] + b == b;
    ThreeParts(queue, k);
  }

  lemma ThreeParts(queue: seq<nat>, k: nat)
    requires k < |queue|
    ensures queue == queue[0..k] + ([queue[k]] + queue[k + 1..|queue|])
  {
  }

  lemma PartSurvives(queue: seq<nat>, lo: nat, hi: nat, threads: seq<Option<Thread>>)
    requires lo <= hi <= |queue| && forall i :: lo <= i < hi ==> queue[i] < |threads| && threads[queue[i]].Some?
    ensures Survivors(queue[lo..hi], threads) == queue[lo..hi]
  {
    AllSurvive(queue[lo..hi], threads);
  }

  lemma NoneSurvives(t: nat, threads: seq<Option<Thread>>)
    requires !(t < |threads| && threads[t].Some?)
    ensures Survivors([t], threads) == []
  {
    assert [t][1..] == [];
  }

  /** One turn filters the queue by what it frees. */
  lemma TurnSurvivors(s: Sched, t: nat, s': Sched)
    requires QueueOk(s) && ThreadAt(s, t) && TurnOf(s, t, s')
    requires s.threads[t].value.state == Dead ==> 0 < s.loc <= |s.queue| && s.queue[s.loc - 1] == t
    ensures s'.queue == Survivors(s.queue, s'.threads)
    ensures forall u :: 0 <= u < |s.threads| && s.threads[u] == None ==> s'.threads[u] == None
  {
    var q := s.queue;
    forall i | 0 <= i < |q| ensures ThreadAt(s, q[i]) { assert q[i] in q; }
    if s.threads[t].value.state == Dead {
      OneGone(q, s.loc - 1, s'.threads);
    } else {
      AllSurvive(q, s'.threads);
    }
  }

  /**
   A pick ends with a running thread of a live process; it settles for the idle thread only if no queued
   thread was running; and the queue is what it was, without the entries of threads that were freed.
   */
  lemma {:induction false} PickFromSafe(s: Sched, loop: bool, env: Env)
    requires Sound(s) && s.current == None
    ensures var s' := PickFrom(s, loop, env);
            && Sound(s') && s'.current.Some? && ThreadAt(s', s'.current.value)
            && s'.threads[s'.current.value].value.state == Running
            && s'.idle == s.idle && |s'.threads| == |s.threads|
            && (s'.current == Some(s.idle) ==> NoneRunning(s, if loop then s.loc else 0))
            && s'.queue == Survivors(s.queue, s'.threads)
            && (forall u :: 0 <= u < |s.threads| && s.threads[u] == None ==> s'.threads[u] == None)
    decreases !loop, |s.queue| - s.loc, s.threads[s.idle].value.state == Starting
  {
    hide OwnersOk, OwnLists, Visit, NoPanic;
    NextEntrySound(s, loop);
    var (s1, t, loop') := NextEntry(s, loop);
    VisitShape(s1, t, env);
    VisitSound(s1, t, env);
    var s2 := Visit(s1, t, env);
    TurnSurvivors(s1, t, s2);
    if s2.current.Some? {
      if t == s.idle { PickedIdle(s, loop); }
    } else {
      PickFromSafe(s2, loop', env);
      var s' := PickFrom(s2, loop', env);
      SurvivorsTwice(s.queue, s2.threads, s'.threads);
      if s'.current == Some(s.idle) {
        StillNoneRunning(s, loop, s2);
      }
    }
  }

  lemma PickedIdle(s: Sched, loop: bool)
    requires Sound(s) && s.current == None && NextEntry(s, loop).1 == s.idle
    ensures NoneRunning(s, if loop then s.loc else 0)
  {
    forall i | 0 <= i < |s.queue| ensures s.queue[i] != s.idle { assert s.queue[i] in s.queue; }
  }

  lemma StillNoneRunning(s: Sched, loop: bool, s2: Sched)
    requires Sound(s) && s.current == None
    requires var (s1, t, loop') := NextEntry(s, loop);
             ThreadAt(s1, t) && TurnOf(s1, t, s2) && s2.current == None && NoneRunning(s2, if loop' then s2.loc else 0)
    ensures NoneRunning(s, if loop then s.loc else 0)
  {
    hide OwnersOk, OwnLists, IdleOk;
    var (s1, t, loop') := NextEntry(s, loop);
    var from := if loop then s.loc else 0;
    forall i | from <= i < |s.queue|
      ensures ThreadAt(s, s.queue[i]) && s.threads[s.queue[i]].value.state != Running
    {
      assert s.queue[i] in s.queue;
      if s.queue[i] != t {
        var dead := s1.threads[t].value.state == Dead;
        var j := if dead && s1.loc <= i then i - 1 else i;
        assert s2.queue[j] == s.queue[i];
      }
    }
  }

  // ---------- bounded waiting ----------

  /** How many entries the loop takes before it comes to position `i`, going round the end of the queue. */
  function Distance(s: Sched, i: nat): int {
    if s.loc <= i then i - s.loc else |s.queue| - s.loc + i
  }

  /** `t` is queued at position `i`. */
  ghost predicate QueuedAt(s: Sched, t: nat, i: nat) {
    i < |s.queue| && s.queue[i] == t && ThreadAt(s, t)
  }

  /** And it is ready to run. */
  ghost predicate ReadyAt(s: Sched, t: nat, i: nat) {
    QueuedAt(s, t, i) && s.threads[t].value.state == Running
  }

  /** A turn for another thread brings `t` exactly one entry closer. */
  lemma TurnProgress(s: Sched, loop: bool, t: nat, i: nat, s2: Sched) returns (i2: nat)
    requires QueueOk(s) && QueuedAt(s, t, i) && (loop ==> s.loc <= i)
    requires var (s1, u, loop') := NextEntry(s, loop); ThreadAt(s1, u) && u != t && TurnOf(s1, u, s2)
    ensures QueuedAt(s2, t, i2) && s2.threads[t] == s.threads[t] && Distance(s2, i2) == Distance(s, i) - 1
    ensures NextEntry(s, loop).2 ==> s2.loc <= i2
  {
    var (s1, u, loop') := NextEntry(s, loop);
    assert s.queue[i] in s.queue;
    i2 := if s1.threads[u].value.state == Dead && s1.loc <= i then i - 1 else i;
  }

  /** One pick either selects a ready thread or brings its turn closer. */
  lemma {:induction false} PickProgress(s: Sched, loop: bool, env: Env, t: nat, i: nat) returns (i': nat)
    requires Sound(s) && s.current == None && ReadyAt(s, t, i) && (loop ==> s.loc <= i)
    ensures var s' := PickFrom(s, loop, env);
            s'.current == Some(t) || (ReadyAt(s', t, i') && Distance(s', i') < Distance(s, i))
    decreases !loop, |s.queue| - s.loc, s.threads[s.idle].value.state == Starting
  {
    hide OwnersOk, OwnLists, Visit, NoPanic;
    NextEntrySound(s, loop);
    var (s1, u, loop') := NextEntry(s, loop);
    VisitShape(s1, u, env);
    VisitSound(s1, u, env);
    var s2 := Visit(s1, u, env);
    i' := i;
    if u != t {
      i' := TurnProgress(s, loop, t, i, s2);
      if s2.current == None {
        i' := PickProgress(s2, loop', env, t, i');
      }
    }
  }

  /** What may happen between two picks when no thread is created: anything but to the queue, and `t` stays ready. */
  ghost predicate Between(s: Sched, s': Sched, t: nat) {
    && Sound(s') && s'.queue == s.queue && s'.loc == s.loc && s'.idle == s.idle
    && ThreadAt(s', t) && s'.threads[t].value.state == Running
  }

  /** States before each pick of a run, and what the environment answers in each. */
  ghost predicate ReadyRun(states: seq<Sched>, envs: seq<Env>, t: nat) {
    && |envs| == |states|
    && (forall k :: 0 <= k < |states| ==> Sound(states[k]))
    && (forall k :: 0 <= k < |states| - 1 ==> Between(Pick(states[k], envs[k]), states[k + 1], t))
  }

  ghost predicate SelectedIn(states: seq<Sched>, envs: seq<Env>, t: nat)
    requires |envs| == |states| && forall k :: 0 <= k < |states| ==> Sound(states[k])
  {
    exists k :: 0 <= k < |states| && Pick(states[k], envs[k]).current == Some(t)
  }

  /** One pick of a run that does not select `t` leaves it ready, and closer, in the next state. */
  lemma NextState(states: seq<Sched>, envs: seq<Env>, t: nat, i: nat) returns (i': nat)
    requires ReadyRun(states, envs, t) && states != [] && ReadyAt(states[0], t, i)
    requires Distance(states[0], i) < |states| && Pick(states[0], envs[0]).current != Some(t)
    ensures 1 < |states| && ReadyAt(states[1], t, i') && Distance(states[1], i') < |states| - 1
  {
    var s0 := states[0].(current := None);
    NoneSelected(states[0]);
    i' := PickProgress(s0, false, envs[0], t, i);
    var r := Pick(states[0], envs[0]);
    PickFromSafe(s0, false, envs[0]);
    assert QueueOk(r);
    assert 0 <= Distance(r, i') < Distance(states[0], i);
    assert Between(Pick(states[0], envs[0]), states[0 + 1], t);
  }

  lemma {:induction false} SelectedWithin(states: seq<Sched>, envs: seq<Env>, t: nat, i: nat)
    requires ReadyRun(states, envs, t) && states != []
    requires ReadyAt(states[0], t, i) && Distance(states[0], i) < |states|
    ensures SelectedIn(states, envs, t)
    decreases |states|
  {
    hide Sound, Between, Distance;
    if Pick(states[0], envs[0]).current != Some(t) {
      var i' := NextState(states, envs, t, i);
      assert ReadyRun(states[1..], envs[1..], t) by {
        assert forall k :: 0 <= k < |states| - 1 ==> states[1..][k] == states[k + 1] && envs[1..][k] == envs[k + 1];
      }
      SelectedWithin(states[1..], envs[1..], t, i');
      var k :| 0 <= k < |states[1..]| && Pick(states[1..][k], envs[1..][k]).current == Some(t);
      assert Pick(states[k + 1], envs[k + 1]).current == Some(t);
    }
  }

  /** A ready thread is selected within as many picks as the queue has entries. */
  lemma BoundedWaiting(states: seq<Sched>, envs: seq<Env>, t: nat)
    requires ReadyRun(states, envs, t) && states != []
    requires t in states[0].queue && ThreadAt(states[0], t) && states[0].threads[t].value.state == Running
    requires |states| == |states[0].queue|
    ensures SelectedIn(states, envs, t)
  {
    var i :| 0 <= i < |states[0].queue| && states[0].queue[i] == t;
    SelectedWithin(states, envs, t, i);
  }
}
