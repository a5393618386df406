/** What wait() is for: its caller does not go on before the process has ended, and goes on soon after. */
module SchedWaits {
  import opened Wrappers
  import opened SchedState
  import opened SchedProofs
  import opened SchedPick
  import opened SchedRuns
  import opened SchedEffects
  import opened ThreadTable

  // ---------- not before ----------

  /** Thread `t` waits for process `p`, or is dead, or is no more. */
  ghost predicate Held(s: Sched, t: nat, p: nat) {
    && t < |s.threads| && t != s.idle
    && (Awaits(s, t, p) || s.threads[t] == None || s.threads[t].value.state == Dead)
  }

  ghost predicate NotEnded(s: Sched, p: nat) {
    p < |s.processes| && (ProcessAt(s, p) ==> s.processes[p].value.state != PExiting)
  }

  lemma {:induction false} PickFromHolds(s: Sched, loop: bool, env: Env, t: nat, p: nat)
    requires Inv(s) && s.current == None && Held(s, t, p) && NotEnded(s, p)
    ensures var s' := PickFrom(s, loop, env); Held(s', t, p) && NotEnded(s', p) && s'.current != Some(t)
    decreases !loop, |s.queue| - s.loc, s.threads[s.idle].value.state == Starting
  {
    hide OwnersOk, OwnLists, ListsOk, WaitsOk, Visit, NoPanic, QueueOk;
    NextEntryInv(s, loop);
    var (s1, u, loop') := NextEntry(s, loop);
    VisitShape(s1, u, env);
    VisitInv(s1, u, env);
    VisitKeepsExits(s1, u, env);
    var s2 := Visit(s1, u, env);
    if ProcessAt(s2, p) { assert ExitKept(s1, s2, p); }
    if u == t && Awaits(s1, t, p) { VisitAwaiting(s1, t, p, env); }
    if s2.current == None {
      PickFromHolds(s2, loop', env, t, p);
    }
  }

  lemma PickHolds(s: Sched, env: Env, t: nat, p: nat)
    requires Inv(s) && Held(s, t, p) && NotEnded(s, p)
    ensures var s' := Pick(s, env); Held(s', t, p) && NotEnded(s', p) && s'.current != Some(t)
  {
    NoneSelectedInv(s);
    PickFromHolds(s.(current := None), false, env, t, p);
  }

  /** No event but the end of p lets the thread go. */
  lemma StepHolds(s: Sched, size: Capacity, e: Event, t: nat, p: nat)
    requires Inv(s) && Fits(s, size, e) && Lifetime(e) && Held(s, t, p) && NotEnded(s, p) && Ends(s, e, p) == None
    ensures var s' := Step(s, size, e); Held(s', t, p) && NotEnded(s', p)
  {
    StepExits(s, size, e, p);
    match e
    case Picked(env) => PickHolds(s, env, t, p);
    case Interrupted(irq) => NothingSuspended(s, irq);
    case Exited(exitcode) => if UserRunning(s) { NotIdleProcess(s); EndSound(s, s.currentPid, exitcode); }
    case Killed(pid) => if UserRunning(s) && CanKill(s, pid) { NotIdleProcess(s); EndSound(s, pid, s.currentPid + 255); }
    case _ =>
  }

  /** Process `p` ends in none of the events. */
  ghost predicate NeverEnds(s: Sched, size: Capacity, events: seq<Event>, p: nat)
    requires Sound(s) && InScope(s, size, events)
    decreases |events|
  {
    events == [] ||
    (Ends(s, events[0], p) == None &&
     (StepSound(s, size, events[0]);
      NeverEnds(Step(s, size, events[0]), NextSize(s, size, events[0]), events[1..], p)))
  }

  lemma {:induction false} RunHolds(s: Sched, size: Capacity, events: seq<Event>, t: nat, p: nat)
    requires Inv(s) && InScope(s, size, events) && (forall e :: e in events ==> Lifetime(e))
    requires Held(s, t, p) && NotEnded(s, p) && NeverEnds(s, size, events, p)
    ensures var s' := Run(s, size, events); Inv(s') && Held(s', t, p) && NotEnded(s', p)
    decreases |events|
  {
    hide SoundBut, ListsOk, WaitsOk, Step, Fits, Held, NotEnded, Ends;
    if events != [] {
      assert events[0] in events;
      StepInv(s, size, events[0]);
      StepHolds(s, size, events[0], t, p);
      RunHolds(Step(s, size, events[0]), NextSize(s, size, events[0]), events[1..], t, p);
    }
  }

  /**
   A thread calls wait(p) for a process that has a record, is not its own and has not ended. After any events, as long
   as p does not end in them, no pick selects the thread.
   */
  lemma WaitHoldsUntilEnd(s: Sched, size: Capacity, p: nat, events: seq<Event>, env: Env)
    requires Inv(s) && CallerRunning(s) && 0 < p && ProcessAt(s, p) && p != s.currentPid && s.processes[p].value.state != PExiting
    requires forall e :: e in events ==> Lifetime(e)
    ensures Fits(s, size, Waited(p)) && Inv(Step(s, size, Waited(p)))
    ensures var s1 := Step(s, size, Waited(p));
            InScope(s1, size, events) && NeverEnds(s1, size, events, p) ==>
              Pick(Run(s1, size, events), env).current != s.current
  {
    hide SoundBut, ListsOk, WaitsOk, Pick;
    StepInv(s, size, Waited(p));
    WaitEffect(s, p);
    var t, s1 := s.current.value, Step(s, size, Waited(p));
    assert Held(s1, t, p) && NotEnded(s1, p);
    if InScope(s1, size, events) && NeverEnds(s1, size, events, p) {
      RunHolds(s1, size, events, t, p);
      PickHolds(Run(s1, size, events), env, t, p);
    }
  }

  // ---------- and soon after ----------

  /** Thread `t`, queued at position `i`, waits for process `p`, which has ended. */
  ghost predicate WakesAt(s: Sched, t: nat, p: nat, i: nat) {
    QueuedAt(s, t, i) && Awaits(s, t, p) && ProcessAt(s, p) && s.processes[p].value.state == PExiting
  }

  /** A turn for another thread changes neither the waiter nor that the process has ended. */
  lemma WakeTurn(s1: Sched, u: nat, env: Env, t: nat, p: nat)
    requires Inv(s1) && Taken(s1, u) && s1.current == None && u != t
    requires Awaits(s1, t, p) && ProcessAt(s1, p) && s1.processes[p].value.state == PExiting
    ensures NoPanic(s1, u) && (s1.threads[u].value.state == Dead ==> 0 < s1.loc <= |s1.queue|)
    ensures var s2 := Visit(s1, u, env); Inv(s2) && Awaits(s2, t, p) && ProcessAt(s2, p) && s2.processes[p].value.state == PExiting
  {
    VisitShape(s1, u, env);
    VisitInv(s1, u, env);
    VisitKeepsExits(s1, u, env);
    hide Visit, SoundBut, ListsOk;
    var s2 := Visit(s1, u, env);
    assert Awaits(s2, t, p);
    assert WaitOk(s2, s2.threads[t].value);
    assert ExitKept(s1, s2, p);
  }

  /** At its own turn it is selected. */
  lemma WakesNow(s1: Sched, env: Env, t: nat, p: nat)
    requires Inv(s1) && Taken(s1, t) && s1.current == None
    requires Awaits(s1, t, p) && ProcessAt(s1, p) && s1.processes[p].value.state == PExiting
    ensures NoPanic(s1, t) && Visit(s1, t, env).current == Some(t)
  {
    NoPanicReachable(s1, t);
    assert ListOk(s1, None, p, s1.processes[p].value);
    WaiterEffect(s1, t, env);
  }

  /** One pick selects the waiter or brings its turn closer. */
  lemma {:induction false} PickWakes(s: Sched, loop: bool, env: Env, t: nat, p: nat, i: nat) returns (i': nat)
    requires Inv(s) && s.current == None && WakesAt(s, t, p, i) && (loop ==> s.loc <= i)
    ensures var s' := PickFrom(s, loop, env);
            s'.current == Some(t) || (WakesAt(s', t, p, i') && Distance(s', i') < Distance(s, i))
    decreases !loop, |s.queue| - s.loc, s.threads[s.idle].value.state == Starting
  {
    hide OwnersOk, OwnLists, ListsOk, WaitsOk, Visit, NoPanic;
    NextEntryInv(s, loop);
    var (s1, u, loop') := NextEntry(s, loop);
    VisitShape(s1, u, env);
    VisitInv(s1, u, env);
    var s2 := Visit(s1, u, env);
    i' := i;
    if u == t {
      WakesNow(s1, env, t, p);
    } else {
      WakeTurn(s1, u, env, t, p);
      i' := TurnProgress(s, loop, t, i, s2);
      if s2.current == None {
        i' := PickWakes(s2, loop', env, t, p, i');
      }
    }
  }

  /** States before each pick of a run in which no thread is created, and `t` goes on waiting. */
  ghost predicate WakingRun(states: seq<Sched>, envs: seq<Env>, t: nat, p: nat) {
    && |envs| == |states|
    && (forall k :: 0 <= k < |states| ==> Inv(states[k]) && Awaits(states[k], t, p))
    && (forall k :: 0 <= k < |states| - 1 ==> BetweenPicks(Pick(states[k], envs[k]), states[k + 1], p))
  }

  ghost predicate BetweenPicks(s: Sched, s': Sched, p: nat) {
    && Inv(s') && s'.queue == s.queue && s'.loc == s.loc && s'.idle == s.idle
    && (ProcessAt(s, p) && s.processes[p].value.state == PExiting ==> ProcessAt(s', p) && s'.processes[p].value.state == PExiting)
  }

  lemma NextWaking(states: seq<Sched>, envs: seq<Env>, t: nat, p: nat, i: nat) returns (i': nat)
    requires WakingRun(states, envs, t, p) && states != [] && WakesAt(states[0], t, p, i)
    requires Distance(states[0], i) < |states| && Pick(states[0], envs[0]).current != Some(t)
    ensures 1 < |states| && WakesAt(states[1], t, p, i') && Distance(states[1], i') < |states| - 1
  {
    hide OwnersOk, OwnLists, ListsOk, WaitsOk, IdleOk, CurrentOk, PickFrom;
    var s0 := states[0].(current := None);
    NoneSelectedInv(states[0]);
    i' := PickWakes(s0, false, envs[0], t, p, i);
    var r := Pick(states[0], envs[0]);
    PickFromSafe(s0, false, envs[0]);
    assert QueueOk(r);
    assert 0 <= Distance(r, i') < Distance(states[0], i);
    assert BetweenPicks(Pick(states[0], envs[0]), states[0 + 1], p);
  }

  /** A thread that waits for a process that has ended is selected within as many picks as entries lie in front of it. */
  lemma {:induction false} WokenWithin(states: seq<Sched>, envs: seq<Env>, t: nat, p: nat, i: nat)
    requires WakingRun(states, envs, t, p) && states != []
    requires WakesAt(states[0], t, p, i) && Distance(states[0], i) < |states|
    ensures exists k :: 0 <= k < |states| && Pick(states[k], envs[k]).current == Some(t)
    decreases |states|
  {
    hide SoundBut, ListsOk, WaitsOk, BetweenPicks, Distance, Pick, WakesAt;
    if Pick(states[0], envs[0]).current != Some(t) {
      var i' := NextWaking(states, envs, t, p, i);
      assert WakingRun(states[1..], envs[1..], t, p) by {
        assert forall k :: 0 <= k < |states| - 1 ==> states[1..][k] == states[k + 1] && envs[1..][k] == envs[k + 1];
      }
      WokenWithin(states[1..], envs[1..], t, p, i');
      var k :| 0 <= k < |states[1..]| && Pick(states[1..][k], envs[1..][k]).current == Some(t);
      assert Pick(states[k + 1], envs[k + 1]).current == Some(t);
    }
  }
}
