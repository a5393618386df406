/** What each call and each turn of the scheduler does, thread by thread and record by record. */
module SchedEffects {
  import opened Wrappers
  import opened Errno
  import opened SchedState

  /** Only thread `t` and record `p` may differ between two states. */
  ghost predicate OnlyChanges(s: Sched, s': Sched, t: int, p: int) {
    && s' == s.(threads := s'.threads, processes := s'.processes)
    && |s'.threads| == |s.threads| && |s'.processes| == |s.processes|
    && (forall u :: 0 <= u < |s.threads| && u != t ==> s'.threads[u] == s.threads[u])
    && (forall q :: 0 <= q < |s.processes| && q != p ==> s'.processes[q] == s.processes[q])
  }

  // ---------- calls ----------

  /** wait() blocks its caller on the process and counts it there; it fails without effect for no record and for itself. */
  lemma WaitEffect(s: Sched, pid: int)
    requires s.current.Some? && ThreadAt(s, s.current.value)
    ensures var (r, s') := Wait(s, pid); var t := s.current.value;
            if 0 <= pid < |s.processes| && s.processes[pid] != None && pid != s.currentPid then
              && r == 0 && OnlyChanges(s, s', t, pid) && ThreadAt(s', t) && ProcessAt(s', pid)
              && s'.threads[t].value.state == Waiting && s'.threads[t].value.wait == pid && s'.threads[t].value.waitMsg == None
              && s'.threads[t].value.(state := s.threads[t].value.state, wait := s.threads[t].value.wait, waitMsg := s.threads[t].value.waitMsg)
                 == s.threads[t].value
              && s'.processes[pid].value.waitingThreads == s.processes[pid].value.waitingThreads + 1
              && s'.processes[pid].value.(waitingThreads := s.processes[pid].value.waitingThreads) == s.processes[pid].value
            else
              s' == s && r == if 0 <= pid < |s.processes| && s.processes[pid] != None then -8 else -10
  {
  }

  /** kill() answers, in this order: no such record, itself, a process of higher privilege, success; the first three change nothing. */
  lemma KillAnswer(s: Sched, pid: int)
    requires ProcessAt(s, s.currentPid) && (0 <= pid && ProcessAt(s, pid) ==> TidsLive(s, pid))
    ensures var (r, s') := Kill(s, pid);
            && (!(0 <= pid < |s.processes|) || s.processes[pid] == None ==> r == -10 && s' == s)
            && (pid == s.currentPid ==> r == -8 && s' == s)
            && (ProcessAt(s, pid) && pid != s.currentPid && s.processes[pid].value.privilege < s.processes[s.currentPid].value.privilege ==>
                  r == -4 && s' == s)
            && (ProcessAt(s, pid) && pid != s.currentPid && s.processes[s.currentPid].value.privilege <= s.processes[pid].value.privilege ==>
                  r == 0)
  {
  }

  /** A new thread is STARTING, inherits the privilege of its process, and waits for nothing; it is last in list and queue. */
  lemma ForkEffect(s: Sched, owner: nat)
    requires ProcessAt(s, owner)
    ensures var s', t := CreateThread(s, owner, false), |s.threads|;
            && |s'.threads| == t + 1 && s'.threads[..t] == s.threads && ThreadAt(s', t) && ProcessAt(s', owner)
            && s'.threads[t].value.pid == owner && s'.threads[t].value.privilege == s.processes[owner].value.privilege
            && s'.threads[t].value.state == Starting && s'.threads[t].value.wait == 0 && s'.threads[t].value.waitMsg == None
            && s'.processes[owner].value.tids == s.processes[owner].value.tids + [t] && s'.queue == s.queue + [t]
            && s'.processes[owner].value.(tids := s.processes[owner].value.tids) == s.processes[owner].value
            && s'.processes == s.processes[owner := s'.processes[owner]]
            && s'.loc == s.loc && s'.current == s.current && s'.currentPid == s.currentPid && s'.idle == s.idle
  {
  }

  /** A new process has the privilege asked for, one STARTING thread of that privilege, and nobody waits for it. */
  lemma SpawnEffect(s: Sched, privilege: nat)
    ensures var s', t, p := Spawn(s, privilege), |s.threads|, |s.processes|;
            && |s'.threads| == t + 1 && s'.threads[..t] == s.threads && |s'.processes| == p + 1 && s'.processes[..p] == s.processes
            && ThreadAt(s', t) && ProcessAt(s', p)
            && s'.processes[p].value.privilege == privilege && s'.processes[p].value.state == PStarting
            && s'.processes[p].value.tids == [t] && s'.processes[p].value.waitingThreads == 0 && s'.processes[p].value.exitcode == 0
            && s'.threads[t].value.pid == p && s'.threads[t].value.privilege == privilege && s'.threads[t].value.state == Starting
            && s'.threads[t].value.wait == 0 && s'.threads[t].value.waitMsg == None
            && s'.queue == s.queue + [t] && s'.loc == s.loc && s'.current == s.current && s'.currentPid == s.currentPid && s'.idle == s.idle
  {
    var s', p := Spawn(s, privilege), |s.processes|;
    assert s'.processes[p].value.tids == [|s.threads|];
    assert s'.processes[..p] == s.processes;
  }

  /** interface_wait blocks its caller on the queue. */
  lemma WaitMessageEffect(s: Sched, q: nat)
    requires s.current.Some? && ThreadAt(s, s.current.value)
    ensures var s', t := WaitMessage(s, q), s.current.value;
            && OnlyChanges(s, s', t, -1) && ThreadAt(s', t)
            && s'.threads[t].value.state == Waiting && s'.threads[t].value.wait == 0 && s'.threads[t].value.waitMsg == Some(q)
            && s'.threads[t].value.pid == s.threads[t].value.pid && s'.threads[t].value.privilege == s.threads[t].value.privilege
  {
  }

  /** The deletion of a queue makes RUNNING exactly the threads that wait on it, and they wait for nothing any more. */
  lemma WakeEffect(s: Sched, q: nat)
    ensures var s' := WakeWaiting(s, q);
            && s' == s.(threads := s'.threads) && |s'.threads| == |s.threads|
            && (forall t :: 0 <= t < |s.threads| && !(ThreadAt(s, t) && s.threads[t].value.state == Waiting && s.threads[t].value.waitMsg == Some(q))
                  ==> s'.threads[t] == s.threads[t])
            && (forall t :: ThreadAt(s, t) && s.threads[t].value.state == Waiting && s.threads[t].value.waitMsg == Some(q) ==>
                  && ThreadAt(s', t) && s'.threads[t].value.state == Running && s'.threads[t].value.wait == 0
                  && s'.threads[t].value.waitMsg == None && s'.threads[t].value.pid == s.threads[t].value.pid)
  {
    assert forall t :: ThreadAt(WakeWaiting(s, q), t) == ThreadAt(s, t);
  }

  /** A suspended thread runs again exactly with its own interrupt. */
  lemma InterruptEffect(s: Sched, irq: nat, t: nat, other: nat)
    requires ThreadAt(s, t)
    ensures var s1 := Suspend(s, irq, t);
            && OnlyChanges(s, s1, t, -1) && ThreadAt(s1, t) && s1.threads[t].value.state == Suspended
            && var s2 := Interrupt(s1, other);
               && s2 == s1.(threads := s2.threads) && |s2.threads| == |s1.threads| && ThreadAt(s2, t)
               && s2.threads[t].value.state == (if other == irq then Running else Suspended)
               && s2.threads[t].value.pid == s.threads[t].value.pid && s2.threads[t].value.eax == s.threads[t].value.eax
               && forall u :: 0 <= u < |s.threads| && u != t ==>
                    || s2.threads[u] == s.threads[u]
                    || (ThreadAt(s, u) && s.threads[u].value.state == Suspended && s.threads[u].value.wait == other)
  {
  }

  // ---------- turns of the loop ----------

  /** A thread that starts runs from its first turn on if its process runs or loads, or the loader succeeds, or it is the kernel's. */
  lemma StartEffect(s: Sched, t: nat, env: Env)
    requires NoPanic(s, t) && s.threads[t].value.state == Starting && s.current == None
    ensures var s', p := Visit(s, t, env), s.threads[t].value.pid;
            && ThreadAt(s', t) && ProcessAt(s', p) && s'.current == None && OnlyChanges(s, s', t, p)
            && var starting := s.threads[t].value.privilege != 0 && s.processes[p].value.state == PStarting;
               && s'.threads[t].value.(state := Starting) == s.threads[t].value
               && s'.threads[t].value.state == (if starting && p !in env.loadable then Starting else Running)
               && s'.processes[p].value.(state := s.processes[p].value.state) == s.processes[p].value
               && s'.processes[p].value.state ==
                  (if !starting then s.processes[p].value.state else if p in env.loadable then PRunning else PLoading)
  {
  }

  /** A thread that waits for a message runs again from its turn on exactly if its queue has one for it. */
  lemma MessageEffect(s: Sched, t: nat, env: Env)
    requires NoPanic(s, t) && s.threads[t].value.state == Waiting && s.threads[t].value.waitMsg.Some? && s.current == None
    ensures var s', q, p := Visit(s, t, env), s.threads[t].value.waitMsg.value, s.threads[t].value.pid;
            && OnlyChanges(s, s', t, -1) && ThreadAt(s', t)
            && if (q, p) in env.ready
               then s'.threads[t].value.state == Running && s'.threads[t].value.waitMsg == None && s'.threads[t].value.pid == p
               else s'.threads[t] == s.threads[t]
  {
  }

  /** A thread that has ended alone is dead after one turn. */
  lemma ExitingEffect(s: Sched, t: nat, env: Env)
    requires NoPanic(s, t) && s.threads[t].value.state == Exiting && s.current == None
    ensures var s' := Visit(s, t, env);
            OnlyChanges(s, s', t, -1) && ThreadAt(s', t) && s'.threads[t].value.state == Dead && s'.threads[t].value.wait == s.threads[t].value.wait
  {
  }

  /** A dead thread is freed and leaves the queue; if its `wait` names a record, that counts one waiter less. */
  lemma DeadEffect(s: Sched, t: nat, env: Env)
    requires NoPanic(s, t) && s.threads[t].value.state == Dead && s.current == None && 0 < s.loc <= |s.queue|
    ensures var s', w := Visit(s, t, env), s.threads[t].value.wait;
            && |s'.threads| == |s.threads| && |s'.processes| == |s.processes|
            && s'.threads[t] == None && (forall u :: 0 <= u < |s.threads| && u != t ==> s'.threads[u] == s.threads[u])
            && s'.queue == s.queue[..s.loc - 1] + s.queue[s.loc..] && s'.loc == s.loc - 1 && s'.current == None
            && (forall p :: 0 <= p < |s.processes| && !(p == w && 0 < w && ProcessAt(s, w)) ==> s'.processes[p] == s.processes[p])
            && (0 < w && ProcessAt(s, w) ==>
                  && ProcessAt(s', w) && s'.processes[w].value.waitingThreads == s.processes[w].value.waitingThreads - 1
                  && s'.processes[w].value.(waitingThreads := s.processes[w].value.waitingThreads) == s.processes[w].value)
  {
  }

  /** A suspended thread's turn does nothing. */
  lemma SuspendedEffect(s: Sched, t: nat, env: Env)
    requires NoPanic(s, t) && s.threads[t].value.state == Suspended
    ensures Visit(s, t, env) == s
  {
  }

  /** A running thread is selected at its turn, and nothing else happens. */
  lemma RunningEffect(s: Sched, t: nat, env: Env)
    requires NoPanic(s, t) && s.threads[t].value.state == Running
    ensures Visit(s, t, env) == s.(current := Some(t), currentPid := s.threads[t].value.pid)
  {
  }

  /**
   A thread that waits for a process: if that lists no thread any more, it is selected, runs, waits for nothing and
   gets the exit code; the record counts one waiter less, and is gone if that was the last. While threads are listed
   nothing happens. If there is no record any more, it runs from now on without a code.
   */
  lemma WaiterEffect(s: Sched, t: nat, env: Env)
    requires NoPanic(s, t) && s.threads[t].value.state == Waiting && s.threads[t].value.waitMsg == None && s.current == None
    ensures var s', p := Visit(s, t, env), s.threads[t].value.wait;
            && ThreadAt(s', t) && OnlyChanges(s, s'.(current := s.current, currentPid := s.currentPid), t, p)
            && if !ProcessAt(s, p) then
                 s'.current == None && s'.threads[t] == Some(s.threads[t].value.(wait := 0, state := Running)) && !ProcessAt(s', p)
               else if s.processes[p].value.tids == [] then
                 && s'.current == Some(t) && s'.currentPid == s.threads[t].value.pid
                 && s'.threads[t] == Some(s.threads[t].value.(wait := 0, state := Running, eax := s.processes[p].value.exitcode))
                 && (s.processes[p].value.waitingThreads == 1 ==> !ProcessAt(s', p))
                 && (s.processes[p].value.waitingThreads != 1 ==>
                       s'.processes[p] == Some(s.processes[p].value.(waitingThreads := s.processes[p].value.waitingThreads - 1)))
               else s' == s
  {
  }
}
