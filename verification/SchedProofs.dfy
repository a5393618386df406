/** What every reachable state of the scheduler satisfies, and why each operation keeps it. */
module SchedProofs {
  import opened Wrappers
  import opened SchedState

  // ---------- the invariant ----------

  ghost predicate QueueOk(s: Sched) {
    && s.loc <= |s.queue|
    && (forall i, j :: 0 <= i < j < |s.queue| ==> s.queue[i] != s.queue[j])
    && (forall t :: t in s.queue ==> ThreadAt(s, t) && t != s.idle)
    && (forall t :: ThreadAt(s, t) && t != s.idle ==> t in s.queue)
  }

  /** The idle thread belongs to process 0, which no user process may kill. */
  ghost predicate IdleOk(s: Sched) {
    && ThreadAt(s, s.idle)
    && (var r := s.threads[s.idle].value;
        r.privilege == 0 && r.state in {Running, Starting} && r.pid == 0)
    && ProcessAt(s, 0) && s.processes[0].value.privilege == 0
  }

  /** A thread that is not dead belongs to a process that lists it and is not exiting (process `x` excepted). */
  ghost predicate OwnersOk(s: Sched, x: Option<int>) {
    forall t :: ThreadAt(s, t) ==> OwnerOk(s, x, t, s.threads[t].value)
  }

  ghost predicate OwnerOk(s: Sched, x: Option<int>, t: int, r: Thread) {
    && r.pid < |s.processes|
    && (r.state != Dead ==>
          && ProcessAt(s, r.pid) && t in s.processes[r.pid].value.tids
          && (x != Some(r.pid) ==> s.processes[r.pid].value.state != PExiting))
  }

  /** Threads that a process lists are its own, as long as they have not been freed. */
  ghost predicate OwnLists(s: Sched) {
    forall p :: ProcessAt(s, p) ==> OwnList(s, p, s.processes[p].value)
  }

  ghost predicate OwnList(s: Sched, p: int, r: Process) {
    forall t :: t in r.tids ==> t < |s.threads| && (ThreadAt(s, t) ==> s.threads[t].value.pid == p)
  }

  ghost predicate CurrentOk(s: Sched) {
    s.current.Some? ==> ThreadAt(s, s.current.value) && s.threads[s.current.value].value.pid == s.currentPid
  }

  ghost predicate SoundBut(s: Sched, x: Option<int>) {
    QueueOk(s) && IdleOk(s) && OwnersOk(s, x) && OwnLists(s) && CurrentOk(s)
  }

  /** What scheduling needs. Threads may be in any state. */
  ghost predicate Sound(s: Sched) { SoundBut(s, None) }

  /** A process lists only its living threads, and lists none exactly when it has ended. */
  ghost predicate ListsOk(s: Sched, x: Option<int>) {
    forall p :: ProcessAt(s, p) ==> ListOk(s, x, p, s.processes[p].value)
  }

  ghost predicate ListOk(s: Sched, x: Option<int>, p: int, r: Process) {
    && (forall t :: t in r.tids ==> ThreadAt(s, t) && s.threads[t].value.pid == p && s.threads[t].value.state != Dead)
    && (r.state == PExiting <== r.tids == [])
    && (x != Some(p) ==> (r.tids == [] <== r.state == PExiting))
  }

  /** The threads not yet freed whose `wait` names pid `p`, dead ones included. */
  ghost function Waiters(threads: seq<Option<Thread>>, p: int): set<nat> {
    set t | 0 <= t < |threads| && threads[t].Some? && threads[t].value.wait == p
  }

  ghost predicate WaitsOk(s: Sched) {
    && (forall t :: ThreadAt(s, t) ==> WaitOk(s, s.threads[t].value))
    && (forall p :: 0 < p && ProcessAt(s, p) ==> s.processes[p].value.waitingThreads == |Waiters(s.threads, p)|)
  }

  ghost predicate WaitOk(s: Sched, r: Thread) {
    && r.state != Suspended && r.state != Exiting
    && (r.state in {Running, Starting} ==> r.wait == 0)
    && (r.waitMsg.Some? ==> r.wait == 0)
    && (0 < r.wait ==> ProcessAt(s, r.wait))
  }

  ghost predicate InvBut(s: Sched, x: Option<int>) {
    SoundBut(s, x) && ListsOk(s, x) && WaitsOk(s)
  }

  /** What the lifetime of processes needs besides: exact waiter counts, no suspended and no exiting thread. */
  ghost predicate Inv(s: Sched) { InvBut(s, None) }

  // ---------- scheduling: changes to threads, records and the selection ----------

  /** Threads change, but not their owners; none comes back from the dead, and the idle thread does not block. */
  ghost predicate ThreadsKept(s: Sched, threads: seq<Option<Thread>>) {
    && |threads| == |s.threads|
    && (forall t :: 0 <= t < |threads| ==> threads[t].Some? == s.threads[t].Some?)
    && (forall t :: ThreadAt(s, t) ==>
          && threads[t].Some? && threads[t].value.pid == s.threads[t].value.pid
          && (s.threads[t].value.state == Dead ==> threads[t].value.state == Dead)
          && (t == s.idle ==> threads[t].value.privilege == 0 && threads[t].value.state in {Running, Starting}))
  }

  lemma ThreadsSound(s: Sched, threads: seq<Option<Thread>>)
    requires Sound(s) && ThreadsKept(s, threads)
    ensures Sound(s.(threads := threads))
  {
    var s' := s.(threads := threads);
    assert forall u :: ThreadAt(s', u) == ThreadAt(s, u);
    assert forall p :: ProcessAt(s', p) == ProcessAt(s, p);
    forall t | ThreadAt(s', t) ensures OwnerOk(s', None, t, s'.threads[t].value) {
      assert OwnerOk(s, None, t, s.threads[t].value);
    }
    forall p | ProcessAt(s', p) ensures OwnList(s', p, s'.processes[p].value) {
      assert OwnList(s, p, s.processes[p].value);
    }
  }

  lemma ThreadSound(s: Sched, t: nat, r: Thread)
    requires Sound(s) && ThreadAt(s, t) && r.pid == s.threads[t].value.pid
    requires s.threads[t].value.state == Dead ==> r.state == Dead
    requires t == s.idle ==> r.privilege == 0 && r.state in {Running, Starting}
    ensures Sound(SetThread(s, t, r))
  {
    ThreadsSound(s, s.threads[t := Some(r)]);
  }

  /** A record changes, but neither its thread list nor its privilege, and the process does not end. */
  lemma RecordSound(s: Sched, p: nat, r: Process)
    requires Sound(s) && ProcessAt(s, p)
    requires r.tids == s.processes[p].value.tids && r.privilege == s.processes[p].value.privilege
    requires r.state == PExiting ==> s.processes[p].value.state == PExiting
    ensures Sound(SetProcess(s, p, r))
  {
    var s' := SetProcess(s, p, r);
    assert forall u :: ThreadAt(s', u) == ThreadAt(s, u);
    assert forall q :: ProcessAt(s', q) == ProcessAt(s, q);
    forall t | ThreadAt(s', t) ensures OwnerOk(s', None, t, s'.threads[t].value) {
      assert OwnerOk(s, None, t, s.threads[t].value);
    }
    forall q | ProcessAt(s', q) ensures OwnList(s', q, s'.processes[q].value) {
      assert OwnList(s, q, s.processes[q].value);
    }
  }

  /** Another thread is selected, or the queue is read at another place. */
  lemma SelectionSound(s: Sched, s': Sched)
    requires Sound(s) && s' == s.(current := s'.current, currentPid := s'.currentPid, loc := s'.loc)
    requires CurrentOk(s') && s'.loc <= |s.queue|
    ensures Sound(s')
  {
    assert forall u :: ThreadAt(s', u) == ThreadAt(s, u);
    assert forall p :: ProcessAt(s', p) == ProcessAt(s, p);
    forall t | ThreadAt(s', t) ensures OwnerOk(s', None, t, s'.threads[t].value) {
      assert OwnerOk(s, None, t, s.threads[t].value);
    }
    forall p | ProcessAt(s', p) ensures OwnList(s', p, s'.processes[p].value) {
      assert OwnList(s, p, s.processes[p].value);
    }
  }

  lemma NoneSelected(s: Sched)
    requires Sound(s)
    ensures Sound(s.(current := None))
  {
    SelectionSound(s, s.(current := None));
  }

  // ---------- scheduling: the end of processes ----------

  /** What reaping changes: the listed threads are dead, the list is empty or the record gone, and nothing else. */
  ghost predicate Reaped(s: Sched, pid: nat, s': Sched)
    requires ProcessAt(s, pid)
  {
    && s' == s.(threads := s'.threads, processes := s'.processes)
    && |s'.threads| == |s.threads|
    && (forall t :: ThreadAt(s', t) == ThreadAt(s, t))
    && (forall t :: ThreadAt(s, t) ==>
          s'.threads[t].value == if t in s.processes[pid].value.tids then s.threads[t].value.(state := Dead) else s.threads[t].value)
    && |s'.processes| == |s.processes|
    && (forall p :: 0 <= p < |s.processes| && p != pid ==> s'.processes[p] == s.processes[p])
    && s'.processes[pid] == if s.processes[pid].value.waitingThreads == 0 then None else Some(s.processes[pid].value.(tids := []))
  }

  lemma ReapShape(s: Sched, pid: nat)
    requires ProcessAt(s, pid) && TidsLive(s, pid)
    ensures Reaped(s, pid, Reap(s, pid))
  {
  }

  lemma NotListed(s: Sched, x: Option<int>, pid: nat)
    requires SoundBut(s, x) && ProcessAt(s, pid) && pid != 0
    ensures s.idle !in s.processes[pid].value.tids
  {
    assert OwnList(s, pid, s.processes[pid].value);
  }

  /** A process can be reaped as soon as all threads it lists are still there. */
  lemma ReapSound(s: Sched, pid: nat)
    requires SoundBut(s, Some(pid)) && ProcessAt(s, pid) && TidsLive(s, pid) && pid != 0
    ensures Sound(Reap(s, pid)) && Reaped(s, pid, Reap(s, pid))
  {
    ReapShape(s, pid);
    NotListed(s, Some(pid), pid);
    var s' := Reap(s, pid);
    forall t | ThreadAt(s', t) ensures OwnerOk(s', None, t, s'.threads[t].value) {
      assert OwnerOk(s, Some(pid), t, s.threads[t].value);
    }
    forall p | ProcessAt(s', p) ensures OwnList(s', p, s'.processes[p].value) {
      assert OwnList(s, p, s.processes[p].value);
    }
  }

  /** Ending a process other than that of the idle thread. */
  lemma EndSound(s: Sched, pid: nat, exitcode: int)
    requires Sound(s) && ProcessAt(s, pid) && pid != 0 && TidsLive(s, pid)
    ensures var s1 := SetProcess(s, pid, s.processes[pid].value.(exitcode := exitcode, state := PExiting));
            TidsLive(s1, pid) && SoundBut(s1, Some(pid)) && Sound(Reap(s1, pid)) && Reaped(s1, pid, Reap(s1, pid))
  {
    hide Reap;
    MarkedSound(s, pid, exitcode);
    var s1 := SetProcess(s, pid, s.processes[pid].value.(exitcode := exitcode, state := PExiting));
    assert TidsLive(s1, pid) by { assert forall t :: ThreadAt(s1, t) == ThreadAt(s, t); }
    ReapSound(s1, pid);
  }

  lemma MarkedSound(s: Sched, pid: nat, exitcode: int)
    requires Sound(s) && ProcessAt(s, pid)
    ensures SoundBut(SetProcess(s, pid, s.processes[pid].value.(exitcode := exitcode, state := PExiting)), Some(pid))
  {
    var s' := SetProcess(s, pid, s.processes[pid].value.(exitcode := exitcode, state := PExiting));
    assert forall u :: ThreadAt(s', u) == ThreadAt(s, u);
    assert forall q :: ProcessAt(s', q) == ProcessAt(s, q);
    forall t | ThreadAt(s', t) ensures OwnerOk(s', Some(pid), t, s'.threads[t].value) {
      assert OwnerOk(s, None, t, s.threads[t].value);
    }
    forall p | ProcessAt(s', p) ensures OwnList(s', p, s'.processes[p].value) {
      assert OwnList(s, p, s.processes[p].value);
    }
  }

  // ---------- counting waiters ----------

  lemma WaitersAfterSet(threads: seq<Option<Thread>>, t: nat, r: Option<Thread>, p: int)
    requires t < |threads|
    ensures |Waiters(threads[t := r], p)| ==
            |Waiters(threads, p)|
            - (if threads[t].Some? && threads[t].value.wait == p then 1 else 0)
            + (if r.Some? && r.value.wait == p then 1 else 0)
  {
    var w, w' := Waiters(threads, p), Waiters(threads[t := r], p);
    assert w - {t} == w' - {t};
    assert t in w ==> |w - {t}| == |w| - 1;
    assert t in w' ==> |w' - {t}| == |w'| - 1;
    assert t !in w ==> w - {t} == w;
    assert t !in w' ==> w' - {t} == w';
  }

  lemma SameWaiters(threads: seq<Option<Thread>>, threads': seq<Option<Thread>>, p: int)
    requires |threads| == |threads'|
    requires forall t :: 0 <= t < |threads| ==>
               threads[t].Some? == threads'[t].Some? && (threads[t].Some? ==> threads'[t].value.wait == threads[t].value.wait)
    ensures Waiters(threads', p) == Waiters(threads, p)
  {
  }

  // ---------- lifetime: changes to one thread ----------

  /** A change to one living thread that keeps its owner, its place and what it waits for. */
  lemma ThreadChanged(s: Sched, t: nat, r: Thread)
    requires Inv(s) && ThreadAt(s, t)
    requires var o := s.threads[t].value;
             && r.pid == o.pid && r.privilege == o.privilege && r.wait == o.wait
             && r.state !in {Suspended, Exiting, Dead} && o.state != Dead
             && (r.state in {Running, Starting} ==> r.wait == 0) && (r.waitMsg.Some? ==> r.wait == 0)
             && (t == s.idle ==> r.state in {Running, Starting})
    ensures Inv(SetThread(s, t, r))
  {
    ThreadSound(s, t, r);
    hide QueueOk, IdleOk, OwnersOk, OwnLists;
    var s' := SetThread(s, t, r);
    assert forall u :: ThreadAt(s', u) == ThreadAt(s, u);
    assert forall p :: ProcessAt(s', p) == ProcessAt(s, p);
    forall p | 0 < p && ProcessAt(s, p) ensures Waiters(s'.threads, p) == Waiters(s.threads, p) {
      SameWaiters(s.threads, s'.threads, p);
    }
    assert ListsOk(s', None) by { assert forall p :: ProcessAt(s, p) ==> ListOk(s, None, p, s.processes[p].value); }
    assert WaitsOk(s') by { assert forall u :: ThreadAt(s, u) ==> WaitOk(s, s.threads[u].value); }
  }

  // ---------- lifetime: reaping ----------

  lemma ReapInv(s: Sched, pid: nat)
    requires InvBut(s, Some(pid)) && ProcessAt(s, pid) && s.processes[pid].value.state == PExiting && pid != 0
    ensures TidsLive(s, pid) && Inv(Reap(s, pid))
  {
    assert ListOk(s, Some(pid), pid, s.processes[pid].value);
    ReapSound(s, pid);
    hide QueueOk, IdleOk, OwnersOk, OwnLists, Reap;
    ReapLists(s, pid, Reap(s, pid));
    ReapWaits(s, pid, Reap(s, pid));
  }

  lemma ReapLists(s: Sched, pid: nat, s': Sched)
    requires InvBut(s, Some(pid)) && ProcessAt(s, pid) && s.processes[pid].value.state == PExiting && Reaped(s, pid, s')
    ensures ListsOk(s', None)
  {
    forall p | ProcessAt(s', p) ensures ListOk(s', None, p, s'.processes[p].value) {
      assert ProcessAt(s, p) && ListOk(s, Some(pid), p, s.processes[p].value);
      if p != pid {
        forall t | t in s.processes[p].value.tids ensures t !in s.processes[pid].value.tids {
          assert ListOk(s, Some(pid), pid, s.processes[pid].value);
        }
      }
    }
  }

  lemma ReapWaits(s: Sched, pid: nat, s': Sched)
    requires InvBut(s, Some(pid)) && ProcessAt(s, pid) && Reaped(s, pid, s')
    ensures WaitsOk(s')
  {
    forall p | 0 < p && ProcessAt(s, p) ensures Waiters(s'.threads, p) == Waiters(s.threads, p) {
      assert forall t :: 0 <= t < |s.threads| ==> (ThreadAt(s', t) == s'.threads[t].Some?) && (ThreadAt(s, t) == s.threads[t].Some?);
      SameWaiters(s.threads, s'.threads, p);
    }
    forall t | ThreadAt(s', t) ensures WaitOk(s', s'.threads[t].value) {
      assert WaitOk(s, s.threads[t].value);
      var w := s.threads[t].value.wait;
      if w == pid && 0 < w {
        assert t in Waiters(s.threads, pid);
      }
    }
  }

  // ---------- creation ----------

  lemma CreateQueue(s: Sched, s': Sched)
    requires QueueOk(s) && IdleOk(s)
    requires |s'.threads| == |s.threads| + 1 && s'.threads[..|s.threads|] == s.threads && s'.threads[|s.threads|].Some?
    requires ProcessAt(s', 0) && s'.processes[0].value.privilege == s.processes[0].value.privilege
    requires s'.queue == s.queue + [|s.threads|] && s'.loc == s.loc && s'.idle == s.idle
    ensures QueueOk(s') && IdleOk(s')
    ensures forall t :: ThreadAt(s', t) <==> ThreadAt(s, t) || t == |s.threads|
    ensures forall t :: ThreadAt(s, t) ==> s'.threads[t] == s.threads[t]
  {
    assert forall t :: 0 <= t < |s.threads| ==> s'.threads[t] == s'.threads[..|s.threads|][t];
    assert forall i :: 0 <= i < |s.queue| ==> s.queue[i] in s.queue && ThreadAt(s, s.queue[i]);
  }

  lemma CreateWaits(s: Sched, s': Sched)
    requires WaitsOk(s) && |s.processes| <= |s'.processes|
    requires |s'.threads| == |s.threads| + 1 && s'.threads[..|s.threads|] == s.threads
    requires s'.threads[|s.threads|].Some? && s'.threads[|s.threads|].value.state == Starting
    requires s'.threads[|s.threads|].value.wait == 0 && s'.threads[|s.threads|].value.waitMsg == None
    requires forall p :: ProcessAt(s, p) ==> ProcessAt(s', p) && s'.processes[p].value.waitingThreads == s.processes[p].value.waitingThreads
    requires forall p :: ProcessAt(s', p) && !ProcessAt(s, p) ==> p == |s.processes| && s'.processes[p].value.waitingThreads == 0
    ensures WaitsOk(s')
  {
    assert forall t :: 0 <= t < |s.threads| ==> s'.threads[t] == s'.threads[..|s.threads|][t];
    forall t | ThreadAt(s', t) ensures WaitOk(s', s'.threads[t].value) {
      if t < |s.threads| { assert ThreadAt(s, t) && WaitOk(s, s.threads[t].value); }
    }
    forall p | 0 < p && ProcessAt(s', p) ensures s'.processes[p].value.waitingThreads == |Waiters(s'.threads, p)| {
      assert Waiters(s'.threads, p) == Waiters(s.threads, p);
      if !ProcessAt(s, p) {
        forall t | ThreadAt(s, t) ensures s.threads[t].value.wait != p {
          assert WaitOk(s, s.threads[t].value);
        }
        assert forall t :: 0 <= t < |s.threads| && s.threads[t].Some? ==> ThreadAt(s, t);
        assert Waiters(s.threads, p) == {};
      }
    }
  }

  lemma CreateSound(s: Sched, s': Sched, owner: nat)
    requires Sound(s) && |s.processes| <= |s'.processes| && ProcessAt(s', owner) && s'.processes[owner].value.state != PExiting
    requires |s'.threads| == |s.threads| + 1 && s'.threads[..|s.threads|] == s.threads
    requires s'.threads[|s.threads|].Some? && s'.threads[|s.threads|].value.pid == owner
    requires s'.queue == s.queue + [|s.threads|] && s'.loc == s.loc && s'.idle == s.idle
    requires s'.current == s.current && s'.currentPid == s.currentPid
    requires forall p :: ProcessAt(s, p) && p != owner ==> s'.processes[p] == s.processes[p]
    requires forall p :: ProcessAt(s', p) && p != owner ==> ProcessAt(s, p)
    requires s'.processes[owner].value.tids == (if ProcessAt(s, owner) then s.processes[owner].value.tids else []) + [|s.threads|]
    requires ProcessAt(s, owner) ==> s'.processes[owner].value == s.processes[owner].value.(tids := s'.processes[owner].value.tids)
    ensures Sound(s')
  {
    var n := |s.threads|;
    CreateQueue(s, s');
    forall t | ThreadAt(s', t) ensures OwnerOk(s', None, t, s'.threads[t].value) {
      if t != n { assert OwnerOk(s, None, t, s.threads[t].value); }
    }
    forall p | ProcessAt(s', p) ensures OwnList(s', p, s'.processes[p].value) {
      if ProcessAt(s, p) { assert OwnList(s, p, s.processes[p].value); }
    }
  }

  /** A new thread of a living process. */
  lemma ForkSound(s: Sched, owner: nat)
    requires Sound(s) && ProcessAt(s, owner) && s.processes[owner].value.state != PExiting
    ensures Sound(CreateThread(s, owner, false))
  {
    var s', n := CreateThread(s, owner, false), |s.threads|;
    assert s'.threads[..n] == s.threads;
    CreateSound(s, s', owner);
  }

  lemma SpawnSound(s: Sched, privilege: nat)
    requires Sound(s)
    ensures Sound(Spawn(s, privilege))
  {
    var s', n, q := Spawn(s, privilege), |s.threads|, |s.processes|;
    assert s'.threads[..n] == s.threads;
    assert forall p :: 0 <= p < q ==> s'.processes[p] == s.processes[p];
    CreateSound(s, s', q);
  }

  lemma ForkInv(s: Sched, owner: nat)
    requires Inv(s) && ProcessAt(s, owner) && s.processes[owner].value.state != PExiting
    ensures Inv(CreateThread(s, owner, false))
  {
    ForkSound(s, owner);
    hide OwnersOk, OwnLists;
    var s', n := CreateThread(s, owner, false), |s.threads|;
    assert s'.threads[..n] == s.threads;
    CreateQueue(s, s');
    CreateWaits(s, s');
    forall p | ProcessAt(s', p) ensures ListOk(s', None, p, s'.processes[p].value) {
      assert ListOk(s, None, p, s.processes[p].value);
    }
  }

  lemma SpawnInv(s: Sched, privilege: nat)
    requires Inv(s)
    ensures Inv(Spawn(s, privilege))
  {
    SpawnSound(s, privilege);
    hide OwnersOk, OwnLists;
    var s', n, q := Spawn(s, privilege), |s.threads|, |s.processes|;
    assert s'.threads[..n] == s.threads;
    assert forall p :: 0 <= p < q ==> s'.processes[p] == s.processes[p];
    CreateQueue(s, s');
    CreateWaits(s, s');
    forall p | ProcessAt(s', p) ensures ListOk(s', None, p, s'.processes[p].value) {
      if p != q { assert ListOk(s, None, p, s.processes[p].value); }
    }
  }

  // ---------- system calls of the running thread ----------

  /** Some thread runs, and it is not the idle thread: the kernel's own thread, or one of a user process. */
  ghost predicate CallerRunning(s: Sched) {
    && s.current.Some? && ThreadAt(s, s.current.value) && s.current.value != s.idle
    && s.threads[s.current.value].value.state == Running
  }

  /** A thread of a user process runs: the callers of fork, exit and kill. */
  ghost predicate UserRunning(s: Sched) {
    CallerRunning(s) && ProcessAt(s, s.currentPid) && 0 < s.processes[s.currentPid].value.privilege
  }

  lemma WaitSound(s: Sched, pid: int)
    requires Sound(s) && CallerRunning(s)
    ensures Sound(Wait(s, pid).1)
  {
    hide QueueOk, IdleOk, OwnersOk, OwnLists;
    if 0 <= pid < |s.processes| && s.processes[pid].Some? && pid != s.currentPid {
      var t := s.current.value;
      var r := s.threads[t].value.(wait := pid, waitMsg := None, state := Waiting);
      ThreadSound(s, t, r);
      RecordSound(SetThread(s, t, r), pid, s.processes[pid].value.(waitingThreads := s.processes[pid].value.waitingThreads + 1));
    }
  }

  lemma WaitInv(s: Sched, pid: int)
    requires Inv(s) && CallerRunning(s)
    ensures Inv(Wait(s, pid).1)
  {
    WaitSound(s, pid);
    hide QueueOk, IdleOk, OwnLists;
    if 0 <= pid < |s.processes| && s.processes[pid].Some? && pid != s.currentPid {
      var t := s.current.value;
      var r := s.threads[t].value.(wait := pid, waitMsg := None, state := Waiting);
      var s' := Wait(s, pid).1;
      assert s'.threads == s.threads[t := Some(r)];
      assert WaitOk(s, s.threads[t].value) && OwnerOk(s, None, t, s.threads[t].value);
      hide OwnersOk;
      assert forall u :: ThreadAt(s', u) == ThreadAt(s, u);
      assert forall p :: ProcessAt(s', p) == ProcessAt(s, p);
      forall u | ThreadAt(s', u) ensures WaitOk(s', s'.threads[u].value) {
        assert WaitOk(s, s.threads[u].value);
      }
      forall p | ProcessAt(s', p) ensures ListOk(s', None, p, s'.processes[p].value) {
        assert ListOk(s, None, p, s.processes[p].value);
      }
      forall p | 0 < p && ProcessAt(s', p) ensures s'.processes[p].value.waitingThreads == |Waiters(s'.threads, p)| {
        WaitersAfterSet(s.threads, t, Some(r), p);
      }
    }
  }

  lemma WaitMessageSound(s: Sched, q: nat)
    requires Sound(s) && CallerRunning(s)
    ensures Sound(WaitMessage(s, q))
  {
    hide QueueOk, IdleOk, OwnersOk, OwnLists;
    ThreadSound(s, s.current.value, s.threads[s.current.value].value.(state := Waiting, wait := 0, waitMsg := Some(q)));
  }

  lemma WaitMessageInv(s: Sched, q: nat)
    requires Inv(s) && CallerRunning(s)
    ensures Inv(WaitMessage(s, q))
  {
    var t := s.current.value;
    assert WaitOk(s, s.threads[t].value);
    ThreadChanged(s, t, s.threads[t].value.(state := Waiting, wait := 0, waitMsg := Some(q)));
  }

  /** The deletion of a message queue wakes its waiters and leaves everything else alone. */
  lemma WakeSound(s: Sched, q: nat)
    requires Sound(s)
    ensures Sound(WakeWaiting(s, q))
  {
    ThreadsSound(s, WakeWaiting(s, q).threads);
  }

  lemma WakeInv(s: Sched, q: nat)
    requires Inv(s)
    ensures Inv(WakeWaiting(s, q))
  {
    WakeSound(s, q);
    hide QueueOk, IdleOk, OwnersOk, OwnLists;
    var s' := WakeWaiting(s, q);
    assert forall u :: ThreadAt(s', u) == ThreadAt(s, u);
    assert forall p :: ProcessAt(s', p) == ProcessAt(s, p);
    forall u | ThreadAt(s', u)
      ensures s'.threads[u].value.wait == s.threads[u].value.wait
      ensures WaitOk(s', s'.threads[u].value)
    {
      assert WaitOk(s, s.threads[u].value);
    }
    forall p | ProcessAt(s', p) ensures ListOk(s', None, p, s'.processes[p].value) {
      assert ListOk(s, None, p, s.processes[p].value);
    }
    forall p | 0 < p && ProcessAt(s, p) ensures Waiters(s'.threads, p) == Waiters(s.threads, p) {
      assert forall t :: 0 <= t < |s.threads| ==> (ThreadAt(s', t) == s'.threads[t].Some?) && (ThreadAt(s, t) == s.threads[t].Some?);
      SameWaiters(s.threads, s'.threads, p);
    }
  }

  // ---------- scheduling: suspension and the end of single threads ----------

  /** The running thread waits for an interrupt. */
  lemma SuspendSound(s: Sched, irq: nat)
    requires Sound(s) && CallerRunning(s)
    ensures Sound(Suspend(s, irq, s.current.value))
  {
    hide QueueOk, IdleOk, OwnersOk, OwnLists;
    ThreadSound(s, s.current.value, s.threads[s.current.value].value.(wait := irq, state := Suspended));
  }

  /** An interrupt comes in. */
  lemma InterruptSound(s: Sched, irq: nat)
    requires Sound(s)
    ensures Sound(Interrupt(s, irq))
  {
    ThreadsSound(s, Interrupt(s, irq).threads);
  }

  /** The running thread ends alone. */
  lemma ThreadExitSound(s: Sched)
    requires Sound(s) && CallerRunning(s)
    ensures Sound(ExitThread(s, s.current.value))
  {
    hide QueueOk, IdleOk, OwnersOk, OwnLists;
    ThreadSound(s, s.current.value, s.threads[s.current.value].value.(state := Exiting));
  }

  // ---------- the end of processes ----------

  lemma NotIdleProcess(s: Sched)
    requires Sound(s)
    ensures ProcessAt(s, 0) && s.processes[0].value.privilege == 0
  {
  }

  /** exit() and kill() work as long as all threads of the process are still there. */
  lemma ExitSound(s: Sched, exitcode: int)
    requires Sound(s) && UserRunning(s) && TidsLive(s, s.currentPid)
    ensures Sound(Exit(s, exitcode))
  {
    hide Sound, Reap, SetProcess;
    NotIdleProcess(s);
    EndSound(s, s.currentPid, exitcode);
  }

  lemma KillSound(s: Sched, pid: int)
    requires Sound(s) && UserRunning(s) && (0 <= pid && ProcessAt(s, pid) ==> TidsLive(s, pid))
    ensures Sound(Kill(s, pid).1)
  {
    hide Sound, Reap, SetProcess;
    NotIdleProcess(s);
    if 0 <= pid < |s.processes| && s.processes[pid].Some? && pid != s.currentPid
       && s.processes[pid].value.privilege >= s.processes[s.currentPid].value.privilege {
      EndSound(s, pid, s.currentPid + 255);
    }
  }

  /** Marking a process as ended, just before it is reaped. */
  lemma MarkedExiting(s: Sched, pid: nat, exitcode: int)
    requires Inv(s) && ProcessAt(s, pid)
    ensures InvBut(SetProcess(s, pid, s.processes[pid].value.(exitcode := exitcode, state := PExiting)), Some(pid))
  {
    MarkedSound(s, pid, exitcode);
    hide QueueOk, IdleOk, OwnersOk, OwnLists;
    var s' := SetProcess(s, pid, s.processes[pid].value.(exitcode := exitcode, state := PExiting));
    forall u | ThreadAt(s', u) ensures WaitOk(s', s'.threads[u].value) {
      assert WaitOk(s, s.threads[u].value);
    }
    forall p | ProcessAt(s', p) ensures ListOk(s', Some(pid), p, s'.processes[p].value) {
      assert ListOk(s, None, p, s.processes[p].value);
    }
  }

  /** Any process but that of the idle thread may be ended. */
  lemma EndInv(s: Sched, pid: nat, exitcode: int)
    requires Inv(s) && ProcessAt(s, pid) && pid != 0
    ensures var s1 := SetProcess(s, pid, s.processes[pid].value.(exitcode := exitcode, state := PExiting));
            TidsLive(s, pid) && TidsLive(s1, pid) && Inv(Reap(s1, pid))
  {
    hide QueueOk, IdleOk, OwnersOk, OwnLists, WaitsOk, CurrentOk, Reap;
    assert ListOk(s, None, pid, s.processes[pid].value);
    MarkedExiting(s, pid, exitcode);
    ReapInv(SetProcess(s, pid, s.processes[pid].value.(exitcode := exitcode, state := PExiting)), pid);
  }

  lemma ExitInv(s: Sched, exitcode: int)
    requires Inv(s) && UserRunning(s)
    ensures TidsLive(s, s.currentPid) && Inv(Exit(s, exitcode))
  {
    NotIdleProcess(s);
    hide Inv, Reap, SetProcess;
    EndInv(s, s.currentPid, exitcode);
  }

  lemma KillInv(s: Sched, pid: int)
    requires Inv(s) && UserRunning(s)
    ensures 0 <= pid && ProcessAt(s, pid) ==> TidsLive(s, pid)
    ensures Inv(Kill(s, pid).1)
  {
    NotIdleProcess(s);
    hide Inv, Reap, SetProcess;
    if 0 <= pid < |s.processes| && s.processes[pid].Some? {
      if pid != s.currentPid && s.processes[pid].value.privilege >= s.processes[s.currentPid].value.privilege {
        EndInv(s, pid, s.currentPid + 255);
      } else {
        ListedAlive(s, pid);
      }
    }
  }

  lemma ListedAlive(s: Sched, pid: nat)
    requires Inv(s) && ProcessAt(s, pid)
    ensures TidsLive(s, pid)
  {
    assert ListOk(s, None, pid, s.processes[pid].value);
  }

  // ---------- scheduling: one turn of the loop ----------

  /** The thread a turn of the loop looks at: the entry just taken from the queue, or the idle thread. */
  ghost predicate Taken(s: Sched, t: int) {
    t == s.idle || (0 < s.loc <= |s.queue| && s.queue[s.loc - 1] == t)
  }

  /** None of the three panics in front of the switch can happen. */
  lemma NoPanicReachable(s: Sched, t: nat)
    requires Sound(s) && Taken(s, t)
    ensures NoPanic(s, t)
    ensures s.threads[t].value.state == Dead ==> 0 < s.loc <= |s.queue| && s.queue[s.loc - 1] == t && t != s.idle
  {
    assert t != s.idle ==> t in s.queue;
    assert OwnerOk(s, None, t, s.threads[t].value);
  }

  lemma IdleNotWaiting(s: Sched)
    requires Sound(s)
    ensures ThreadAt(s, s.idle) && s.threads[s.idle].value.state in {Running, Starting} && s.threads[s.idle].value.pid == 0
  {
  }

  /** What a waiter does to its own state and to the count of the process that has ended. */
  lemma CheckedSound(s: Sched, t: nat)
    requires Sound(s) && ThreadAt(s, t) && t != s.idle && s.threads[t].value.state == Waiting
    ensures Sound(CheckWaiting(s, t).1)
  {
    hide QueueOk, IdleOk, OwnersOk, OwnLists;
    var r := s.threads[t].value;
    if !ProcessAt(s, r.wait) {
      ThreadSound(s, t, r.(wait := 0, state := Running));
    } else if s.processes[r.wait].value.tids == [] {
      var p := s.processes[r.wait].value;
      ThreadSound(s, t, r.(wait := 0, state := Running));
      RecordSound(SetThread(s, t, r.(wait := 0, state := Running)), r.wait, p.(waitingThreads := p.waitingThreads - 1));
    }
  }

  /** The process waited for lists no thread any more, so it is not that of the idle thread. */
  lemma WaitOver(s: Sched, t: nat)
    requires Sound(s) && ThreadAt(s, t) && CheckWaiting(s, t).0.Some?
    ensures var pid, s1 := s.threads[t].value.wait, CheckWaiting(s, t).1;
            CheckWaiting(s, t).0 == Some(pid) && pid != 0 && ProcessAt(s1, pid) && s1.processes[pid].value.tids == [] && TidsLive(s1, pid)
  {
    assert OwnerOk(s, None, s.idle, s.threads[s.idle].value);
  }

  lemma ResumeSound(s: Sched, t: nat, pid: nat)
    requires Sound(s) && ThreadAt(s, t) && t != s.idle && s.threads[t].value.state == Running
    requires ProcessAt(s, pid) && TidsLive(s, pid) && pid != 0
    ensures Sound(Resume(s, t, pid))
  {
    var r := s.threads[t].value.(eax := s.processes[pid].value.exitcode);
    ThreadSound(s, t, r);
    var s0, s1 := SetThread(s, t, r), SetThread(Select(s, t), t, r);
    SelectionSound(s0, s1);
    assert SoundBut(s1, Some(pid)) by { ExceptionSound(s1, pid); }
    ReapSound(s1, pid);
  }

  lemma ExceptionSound(s: Sched, pid: nat)
    requires Sound(s)
    ensures SoundBut(s, Some(pid))
  {
    forall u | ThreadAt(s, u) ensures OwnerOk(s, Some(pid), u, s.threads[u].value) {
      assert OwnerOk(s, None, u, s.threads[u].value);
    }
  }

  /** A queue of distinct entries without its entry at position `k`. */
  lemma QueueWithout(q: seq<nat>, k: nat)
    requires k < |q| && forall i, j :: 0 <= i < j < |q| ==> q[i] != q[j]
    ensures var q' := q[..k] + q[k + 1..];
            && (forall i, j :: 0 <= i < j < |q'| ==> q'[i] != q'[j])
            && (forall u :: u in q' <==> u in q && u != q[k])
  {
    var q' := q[..k] + q[k + 1..];
    assert forall i :: 0 <= i < |q'| ==> q'[i] == q[if i < k then i else i + 1];
    forall u | u in q && u != q[k] ensures u in q' {
      var i :| 0 <= i < |q| && q[i] == u;
      assert q'[if i < k then i else i - 1] == u;
    }
  }

  lemma BuryQueue(s: Sched, t: nat)
    requires QueueOk(s) && IdleOk(s) && ThreadAt(s, t) && t != s.idle && 0 < s.loc <= |s.queue| && s.queue[s.loc - 1] == t
    ensures QueueOk(Bury(s, t)) && IdleOk(Bury(s, t))
    ensures forall u :: u in Bury(s, t).queue <==> u in s.queue && u != t
  {
    QueueWithout(s.queue, s.loc - 1);
    assert forall u :: ThreadAt(Bury(s, t), u) <==> ThreadAt(s, u) && u != t;
  }

  lemma BurySound(s: Sched, t: nat)
    requires Sound(s) && ThreadAt(s, t) && t != s.idle && 0 < s.loc <= |s.queue| && s.queue[s.loc - 1] == t
    requires s.threads[t].value.state == Dead && s.current == None
    ensures Sound(Bury(s, t))
  {
    var s' := Bury(s, t);
    BuryQueue(s, t);
    assert s'.threads == s.threads[t := None];
    assert forall u :: ThreadAt(s', u) <==> ThreadAt(s, u) && u != t;
    assert forall p :: ProcessAt(s', p) == ProcessAt(s, p);
    forall u | ThreadAt(s', u) ensures OwnerOk(s', None, u, s'.threads[u].value) {
      assert OwnerOk(s, None, u, s.threads[u].value);
    }
    forall p | ProcessAt(s', p) ensures OwnList(s', p, s'.processes[p].value) {
      assert OwnList(s, p, s.processes[p].value);
    }
  }

  lemma StartSound(s: Sched, t: nat, env: Env)
    requires Sound(s) && ThreadAt(s, t) && s.threads[t].value.state == Starting && ProcessAt(s, s.threads[t].value.pid)
    requires t == s.idle ==> s.threads[t].value.privilege == 0
    ensures Sound(Start(s, t, env))
  {
    hide QueueOk, IdleOk, OwnersOk, OwnLists;
    var r := s.threads[t].value;
    ThreadSound(s, t, r.(state := Running));
    if r.privilege != 0 && s.processes[r.pid].value.state == PStarting {
      var loaded := r.pid in env.loadable;
      var s1 := if loaded then SetThread(s, t, r.(state := Running)) else s;
      RecordSound(s1, r.pid, s.processes[r.pid].value.(state := if loaded then PRunning else PLoading));
    }
  }

  /** One turn of the loop keeps what scheduling needs, whatever states the threads are in. */
  lemma VisitSound(s: Sched, t: nat, env: Env)
    requires Sound(s) && Taken(s, t) && s.current == None
    ensures NoPanic(s, t) && (s.threads[t].value.state == Dead ==> 0 < s.loc <= |s.queue|)
    ensures Sound(Visit(s, t, env))
  {
    NoPanicReachable(s, t);
    IdlePlain(s);
    hide QueueOk, IdleOk, OwnersOk, OwnLists;
    var r := s.threads[t].value;
    match r.state
    case Running => SelectionSound(s, Select(s, t));
    case Suspended =>
    case Waiting =>
      if r.waitMsg.Some? {
        ThreadSound(s, t, r.(waitMsg := None, state := Running));
      } else {
        CheckedSound(s, t);
        if CheckWaiting(s, t).0.Some? {
          WaitOver(s, t);
          ResumeSound(CheckWaiting(s, t).1, t, r.wait);
        }
      }
    case Starting => StartSound(s, t, env);
    case Exiting => ThreadSound(s, t, r.(state := Dead));
    case Dead => BurySound(s, t);
  }

  lemma IdlePlain(s: Sched)
    requires Sound(s)
    ensures ThreadAt(s, s.idle) && s.threads[s.idle].value.state in {Running, Starting} && s.threads[s.idle].value.privilege == 0
    ensures s.loc <= |s.queue|
  {
  }

  // ---------- one turn, with the lifetime of processes ----------

  lemma ResumedWaits(s: Sched, t: nat)
    requires Inv(s) && ThreadAt(s, t) && s.threads[t].value.state == Waiting && s.threads[t].value.waitMsg == None
    requires CheckWaiting(s, t).0.Some? && t != s.idle && s.current == None
    ensures var pid, s1 := s.threads[t].value.wait, CheckWaiting(s, t).1;
            && Inv(s1) && ProcessAt(s1, pid) && s1.processes[pid].value.state == PExiting && pid != 0
  {
    var pid, s1 := s.threads[t].value.wait, CheckWaiting(s, t).1;
    CheckedSound(s, t);
    WaitOver(s, t);
    hide QueueOk, IdleOk, OwnersOk, OwnLists;
    assert ListOk(s, None, pid, s.processes[pid].value);
    assert s1.threads == s.threads[t := Some(s.threads[t].value.(wait := 0, state := Running))];
    assert forall u :: ThreadAt(s1, u) == ThreadAt(s, u);
    assert forall p :: ProcessAt(s1, p) == ProcessAt(s, p);
    forall u | ThreadAt(s1, u) ensures WaitOk(s1, s1.threads[u].value) {
      assert WaitOk(s, s.threads[u].value);
    }
    forall p | ProcessAt(s1, p) ensures ListOk(s1, None, p, s1.processes[p].value) {
      assert ListOk(s, None, p, s.processes[p].value);
    }
    forall p | 0 < p && ProcessAt(s1, p) ensures s1.processes[p].value.waitingThreads == |Waiters(s1.threads, p)| {
      WaitersAfterSet(s.threads, t, s1.threads[t], p);
    }
  }

  /** A waiter whose process has ended is resumed with that process's exit code. */
  lemma ResumeInv(s: Sched, t: nat, pid: nat)
    requires Inv(s) && ThreadAt(s, t) && t != s.idle && s.threads[t].value.state == Running
    requires ProcessAt(s, pid) && s.processes[pid].value.state == PExiting && pid != 0
    ensures TidsLive(s, pid) && Inv(Resume(s, t, pid))
  {
    assert ListOk(s, None, pid, s.processes[pid].value);
    assert WaitOk(s, s.threads[t].value);
    var r := s.threads[t].value.(eax := s.processes[pid].value.exitcode);
    ThreadChanged(s, t, r);
    var s0, s1 := SetThread(s, t, r), SetThread(Select(s, t), t, r);
    hide QueueOk, OwnersOk, OwnLists, ListsOk, WaitsOk;
    OtherCurrent(s0, s1);
    ExceptionUnused(s1, pid);
    ReapInv(s1, pid);
  }

  lemma OtherCurrent(s: Sched, s': Sched)
    requires Inv(s) && s' == s.(current := s'.current, currentPid := s'.currentPid, loc := s'.loc)
    requires CurrentOk(s') && s'.loc <= |s.queue|
    ensures Inv(s')
  {
    SelectionSound(s, s');
    hide QueueOk, IdleOk, OwnersOk, OwnLists, CurrentOk;
    forall u | ThreadAt(s', u) ensures WaitOk(s', s'.threads[u].value) {
      assert ThreadAt(s, u) && WaitOk(s, s.threads[u].value);
    }
    forall p | ProcessAt(s', p) ensures ListOk(s', None, p, s'.processes[p].value) {
      assert ListOk(s, None, p, s.processes[p].value);
    }
    forall p | 0 < p && ProcessAt(s', p) ensures s'.processes[p].value.waitingThreads == |Waiters(s'.threads, p)| {
      assert ProcessAt(s, p);
    }
  }

  lemma NoneSelectedInv(s: Sched)
    requires Inv(s)
    ensures Inv(s.(current := None))
  {
    OtherCurrent(s, s.(current := None));
  }

  lemma ExceptionUnused(s: Sched, pid: nat)
    requires Inv(s)
    ensures InvBut(s, Some(pid))
  {
    ExceptionSound(s, pid);
    hide QueueOk, IdleOk, OwnersOk, OwnLists;
    forall p | ProcessAt(s, p) ensures ListOk(s, Some(pid), p, s.processes[p].value) {
      assert ListOk(s, None, p, s.processes[p].value);
    }
  }

  lemma BuryInv(s: Sched, t: nat)
    requires Inv(s) && ThreadAt(s, t) && t != s.idle && 0 < s.loc <= |s.queue| && s.queue[s.loc - 1] == t
    requires s.threads[t].value.state == Dead && s.current == None
    ensures Inv(Bury(s, t))
  {
    BurySound(s, t);
    hide QueueOk, IdleOk, OwnersOk, OwnLists;
    var s', w := Bury(s, t), s.threads[t].value.wait;
    assert s'.threads == s.threads[t := None];
    assert WaitOk(s, s.threads[t].value);
    assert forall u :: ThreadAt(s', u) <==> ThreadAt(s, u) && u != t;
    assert forall p :: ProcessAt(s', p) == ProcessAt(s, p);
    forall u | ThreadAt(s', u) ensures WaitOk(s', s'.threads[u].value) {
      assert WaitOk(s, s.threads[u].value);
    }
    forall p | ProcessAt(s', p) ensures ListOk(s', None, p, s'.processes[p].value) {
      assert ListOk(s, None, p, s.processes[p].value);
    }
    forall p | 0 < p && ProcessAt(s', p) ensures s'.processes[p].value.waitingThreads == |Waiters(s'.threads, p)| {
      WaitersAfterSet(s.threads, t, None, p);
    }
  }

  lemma StartInv(s: Sched, t: nat, env: Env)
    requires Inv(s) && ThreadAt(s, t) && s.threads[t].value.state == Starting && ProcessAt(s, s.threads[t].value.pid)
    requires s.processes[s.threads[t].value.pid].value.state != PExiting
    ensures Inv(Start(s, t, env))
  {
    var r := s.threads[t].value;
    assert WaitOk(s, r);
    ThreadChanged(s, t, r.(state := Running));
    if r.privilege != 0 && s.processes[r.pid].value.state == PStarting {
      var loaded := r.pid in env.loadable;
      LoadedProcess(if loaded then SetThread(s, t, r.(state := Running)) else s, r.pid, if loaded then PRunning else PLoading);
    }
  }

  lemma LoadedProcess(s: Sched, p: nat, state: ProcessState)
    requires Inv(s) && ProcessAt(s, p) && s.processes[p].value.state != PExiting && state != PExiting
    ensures Inv(SetProcess(s, p, s.processes[p].value.(state := state)))
  {
    RecordSound(s, p, s.processes[p].value.(state := state));
    hide QueueOk, IdleOk, OwnersOk, OwnLists;
    var s' := SetProcess(s, p, s.processes[p].value.(state := state));
    assert forall q :: ProcessAt(s', q) == ProcessAt(s, q);
    forall u | ThreadAt(s', u) ensures WaitOk(s', s'.threads[u].value) {
      assert WaitOk(s, s.threads[u].value);
    }
    forall q | ProcessAt(s', q) ensures ListOk(s', None, q, s'.processes[q].value) {
      assert ListOk(s, None, q, s.processes[q].value);
    }
  }

  /** One turn of the loop keeps the whole invariant. */
  lemma VisitInv(s: Sched, t: nat, env: Env)
    requires Inv(s) && Taken(s, t) && s.current == None
    ensures NoPanic(s, t) && (s.threads[t].value.state == Dead ==> 0 < s.loc <= |s.queue|)
    ensures Inv(Visit(s, t, env))
  {
    NoPanicReachable(s, t);
    var r := s.threads[t].value;
    assert OwnerOk(s, None, t, r) && WaitOk(s, r);
    match r.state
    case Running => OtherCurrent(s, Select(s, t));
    case Waiting =>
      if r.waitMsg.Some? {
        ThreadChanged(s, t, r.(waitMsg := None, state := Running));
      } else if CheckWaiting(s, t).0.Some? {
        ResumedWaits(s, t);
        var s1 := CheckWaiting(s, t).1;
        ResumeInv(s1, t, r.wait);
      } else {
        assert ProcessAt(s, r.wait); // so no waiter ever finds its process gone
      }
    case Starting => StartInv(s, t, env);
    case Dead => BuryInv(s, t);
  }
}
