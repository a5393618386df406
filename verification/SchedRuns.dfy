/** Whole runs of the scheduler: process records, waiters and exit codes; and where its scope ends. */
module SchedRuns {
  import opened Wrappers
  import opened SchedState
  import opened SchedProofs
  import opened SchedPick
  import opened ThreadTable

  // ---------- how a process ends ----------

  /**
   Process `pid` has ended with `code`: exactly its threads are dead, its record is kept exactly if a thread
   waits for it, and no other process or thread is touched.
   */
  ghost predicate Ended(s: Sched, s': Sched, pid: nat, code: int)
    requires ProcessAt(s, pid)
  {
    && s' == s.(threads := s'.threads, processes := s'.processes)
    && |s'.threads| == |s.threads| && |s'.processes| == |s.processes|
    && (forall t :: ThreadAt(s', t) == ThreadAt(s, t))
    && (forall t :: ThreadAt(s, t) ==>
          s'.threads[t].value == if s.threads[t].value.pid == pid then s.threads[t].value.(state := Dead) else s.threads[t].value)
    && (forall p :: 0 <= p < |s.processes| && p != pid ==> s'.processes[p] == s.processes[p])
    && (ProcessAt(s', pid) <==> 0 < |Waiters(s.threads, pid)|)
    && (ProcessAt(s', pid) ==> s'.processes[pid].value == s.processes[pid].value.(tids := [], exitcode := code, state := PExiting))
  }

  lemma EndedProcess(s: Sched, pid: nat, code: int)
    requires Inv(s) && 0 < pid && ProcessAt(s, pid)
    ensures var s1 := SetProcess(s, pid, s.processes[pid].value.(exitcode := code, state := PExiting));
            TidsLive(s1, pid) && Ended(s, Reap(s1, pid), pid, code)
  {
    var s1 := SetProcess(s, pid, s.processes[pid].value.(exitcode := code, state := PExiting));
    ListedAlive(s, pid);
    EndSound(s, pid, code);
    forall t | ThreadAt(s, t)
      ensures s.threads[t].value.pid == pid <==> t in s.processes[pid].value.tids || (s.threads[t].value.pid == pid && s.threads[t].value.state == Dead)
    {
      assert OwnerOk(s, None, t, s.threads[t].value) && ListOk(s, None, pid, s.processes[pid].value);
    }
  }

  /** exit() by the running thread of a user process. */
  lemma ExitEnds(s: Sched, code: int)
    requires Inv(s) && UserRunning(s)
    ensures TidsLive(s, s.currentPid) && Ended(s, Exit(s, code), s.currentPid, code)
  {
    ExitInv(s, code);
    NotIdleProcess(s);
    EndedProcess(s, s.currentPid, code);
  }

  /** Another process with a record, of no higher privilege. Its threads may all be dead already. */
  predicate CanKill(s: Sched, pid: int)
    requires ProcessAt(s, s.currentPid)
  {
    ProcessAt(s, pid) && pid != s.currentPid && s.processes[s.currentPid].value.privilege <= s.processes[pid].value.privilege
  }

  /** kill() succeeds exactly for such a process, and ends it; else nothing changes. */
  lemma KillEnds(s: Sched, pid: int)
    requires Inv(s) && UserRunning(s)
    ensures 0 <= pid && ProcessAt(s, pid) ==> TidsLive(s, pid)
    ensures var (r, s') := Kill(s, pid);
            && (r == 0 <==> CanKill(s, pid))
            && (r != 0 ==> s' == s)
            && (r == 0 ==> Ended(s, s', pid, s.currentPid + 255))
  {
    KillInv(s, pid);
    NotIdleProcess(s);
    if Kill(s, pid).0 == 0 {
      EndedProcess(s, pid, s.currentPid + 255);
    }
  }

  /** A process that has ended and is kept for a waiter can be killed once more; the waiter's exit code is replaced. */
  lemma KillOfEnded(s: Sched, p: nat, t: nat)
    requires Inv(s) && UserRunning(s) && CanKill(s, p)
    requires s.processes[p].value.state == PExiting && Awaits(s, t, p)
    ensures TidsLive(s, p)
    ensures var (r, s') := Kill(s, p);
            r == 0 && Awaits(s', t, p) && ProcessAt(s', p) && s'.processes[p].value.exitcode == s.currentPid + 255
  {
    KillEnds(s, p);
    assert t in Waiters(s.threads, p);
    assert OwnerOk(s, None, t, s.threads[t].value);
  }

  // ---------- exit codes ----------

  /** Processes may disappear in a turn, but none changes its exit code or comes to an end. */
  ghost predicate ExitsKept(s: Sched, s': Sched) {
    && |s'.processes| == |s.processes|
    && forall p :: ProcessAt(s', p) ==> ExitKept(s, s', p)
  }

  ghost predicate ExitKept(s: Sched, s': Sched, p: int)
    requires ProcessAt(s', p)
  {
    && ProcessAt(s, p)
    && s'.processes[p].value.exitcode == s.processes[p].value.exitcode
    && (s'.processes[p].value.state == PExiting <==> s.processes[p].value.state == PExiting)
  }

  lemma VisitKeepsExits(s: Sched, t: nat, env: Env)
    requires Sound(s) && Taken(s, t) && s.current == None
    ensures NoPanic(s, t) && (s.threads[t].value.state == Dead ==> 0 < s.loc <= |s.queue|)
    ensures ExitsKept(s, Visit(s, t, env))
  {
    NoPanicReachable(s, t);
    hide QueueOk, IdleOk, OwnersOk, OwnLists;
    var r := s.threads[t].value;
    if r.state == Waiting && r.waitMsg == None && CheckWaiting(s, t).0.Some? {
      assert t != s.idle by { IdleNotWaiting(s); }
      ResumeShape(s, t);
    }
  }

  /** Thread `t` is blocked until process `p` ends. */
  ghost predicate Awaits(s: Sched, t: nat, p: nat) {
    ThreadAt(s, t) && s.threads[t].value.state == Waiting && s.threads[t].value.waitMsg == None && s.threads[t].value.wait == p && 0 < p
  }

  lemma VisitAwaiting(s: Sched, t: nat, p: nat, env: Env)
    requires Inv(s) && Taken(s, t) && s.current == None && Awaits(s, t, p)
    ensures NoPanic(s, t)
    ensures ProcessAt(s, p)
    ensures var s' := Visit(s, t, env);
            if s'.current == None then Awaits(s', t, p)
            else s.processes[p].value.state == PExiting && ThreadAt(s', t) && s'.threads[t].value.eax == s.processes[p].value.exitcode
  {
    NoPanicReachable(s, t);
    assert WaitOk(s, s.threads[t].value) && ListOk(s, None, p, s.processes[p].value);
    if CheckWaiting(s, t).0.Some? {
      assert t != s.idle by { IdleNotWaiting(s); }
      ResumeShape(s, t);
    }
  }

  /** A thread that a pick wakes from wait(p) resumes with the exit code of p, and p has ended. */
  lemma {:induction false} PickFromExitCode(s: Sched, loop: bool, env: Env, t: nat, p: nat)
    requires Inv(s) && s.current == None && Awaits(s, t, p)
    ensures ProcessAt(s, p)
    ensures var s' := PickFrom(s, loop, env);
            s'.current == Some(t) ==>
              ThreadAt(s', t) && s.processes[p].value.state == PExiting && s'.threads[t].value.eax == s.processes[p].value.exitcode
    decreases !loop, |s.queue| - s.loc, s.threads[s.idle].value.state == Starting
  {
    hide OwnersOk, OwnLists, ListsOk, Visit, NoPanic, QueueOk, IdleOk;
    assert ProcessAt(s, p) by { assert WaitOk(s, s.threads[t].value); }
    NextEntryInv(s, loop);
    var (s1, u, loop') := NextEntry(s, loop);
    VisitShape(s1, u, env);
    VisitInv(s1, u, env);
    VisitKeepsExits(s1, u, env);
    var s2 := Visit(s1, u, env);
    if u == t { VisitAwaiting(s1, t, p, env); }
    if s2.current == None {
      PickFromExitCode(s2, loop', env, t, p);
    }
  }

  lemma ResumedWithExitCode(s: Sched, env: Env, t: nat, p: nat)
    requires Inv(s) && Awaits(s, t, p)
    ensures ProcessAt(s, p)
    ensures var s' := Pick(s, env);
            s'.current == Some(t) ==>
              ThreadAt(s', t) && s.processes[p].value.state == PExiting && s'.threads[t].value.eax == s.processes[p].value.exitcode
  {
    NoneSelectedInv(s);
    PickFromExitCode(s.(current := None), false, env, t, p);
  }

  /** So a pick as a whole ends no process and changes no exit code. */
  lemma {:induction false} PickFromKeepsExits(s: Sched, loop: bool, env: Env)
    requires Sound(s) && s.current == None
    ensures ExitsKept(s, PickFrom(s, loop, env))
    decreases !loop, |s.queue| - s.loc, s.threads[s.idle].value.state == Starting
  {
    hide OwnersOk, OwnLists, Visit, NoPanic, QueueOk, IdleOk;
    NextEntrySound(s, loop);
    var (s1, u, loop') := NextEntry(s, loop);
    VisitShape(s1, u, env);
    VisitSound(s1, u, env);
    VisitKeepsExits(s1, u, env);
    var s2 := Visit(s1, u, env);
    if s2.current == None {
      PickFromKeepsExits(s2, loop', env);
      ExitsKeptTwice(s1, s2, PickFrom(s2, loop', env));
    }
  }

  lemma ExitsKeptTwice(s0: Sched, s1: Sched, s2: Sched)
    requires ExitsKept(s0, s1) && ExitsKept(s1, s2)
    ensures ExitsKept(s0, s2)
  {
    forall p | ProcessAt(s2, p) ensures ExitKept(s0, s2, p) {
      assert ExitKept(s1, s2, p) && ExitKept(s0, s1, p);
    }
  }

  // ---------- runs ----------

  datatype Event =
    | Spawned(privilege: nat)
    | Forked
    | Waited(pid: int)
    | WaitedMessage(q: nat)
    | Deleted(q: nat)
    | Exited(exitcode: int)
    | Killed(pid: int)
    | Picked(env: Env)
    | Blocked(irq: nat)
    | Interrupted(irq: nat)
    | ThreadExited

  /** A new thread has a slot in the thread table, and its place in the queue; the process table has room for `n`. */
  predicate RoomFor(s: Sched, size: Capacity, n: nat) {
    && |s.threads| < MAX_THREADS && HasSlot(size, |s.threads|, TableSize(n))
    && |s.queue| + 1 < TableSize(n)
  }

  /** The tables, with `size` for the threads, are large enough for what the event creates; who ends can be reaped. */
  ghost predicate Fits(s: Sched, size: Capacity, e: Event) {
    match e
    case Spawned(_) => |s.processes| < MAX_PROCESSES && RoomFor(s, size, |s.processes| + 1)
    case Forked => UserRunning(s) && |s.threads| < MAX_THREADS ==>
                     RoomFor(s, size, |s.processes|) && |s.processes[s.currentPid].value.tids| < DEFAULT_TIDS
    case Exited(_) => UserRunning(s) ==> TidsLive(s, s.currentPid)
    case Killed(pid) => UserRunning(s) && CanKill(s, pid) ==> TidsLive(s, pid)
    case _ => true
  }

  /** The scope in numbers: only what creates a thread needs room, and only what ends a process its threads. */
  lemma ScopeMeans(s: Sched, size: Capacity, e: Event)
    ensures e.Spawned? ==>
              (Fits(s, size, e) <==> |s.processes| < 65536 && |s.threads| < 131072 && |s.queue| + 1 < TableSize(|s.processes| + 1)
                                     && HasSlot(size, |s.threads|, TableSize(|s.processes| + 1)))
    ensures e.Forked? && UserRunning(s) && |s.threads| < 131072 ==>
              (Fits(s, size, e) <==> |s.processes[s.currentPid].value.tids| < 128 && |s.queue| + 1 < TableSize(|s.processes|)
                                     && HasSlot(size, |s.threads|, TableSize(|s.processes|)))
    ensures e.Forked? && !(UserRunning(s) && |s.threads| < 131072) ==> Fits(s, size, e)
    ensures e.Exited? && UserRunning(s) ==> (Fits(s, size, e) <==> forall t :: t in s.processes[s.currentPid].value.tids ==> ThreadAt(s, t))
    ensures e.Exited? && !UserRunning(s) ==> Fits(s, size, e)
    ensures e.Killed? && Inv(s) ==> Fits(s, size, e)
    ensures e.Exited? && Inv(s) ==> Fits(s, size, e)
    ensures e.Waited? || e.WaitedMessage? || e.Deleted? || e.Picked? || e.Blocked? || e.Interrupted? || e.ThreadExited? ==> Fits(s, size, e)
    ensures Lifetime(e) <==> !e.Blocked? && !e.ThreadExited?
  {
    if Inv(s) && e.Killed? && UserRunning(s) && CanKill(s, e.pid) { ListedAlive(s, e.pid); }
    if Inv(s) && e.Exited? && UserRunning(s) { ListedAlive(s, s.currentPid); }
  }

  /** The thread table after the event. */
  ghost function NextSize(s: Sched, size: Capacity, e: Event): Capacity {
    match e
    case Spawned(_) => Enlarged(size, |s.threads|, TableSize(|s.processes| + 1))
    case Forked => if UserRunning(s) && |s.threads| < MAX_THREADS then Enlarged(size, |s.threads|, TableSize(|s.processes|)) else size
    case _ => size
  }

  /**
   wait() and the calls for message queues are made by the kernel's own thread as well, the other system calls by
   threads of user processes; without such a thread running they are not events. fork() fails once all thread ids
   are taken.
   */
  ghost function Step(s: Sched, size: Capacity, e: Event): Sched
    requires Sound(s) && Fits(s, size, e)
  {
    match e
    case Spawned(privilege) => Spawn(s, privilege)
    case Picked(env) => Pick(s, env)
    case Forked => if UserRunning(s) && |s.threads| < MAX_THREADS then CreateThread(s, s.currentPid, false) else s
    case Waited(pid) => if CallerRunning(s) then Wait(s, pid).1 else s
    case WaitedMessage(q) => if CallerRunning(s) then WaitMessage(s, q) else s
    case Deleted(q) => if CallerRunning(s) then WakeWaiting(s, q) else s
    case Exited(exitcode) => if UserRunning(s) then Exit(s, exitcode) else s
    case Killed(pid) => if UserRunning(s) && CanKill(s, pid) then Kill(s, pid).1 else s
    case Blocked(irq) => if CallerRunning(s) then Suspend(s, irq, s.current.value) else s
    case Interrupted(irq) => Interrupt(s, irq)
    case ThreadExited => if CallerRunning(s) then ExitThread(s, s.current.value) else s
  }

  /** Every event keeps what scheduling needs. */
  lemma StepSound(s: Sched, size: Capacity, e: Event)
    requires Sound(s) && Fits(s, size, e)
    ensures Sound(Step(s, size, e))
  {
    if UserRunning(s) { RunningNotExiting(s); }
    hide Sound, Spawn, CreateThread, Wait, WaitMessage, WakeWaiting, Exit, Kill, Suspend, Interrupt, ExitThread;
    match e
    case Spawned(privilege) => SpawnSound(s, privilege);
    case Picked(env) =>
      NoneSelected(s);
      PickFromSafe(s.(current := None), false, env);
    case Forked => if UserRunning(s) && |s.threads| < MAX_THREADS { ForkSound(s, s.currentPid); }
    case Waited(pid) => if CallerRunning(s) { WaitSound(s, pid); }
    case WaitedMessage(q) => if CallerRunning(s) { WaitMessageSound(s, q); }
    case Deleted(q) => if CallerRunning(s) { WakeSound(s, q); }
    case Exited(exitcode) => if UserRunning(s) { ExitSound(s, exitcode); }
    case Killed(pid) => if UserRunning(s) && CanKill(s, pid) { KillSound(s, pid); }
    case Blocked(irq) => if CallerRunning(s) { SuspendSound(s, irq); }
    case Interrupted(irq) => InterruptSound(s, irq);
    case ThreadExited => if CallerRunning(s) { ThreadExitSound(s); }
  }

  /** Events without suspension and without the end of a single thread: the scope of the results on waiters. */
  predicate Lifetime(e: Event) { !e.Blocked? && !e.ThreadExited? }

  lemma StepInv(s: Sched, size: Capacity, e: Event)
    requires Inv(s) && Fits(s, size, e) && Lifetime(e)
    ensures Inv(Step(s, size, e))
  {
    if UserRunning(s) { RunningNotExiting(s); }
    if e.Interrupted? { NothingSuspended(s, e.irq); }
    hide Sound, ListsOk, WaitsOk, Spawn, CreateThread, Wait, WaitMessage, WakeWaiting, Exit, Kill, Interrupt;
    match e
    case Spawned(privilege) => SpawnInv(s, privilege);
    case Picked(env) => PickInv(s, env);
    case Forked => if UserRunning(s) && |s.threads| < MAX_THREADS { ForkInv(s, s.currentPid); }
    case Waited(pid) => if CallerRunning(s) { WaitInv(s, pid); }
    case WaitedMessage(q) => if CallerRunning(s) { WaitMessageInv(s, q); }
    case Deleted(q) => WakeInv(s, q);
    case Exited(exitcode) => if UserRunning(s) { ExitInv(s, exitcode); }
    case Killed(pid) => if UserRunning(s) && CanKill(s, pid) { KillInv(s, pid); }
    case Interrupted(irq) =>
  }

  lemma NothingSuspended(s: Sched, irq: nat)
    requires Inv(s)
    ensures Interrupt(s, irq) == s
  {
    forall t | 0 <= t < |s.threads| ensures Resumed(s.threads[t], irq) == s.threads[t] {
      if ThreadAt(s, t) { assert WaitOk(s, s.threads[t].value); }
    }
    assert Interrupt(s, irq).threads == s.threads;
  }

  lemma {:induction false} PickFromInv(s: Sched, loop: bool, env: Env)
    requires Inv(s) && s.current == None
    ensures Inv(PickFrom(s, loop, env))
    decreases !loop, |s.queue| - s.loc, s.threads[s.idle].value.state == Starting
  {
    hide QueueOk, OwnersOk, OwnLists, ListsOk, WaitsOk, Visit, NoPanic;
    NextEntryInv(s, loop);
    var (s1, t, loop') := NextEntry(s, loop);
    VisitShape(s1, t, env);
    VisitInv(s1, t, env);
    var s2 := Visit(s1, t, env);
    if s2.current == None {
      PickFromInv(s2, loop', env);
    }
  }

  lemma PickInv(s: Sched, env: Env)
    requires Inv(s)
    ensures Inv(Pick(s, env))
  {
    NoneSelectedInv(s);
    PickFromInv(s.(current := None), false, env);
  }

  lemma RunningNotExiting(s: Sched)
    requires Sound(s) && UserRunning(s)
    ensures s.processes[s.currentPid].value.state != PExiting
  {
    assert OwnerOk(s, None, s.current.value, s.threads[s.current.value].value);
  }

  lemma InitIsCreated()
    ensures CreateThread(CreateProcess(Sched([], [], [], 0, None, 0, 0), 0), 0, true) == Init()
    ensures Inv(Init())
  {
    var made := CreateThread(CreateProcess(Sched([], [], [], 0, None, 0, 0), 0), 0, true);
    assert made.processes[0].value.tids == [0];
    assert made.processes == Init().processes && made.threads == Init().threads;
    assert Waiters(Init().threads, 0) == {0};
  }

  /** Throughout the run the tables are large enough, and processes end only with all threads they list still there. */
  ghost predicate InScope(s: Sched, size: Capacity, events: seq<Event>)
    requires Sound(s)
    decreases |events|
  {
    events == [] ||
    (Fits(s, size, events[0]) &&
     (StepSound(s, size, events[0]);
      InScope(Step(s, size, events[0]), NextSize(s, size, events[0]), events[1..])))
  }

  ghost function Run(s: Sched, size: Capacity, events: seq<Event>): (r: Sched)
    requires Sound(s) && InScope(s, size, events)
    ensures Sound(r)
    decreases |events|
  {
    if events == [] then s else
    StepSound(s, size, events[0]);
    Run(Step(s, size, events[0]), NextSize(s, size, events[0]), events[1..])
  }

  lemma {:induction false} RunInv(s: Sched, size: Capacity, events: seq<Event>)
    requires Inv(s) && InScope(s, size, events) && forall e :: e in events ==> Lifetime(e)
    ensures Inv(Run(s, size, events))
    decreases |events|
  {
    hide SoundBut, ListsOk, WaitsOk, Step, Fits;
    if events != [] {
      assert events[0] in events;
      StepInv(s, size, events[0]);
      RunInv(Step(s, size, events[0]), NextSize(s, size, events[0]), events[1..]);
    }
  }

  /**
   After any run without suspensions and thread ends: a process that some thread waits for still has its record,
   and that record counts exactly the threads, dead ones included, that wait for it.
   */
  lemma WaitersAreCounted(events: seq<Event>, p: nat)
    requires 0 < p && forall e :: e in events ==> Lifetime(e)
    ensures Inv(Init())
    ensures InScope(Init(), FirstCapacity(), events) ==>
              var s := Run(Init(), FirstCapacity(), events);
              && (Waiters(s.threads, p) != {} ==> ProcessAt(s, p))
              && (ProcessAt(s, p) ==> s.processes[p].value.waitingThreads == |Waiters(s.threads, p)|)
  {
    InitIsCreated();
    if InScope(Init(), FirstCapacity(), events) {
      RunInv(Init(), FirstCapacity(), events);
      var s := Run(Init(), FirstCapacity(), events);
      if t :| t in Waiters(s.threads, p) {
        assert ThreadAt(s, t) && WaitOk(s, s.threads[t].value);
      }
    }
  }

  /**
   After any run, suspensions and thread ends included, every queued thread belongs to a live process unless it is
   dead, so no scheduling panic can occur.
   */
  lemma QueueNeverPanics(events: seq<Event>, t: nat)
    ensures Sound(Init())
    ensures InScope(Init(), FirstCapacity(), events) ==>
              var s := Run(Init(), FirstCapacity(), events);
              t in s.queue || t == s.idle ==> NoPanic(s, t)
  {
    InitIsCreated();
    if InScope(Init(), FirstCapacity(), events) {
      var s := Run(Init(), FirstCapacity(), events);
      if t in s.queue || t == s.idle {
        assert OwnerOk(s, None, t, s.threads[t].value);
      }
    }
  }

  // ---------- the thread table over runs ----------

  /** Does the event create a thread, and how many processes are there then? */
  ghost function Creates(s: Sched, e: Event): Option<nat> {
    match e
    case Spawned(_) => Some(|s.processes| + 1)
    case Forked => if UserRunning(s) && |s.threads| < MAX_THREADS then Some(|s.processes|) else None
    case _ => None
  }

  /** The number of processes at the creation of each thread of a run, in order. */
  ghost function ThreadsMade(s: Sched, size: Capacity, events: seq<Event>): seq<nat>
    requires Sound(s) && InScope(s, size, events)
    decreases |events|
  {
    if events == [] then [] else
    StepSound(s, size, events[0]);
    (if Creates(s, events[0]).Some? then [Creates(s, events[0]).value] else [])
    + ThreadsMade(Step(s, size, events[0]), NextSize(s, size, events[0]), events[1..])
  }

  /** The capacity after a run. */
  ghost function SizeAfter(s: Sched, size: Capacity, events: seq<Event>): Capacity
    requires Sound(s) && InScope(s, size, events)
    decreases |events|
  {
    if events == [] then size else
    StepSound(s, size, events[0]);
    SizeAfter(Step(s, size, events[0]), NextSize(s, size, events[0]), events[1..])
  }

  /** `ns` is how the threads of state `s`, and the table that holds them, came into being. */
  ghost predicate History(ns: seq<nat>, s: Sched, size: Capacity) {
    && Creations(ns) && AllStored(ns) && CapacityAfter(ns) == size
    && |ns| == |s.threads| && ns != [] && ns[|ns| - 1] == |s.processes|
  }

  lemma StepCounts(s: Sched, size: Capacity, e: Event)
    requires Sound(s) && Fits(s, size, e)
    ensures var s', n := Step(s, size, e), Creates(s, e);
            && |s'.threads| == |s.threads| + (if n.Some? then 1 else 0)
            && |s'.processes| == (if n.Some? then n.value else |s.processes|)
            && (n.Some? ==> |s.processes| <= n.value <= |s.processes| + 1)
    ensures match Creates(s, e)
            case None => NextSize(s, size, e) == size
            case Some(n) => HasSlot(size, |s.threads|, TableSize(n)) && NextSize(s, size, e) == Enlarged(size, |s.threads|, TableSize(n))
  {
    hide Sound, HasSlot, Enlarged, TableSize, MarkDead;
    match e
    case Picked(env) =>
      NoneSelected(s);
      PickFromSafe(s.(current := None), false, env);
      PickFromKeepsExits(s.(current := None), false, env);
    case _ =>
  }

  lemma MoreHistory(ns: seq<nat>, s: Sched, size: Capacity, n: nat)
    requires History(ns, s, size) && |s.processes| <= n <= |s.processes| + 1
    ensures Creations(ns + [n])
    ensures (ns + [n])[..|ns|] == ns
    ensures AllStored(ns + [n]) <==> HasSlot(size, |s.threads|, TableSize(n))
    ensures CapacityAfter(ns + [n]) == Enlarged(size, |s.threads|, TableSize(n))
  {
    hide HasSlot, Enlarged, TableSize;
    assert (ns + [n])[..|ns|] == ns;
    forall t, u | 0 <= t <= u < |ns| + 1 ensures (ns + [n])[t] <= (ns + [n])[u] <= (ns + [n])[t] + (u - t) {
      if t < u && u == |ns| { assert ns[t] <= ns[|ns| - 1] <= ns[t] + (|ns| - 1 - t); }
    }
  }

  lemma {:induction false} RunHistory(s: Sched, size: Capacity, events: seq<Event>, ns: seq<nat>)
    requires Sound(s) && InScope(s, size, events) && History(ns, s, size)
    ensures History(ns + ThreadsMade(s, size, events), Run(s, size, events), SizeAfter(s, size, events))
    decreases |events|
  {
    hide Sound, Step, Fits, NextSize, Creates, Creations, AllStored, CapacityAfter, HasSlot, Enlarged, TableSize;
    if events == [] {
      assert ns + ThreadsMade(s, size, events) == ns;
    } else {
      var e := events[0];
      StepSound(s, size, e);
      StepCounts(s, size, e);
      var more := if Creates(s, e).Some? then [Creates(s, e).value] else [];
      if Creates(s, e).Some? { MoreHistory(ns, s, size, Creates(s, e).value); } else { assert ns + more == ns; }
      var s', size' := Step(s, size, e), NextSize(s, size, e);
      RunHistory(s', size', events[1..], ns + more);
      assert ns + more + ThreadsMade(s', size', events[1..]) == ns + (more + ThreadsMade(s', size', events[1..]));
    }
  }

  /**
   After any run the next thread has a slot in the thread table if and only if the whole run with it is roomy:
   either few threads, or a process with two threads early enough, or one thread each and fewer than 9473.
   */
  lemma NextThreadFits(events: seq<Event>, n: nat)
    ensures Sound(Init())
    ensures InScope(Init(), FirstCapacity(), events) ==>
              var s, size := Run(Init(), FirstCapacity(), events), SizeAfter(Init(), FirstCapacity(), events);
              var ns := [1] + ThreadsMade(Init(), FirstCapacity(), events);
              && Roomy(ns)
              && (|s.processes| <= n <= |s.processes| + 1 ==>
                    (HasSlot(size, |s.threads|, TableSize(n)) <==> Roomy(ns + [n])))
  {
    hide Run, SizeAfter, ThreadsMade, Roomy, HasSlot, InScope, TableSize;
    InitIsCreated();
    if InScope(Init(), FirstCapacity(), events) {
      var s, size := Run(Init(), FirstCapacity(), events), SizeAfter(Init(), FirstCapacity(), events);
      var ns := [1] + ThreadsMade(Init(), FirstCapacity(), events);
      FirstHistory();
      RunHistory(Init(), FirstCapacity(), events, [1]);
      ThreadTableFits(ns);
      if |s.processes| <= n <= |s.processes| + 1 {
        MoreHistory(ns, s, size, n);
        ThreadTableFits(ns + [n]);
      }
    }
  }

  lemma FirstHistory()
    ensures History([1], Init(), FirstCapacity())
  {
    assert [1][..0] == [];
  }

  // ---------- exit codes over runs ----------

  /** The code with which an event ends process `p`, or ends it once more. */
  ghost function Ends(s: Sched, e: Event, p: nat): Option<int> {
    match e
    case Exited(code) => if UserRunning(s) && s.currentPid == p then Some(code) else None
    case Killed(_) => if KillerOf(s, e, p).Some? then Some(KillerOf(s, e, p).value + 255) else None
    case _ => None
  }

  /** The process that successfully kills `p` in this event. */
  ghost function KillerOf(s: Sched, e: Event, p: nat): Option<nat> {
    if e == Killed(p) && UserRunning(s) && CanKill(s, p) then Some(s.currentPid) else None
  }

  /** One event: a process ends exactly in the events that say so, with that code; else its record keeps its code. */
  lemma StepExits(s: Sched, size: Capacity, e: Event, p: nat)
    requires Sound(s) && Fits(s, size, e) && p < |s.processes|
    ensures var s' := Step(s, size, e);
            && |s.processes| <= |s'.processes|
            && (ProcessAt(s', p) ==>
                  && ProcessAt(s, p)
                  && s'.processes[p].value.exitcode == (if Ends(s, e, p).Some? then Ends(s, e, p).value else s.processes[p].value.exitcode)
                  && (s'.processes[p].value.state == PExiting <==> Ends(s, e, p).Some? || s.processes[p].value.state == PExiting))
  {
    match e
    case Picked(env) =>
      NoneSelected(s);
      PickFromKeepsExits(s.(current := None), false, env);
      if ProcessAt(Step(s, size, e), p) { assert ExitKept(s.(current := None), Step(s, size, e), p); }
    case Exited(exitcode) => EndExits(s, size, e, p);
    case Killed(pid) => EndExits(s, size, e, p);
    case _ => hide Sound;
  }

  lemma EndExits(s: Sched, size: Capacity, e: Event, p: nat)
    requires Sound(s) && Fits(s, size, e) && p < |s.processes| && (e.Exited? || e.Killed?)
    ensures var s' := Step(s, size, e);
            && |s.processes| == |s'.processes|
            && (ProcessAt(s', p) ==>
                  && ProcessAt(s, p)
                  && s'.processes[p].value.exitcode == (if Ends(s, e, p).Some? then Ends(s, e, p).value else s.processes[p].value.exitcode)
                  && (s'.processes[p].value.state == PExiting <==> Ends(s, e, p).Some? || s.processes[p].value.state == PExiting))
  {
    NotIdleProcess(s);
    hide SoundBut, Reap;
    match e
    case Exited(exitcode) => if UserRunning(s) { EndSound(s, s.currentPid, exitcode); }
    case Killed(pid) => if UserRunning(s) && CanKill(s, pid) { EndSound(s, pid, s.currentPid + 255); }
    case _ =>
  }

  /** The process whose successful kill of `p` is the last one of the run. */
  ghost function LastKiller(s: Sched, size: Capacity, events: seq<Event>, p: nat): Option<nat>
    requires Sound(s) && InScope(s, size, events)
    decreases |events|
  {
    if events == [] then None else
    StepSound(s, size, events[0]);
    var later := LastKiller(Step(s, size, events[0]), NextSize(s, size, events[0]), events[1..], p);
    if later.Some? then later else KillerOf(s, events[0], p)
  }

  /** What the record of an ended process says after a run: the code it ended with, or that of its last killer. */
  function CodeAfter(code: int, killer: Option<nat>): int {
    if killer.Some? then killer.value + 255 else code
  }

  lemma {:induction false} RecordKeepsCode(s: Sched, size: Capacity, events: seq<Event>, p: nat)
    requires Sound(s) && InScope(s, size, events) && p < |s.processes|
    requires ProcessAt(s, p) ==> s.processes[p].value.state == PExiting
    ensures var s' := Run(s, size, events);
            ProcessAt(s', p) ==>
              && ProcessAt(s, p) && s'.processes[p].value.state == PExiting
              && s'.processes[p].value.exitcode == CodeAfter(s.processes[p].value.exitcode, LastKiller(s, size, events, p))
    decreases |events|
  {
    hide Sound, Step;
    if events != [] {
      StepSound(s, size, events[0]);
      StepExits(s, size, events[0], p);
      if ProcessAt(s, p) { OnlyKills(s, events[0], p); }
      RecordKeepsCode(Step(s, size, events[0]), NextSize(s, size, events[0]), events[1..], p);
    }
  }

  lemma OnlyKills(s: Sched, e: Event, p: nat)
    requires Sound(s) && ProcessAt(s, p) && s.processes[p].value.state == PExiting
    ensures Ends(s, e, p) == if KillerOf(s, e, p).Some? then Some(KillerOf(s, e, p).value + 255) else None
  {
    if UserRunning(s) { RunningNotExiting(s); }
  }

  /**
   Event `e` ends process `p`; after any further events a thread that awaits p is woken by a pick. It gets the
   code p ended with exactly if no kill of p has succeeded in the meantime, or the last one left the same number.
   */
  lemma WaiterGetsExitCode(s: Sched, size: Capacity, e: Event, events: seq<Event>, env: Env, t: nat, p: nat)
    requires Inv(s) && Fits(s, size, e) && forall e' :: e' in events ==> Lifetime(e')
    requires ProcessAt(s, p) && s.processes[p].value.state != PExiting && Ends(s, e, p).Some?
    ensures Inv(Step(s, size, e))
    ensures var s1, size1, code := Step(s, size, e), NextSize(s, size, e), Ends(s, e, p).value;
            InScope(s1, size1, events) ==>
              var s2, killer := Run(s1, size1, events), LastKiller(s1, size1, events, p);
              Awaits(s2, t, p) && Pick(s2, env).current == Some(t) ==>
                && ThreadAt(Pick(s2, env), t)
                && Pick(s2, env).threads[t].value.eax == CodeAfter(code, killer)
                && (Pick(s2, env).threads[t].value.eax == code <==> killer == None || killer.value + 255 == code)
  {
    assert Lifetime(e);
    StepInv(s, size, e);
    hide Sound, ListsOk, WaitsOk, Step, Ends, LastKiller, Pick, KillerOf, Fits;
    var s1, size1 := Step(s, size, e), NextSize(s, size, e);
    StepExits(s, size, e, p);
    if InScope(s1, size1, events) {
      RecordKeepsCode(s1, size1, events, p);
      RunInv(s1, size1, events);
      var s2 := Run(s1, size1, events);
      if Awaits(s2, t, p) {
        ResumedWithExitCode(s2, env, t, p);
      }
    }
  }

  /** If the pick's first queue entry can run or be resumed, it is selected. */
  lemma PickFirst(s: Sched, env: Env)
    requires Sound(s) && s.loc < |s.queue|
    ensures var s1, t := s.(current := None, loc := s.loc + 1), s.queue[s.loc];
            && NoPanic(s1, t) && (s1.threads[t].value.state == Dead ==> 0 < s1.loc <= |s1.queue|)
            && (Visit(s1, t, env).current.Some? ==> Pick(s, env) == Visit(s1, t, env))
  {
    var s0 := s.(current := None);
    NoneSelected(s);
    NextEntrySound(s0, false);
    var (s1, t, loop) := NextEntry(s0, false);
    VisitShape(s1, t, env);
  }

  /** Process 1 waits for process 2, which runs and is about to end; process 3 is ready. */
  function Family(): Sched {
    Sched([Some(Process(0, PRunning, [0], 0, 0)), Some(Process(3, PRunning, [1], 0, 0)),
           Some(Process(3, PRunning, [2], 0, 1)), Some(Process(3, PRunning, [3], 0, 0))],
          [Some(Thread(0, 0, Running, 0, None, 0)), Some(Thread(1, 3, Waiting, 2, None, 0)),
           Some(Thread(2, 3, Running, 0, None, 0)), Some(Thread(3, 3, Running, 0, None, 0))],
          [2, 3, 1], 1, Some(2), 2, 0)
  }

  /** With process 2 ended with `code`, and `t` running. */
  function FamilyWith(code: int, t: nat, loc: nat): Sched {
    Family().(processes := Family().processes[2 := Some(Process(3, PExiting, [], code, 1))],
              threads := Family().threads[2 := Some(Thread(2, 3, Dead, 0, None, 0))],
              loc := loc, current := Some(t), currentPid := t)
  }

  lemma FamilyQueue()
    ensures QueueOk(Family()) && IdleOk(Family()) && CurrentOk(Family())
  {
    var s := Family();
    assert s.queue[0] in s.queue && s.queue[1] in s.queue && s.queue[2] in s.queue;
  }

  lemma FamilyWaits()
    ensures WaitsOk(Family())
  {
    var s := Family();
    assert Waiters(s.threads, 2) == {1};
    assert Waiters(s.threads, 1) == {} && Waiters(s.threads, 3) == {};
  }

  lemma FamilyInv()
    ensures Inv(Family()) && UserRunning(Family())
  {
    FamilyQueue();
    FamilyWaits();
    hide QueueOk, WaitsOk, IdleOk, CurrentOk;
    var s := Family();
    forall t | ThreadAt(s, t) ensures OwnerOk(s, None, t, s.threads[t].value) {
      assert t == 0 || t == 1 || t == 2 || t == 3;
    }
    forall p | ProcessAt(s, p) ensures ListOk(s, None, p, s.processes[p].value) {
      assert p == 0 || p == 1 || p == 2 || p == 3;
    }
  }

  lemma FamilyExit()
    ensures TidsLive(Family(), 2) && Exit(Family(), 7) == FamilyWith(7, 2, 1)
  {
    assert Exit(Family(), 7).threads == FamilyWith(7, 2, 1).threads;
  }

  lemma FamilyKill()
    ensures TidsLive(FamilyWith(7, 3, 2), 2) && Kill(FamilyWith(7, 3, 2), 2) == (0, FamilyWith(258, 3, 2))
  {
    assert Kill(FamilyWith(7, 3, 2), 2).1.threads == FamilyWith(258, 3, 2).threads;
    assert Kill(FamilyWith(7, 3, 2), 2).1.processes == FamilyWith(258, 3, 2).processes;
  }

  lemma FamilyPicks(env: Env)
    ensures var s := FamilyWith(7, 2, 1).(current := None, loc := 2); NoPanic(s, 3) && Visit(s, 3, env) == FamilyWith(7, 3, 2)
    ensures var s := FamilyWith(258, 3, 2).(current := None, loc := 3); NoPanic(s, 1) && Visit(s, 1, env).current == Some(1)
  {
  }

  lemma RunCons(s: Sched, size: Capacity, e: Event, events: seq<Event>)
    requires Sound(s) && Fits(s, size, e) && Sound(Step(s, size, e)) && InScope(Step(s, size, e), NextSize(s, size, e), events)
    ensures InScope(s, size, [e] + events)
    ensures Run(s, size, [e] + events) == Run(Step(s, size, e), NextSize(s, size, e), events)
  {
    assert ([e] + events)[1..] == events;
  }

  /** exit(7) by process 2, then kill(2) by process 3: process 1, which waited all the time, is told 258. */
  lemma KilledAfterExit(env: Env)
    ensures Inv(Family()) && Awaits(Family(), 1, 2)
    ensures var s, events := Family(), [Exited(7), Picked(env), Killed(2)];
            && InScope(s, FirstCapacity(), events)
            && var s' := Pick(Run(s, FirstCapacity(), events), env);
               s'.current == Some(1) && ThreadAt(s', 1) && s'.threads[1].value.eax == 3 + 255
  {
    hide SoundBut, ListsOk, WaitsOk, Exit, Kill, Pick, Visit;
    FamilyInv();
    FamilyExit();
    FamilyKill();
    FamilyPicks(env);
    var size := FirstCapacity();
    var s0, s1, s2, s3 := Family(), FamilyWith(7, 2, 1), FamilyWith(7, 3, 2), FamilyWith(258, 3, 2);
    StepInv(s0, size, Exited(7));
    assert Step(s0, size, Exited(7)) == s1;
    PickFirst(s1, env);
    assert Step(s1, size, Picked(env)) == s2;
    StepInv(s1, size, Picked(env));
    assert Step(s2, size, Killed(2)) == s3;
    StepInv(s2, size, Killed(2));
    RunCons(s2, size, Killed(2), []);
    RunCons(s1, size, Picked(env), [Killed(2)]);
    RunCons(s0, size, Exited(7), [Picked(env), Killed(2)]);
    PickFirst(s3, env);
    ResumedWithExitCode(s3, env, 1, 2);
  }

  // ---------- the edge of the scope ----------

  /** Every record counts the threads whose `wait` names it. */
  ghost predicate CountsOk(s: Sched) {
    forall p :: 0 < p && ProcessAt(s, p) ==> s.processes[p].value.waitingThreads == |Waiters(s.threads, p)|
  }

  /** Every thread whose `wait` is not 0 finds a record there. */
  ghost predicate RecordsOk(s: Sched) {
    forall t :: ThreadAt(s, t) && 0 < s.threads[t].value.wait ==> ProcessAt(s, s.threads[t].value.wait)
  }

  /**
   An IRQ suspension leaves the IRQ number in `wait`. The waiter counts stay right exactly if that is not the pid
   of a process with a record; if it is not 0 and no such pid either, the thread waits for a record that is not there.
   */
  lemma SuspensionKeepsCounts(s: Sched, irq: nat, t: nat)
    requires Inv(s) && ThreadAt(s, t) && s.threads[t].value.state == Running
    ensures CountsOk(Suspend(s, irq, t)) <==> irq == 0 || !ProcessAt(s, irq)
    ensures RecordsOk(Suspend(s, irq, t)) <==> irq == 0 || ProcessAt(s, irq)
  {
    var s', r := Suspend(s, irq, t), s.threads[t].value;
    assert WaitOk(s, r);
    var r' := r.(wait := irq, state := Suspended);
    assert s'.threads == s.threads[t := Some(r')];
    forall p | 0 < p && ProcessAt(s, p) ensures |Waiters(s'.threads, p)| == |Waiters(s.threads, p)| + (if irq == p then 1 else 0) {
      WaitersAfterSet(s.threads, t, Some(r'), p);
    }
    assert forall p :: ProcessAt(s', p) == ProcessAt(s, p);
    forall u | ThreadAt(s', u) && u != t && 0 < s'.threads[u].value.wait ensures ProcessAt(s', s'.threads[u].value.wait) {
      assert ThreadAt(s, u) && WaitOk(s, s.threads[u].value);
    }
    assert ThreadAt(s', t) && s'.threads[t].value.wait == irq;
  }

  /** Thread 3 waits for process 1, which is ready, while thread 2 of process 2 is about to wait for an IRQ. */
  function Desk(): Sched {
    Sched([Some(Process(0, PRunning, [0], 0, 0)), Some(Process(3, PRunning, [1], 0, 1)),
           Some(Process(3, PRunning, [2], 0, 0)), Some(Process(3, PRunning, [3], 0, 0))],
          [Some(Thread(0, 0, Running, 0, None, 0)), Some(Thread(1, 3, Running, 0, None, 0)),
           Some(Thread(2, 3, Running, 0, None, 0)), Some(Thread(3, 3, Waiting, 1, None, 0))],
          [2, 1, 3], 1, Some(2), 2, 0)
  }

  lemma DeskInv()
    ensures Inv(Desk())
  {
    DeskQueue();
    DeskWaits();
    hide QueueOk, WaitsOk, IdleOk, CurrentOk;
    var s := Desk();
    forall t | ThreadAt(s, t) ensures OwnerOk(s, None, t, s.threads[t].value) {
      assert t == 0 || t == 1 || t == 2 || t == 3;
    }
    forall p | ProcessAt(s, p) ensures ListOk(s, None, p, s.processes[p].value) {
      assert p == 0 || p == 1 || p == 2 || p == 3;
    }
  }

  lemma DeskQueue()
    ensures QueueOk(Desk()) && IdleOk(Desk()) && CurrentOk(Desk())
  {
    var s := Desk();
    assert s.queue[0] in s.queue && s.queue[1] in s.queue && s.queue[2] in s.queue;
  }

  lemma DeskWaits()
    ensures WaitsOk(Desk())
  {
    var s := Desk();
    assert Waiters(s.threads, 1) == {3};
    assert Waiters(s.threads, 2) == {} && Waiters(s.threads, 3) == {};
  }

  /** Thread 2 suspended for IRQ 1, and process 1 selected instead. */
  function DeskSuspended(): Sched {
    Desk().(threads := Desk().threads[2 := Some(Thread(2, 3, Suspended, 1, None, 0))], loc := 2, current := Some(1), currentPid := 1)
  }

  /** Process 2 killed. */
  function DeskKilled(): Sched {
    DeskSuspended().(threads := Desk().threads[2 := Some(Thread(2, 3, Dead, 1, None, 0))], processes := Desk().processes[2 := None])
  }

  /** Thread 2 buried, and process 1 selected once more. */
  function DeskBuried(): Sched {
    Sched([Some(Process(0, PRunning, [0], 0, 0)), Some(Process(3, PRunning, [1], 0, 0)), None, Some(Process(3, PRunning, [3], 0, 0))],
          [Some(Thread(0, 0, Running, 0, None, 0)), Some(Thread(1, 3, Running, 0, None, 0)), None,
           Some(Thread(3, 3, Waiting, 1, None, 0))],
          [1, 3], 1, Some(1), 1, 0)
  }

  /** Thread 2 taken from the queue, and freed. */
  function DeskTaken(): Sched { DeskKilled().(current := None, loc := 1) }

  function DeskFreed(): Sched { DeskBuried().(current := None, loc := 0) }

  lemma DeskSuspends(env: Env)
    ensures CallerRunning(Desk())
    ensures var s := Suspend(Desk(), 1, 2).(current := None, loc := 2); NoPanic(s, 1) && Visit(s, 1, env) == DeskSuspended()
  {
  }

  lemma DeskKills()
    ensures TidsLive(DeskSuspended(), 2) && UserRunning(DeskSuspended()) && CanKill(DeskSuspended(), 2)
    ensures Kill(DeskSuspended(), 2) == (0, DeskKilled())
  {
    assert Kill(DeskSuspended(), 2).1.threads == DeskKilled().threads;
    assert Kill(DeskSuspended(), 2).1.processes == DeskKilled().processes;
  }

  lemma DeskTurns(env: Env)
    ensures var s := DeskKilled().(current := None, loc := 3); NoPanic(s, 3) && Visit(s, 3, env) == s
    ensures NoPanic(DeskTaken(), 2) && Visit(DeskTaken(), 2, env) == DeskFreed()
    ensures var s := DeskFreed().(loc := 1); NoPanic(s, 1) && Visit(s, 1, env) == DeskBuried()
  {
    var s := Visit(DeskTaken(), 2, env);
    assert s.queue == [1, 3];
    assert s.threads == DeskFreed().threads;
    assert s.processes == DeskFreed().processes;
  }

  /** One turn of the loop. */
  lemma PickTurn(s: Sched, loop: bool, env: Env)
    requires Sound(s) && s.current == None
    ensures var (s1, t, loop') := NextEntry(s, loop);
            && NoPanic(s1, t) && (s1.threads[t].value.state == Dead ==> 0 < s1.loc <= |s1.queue|)
            && var s2 := Visit(s1, t, env);
               Sound(s2) && PickFrom(s, loop, env) == if s2.current.Some? then s2 else PickFrom(s2, loop', env)
  {
    NextEntrySound(s, loop);
    var (s1, t, loop') := NextEntry(s, loop);
    VisitShape(s1, t, env);
    VisitSound(s1, t, env);
  }

  lemma DeskPicks(env: Env)
    requires Sound(DeskKilled())
    ensures Pick(DeskKilled(), env) == DeskBuried()
  {
    hide Sound, Visit, NoPanic;
    DeskTurns(env);
    NoneSelected(DeskKilled());
    PickTurn(DeskKilled().(current := None), false, env);
    PickTurn(DeskKilled().(current := None, loc := 3), false, env);
    PickTurn(DeskFreed(), true, env);
  }

  lemma DeskExits()
    ensures UserRunning(DeskBuried()) && TidsLive(DeskBuried(), 1)
    ensures Awaits(Exit(DeskBuried(), 7), 3, 1) && !ProcessAt(Exit(DeskBuried(), 7), 1)
  {
  }

  /**
   And it matters. Thread 2 suspends itself for IRQ 1; process 1 kills its process; the next pick looks at thread 3
   and buries thread 2, which takes one waiter from the record of process 1. When that process exits, its record is
   freed although thread 3 has waited for it all the time.
   */
  lemma SuspensionFreesWaitedProcess(env: Env)
    ensures Inv(Desk()) && Awaits(Desk(), 3, 1)
    ensures var events := [Blocked(1), Picked(env), Killed(2), Picked(env), Exited(7)];
            && InScope(Desk(), FirstCapacity(), events)
            && var s := Run(Desk(), FirstCapacity(), events); Awaits(s, 3, 1) && !ProcessAt(s, 1)
  {
    hide SoundBut, ListsOk, WaitsOk, Exit, Kill, Suspend, Pick, Visit, NoPanic;
    DeskInv();
    DeskSuspends(env);
    DeskKills();
    DeskExits();
    var size := FirstCapacity();
    var s0, s1, s2, s3, s4 := Desk(), Suspend(Desk(), 1, 2), DeskSuspended(), DeskKilled(), DeskBuried();
    StepSound(s0, size, Blocked(1));
    SuspendKeepsQueue(s0, 1, 2);
    PickFirst(s1, env);
    StepSound(s1, size, Picked(env));
    StepSound(s2, size, Killed(2));
    DeskPicks(env);
    StepSound(s3, size, Picked(env));
    StepSound(s4, size, Exited(7));
    RunCons(s4, size, Exited(7), []);
    RunCons(s3, size, Picked(env), [Exited(7)]);
    RunCons(s2, size, Killed(2), [Picked(env), Exited(7)]);
    RunCons(s1, size, Picked(env), [Killed(2), Picked(env), Exited(7)]);
    RunCons(s0, size, Blocked(1), [Picked(env), Killed(2), Picked(env), Exited(7)]);
  }

  lemma SuspendKeepsQueue(s: Sched, irq: nat, t: nat)
    requires ThreadAt(s, t)
    ensures Suspend(s, irq, t) == s.(threads := Suspend(s, irq, t).threads)
  {
  }

  /**
   A thread that ends alone is freed after two turns, yet its process goes on listing it. Reaping the process then
   writes to a thread that is no more: `Fits` keeps that out of the runs.
   */
  lemma ThreadExitLeavesTid(s: Sched, t: nat)
    requires Sound(s) && ThreadAt(s, t) && s.threads[t].value.state == Running
    requires 0 < s.loc <= |s.queue| && s.queue[s.loc - 1] == t
    ensures var s1, p := ExitThread(s, t), s.threads[t].value.pid;
            && ProcessAt(s, p)
            && var s2 := SetThread(s1, t, s1.threads[t].value.(state := Dead));
               !ThreadAt(Bury(s2, t), t) && ProcessAt(Bury(s2, t), p) && !TidsLive(Bury(s2, t), p)
  {
    assert OwnerOk(s, None, t, s.threads[t].value);
    assert t in s.processes[s.threads[t].value.pid].value.tids;
  }

  /** The array form of the enqueue: write at queue_end, advance, and wrap at the length of the process table. */
  function Enqueue(queue: seq<nat>, end: nat, processesSize: nat, t: nat): (seq<nat>, nat)
    requires end < |queue| && 0 < processesSize
  {
    (queue[end := t], (end + 1) % processesSize)
  }

  /** It appends to the queue exactly while the queue stays shorter than the process table; then it empties it. */
  lemma EnqueueAppends(queue: seq<nat>, end: nat, processesSize: nat, t: nat)
    requires end < processesSize <= |queue|
    ensures var (q, e) := Enqueue(queue, end, processesSize, t);
            && e == (if end + 1 < processesSize then end + 1 else 0) <= |q|
            && (q[..e] == queue[..end] + [t] <==> end + 1 < processesSize)
  {
    hide Enqueue;
    EnqueueEnd(queue, end, processesSize, t);
    var (q, e) := Enqueue(queue, end, processesSize, t);
    if end + 1 < processesSize {
      assert q[..end + 1] == queue[..end] + [t];
    } else {
      assert |queue[..end] + [t]| == end + 1;
    }
  }

  lemma EnqueueEnd(queue: seq<nat>, end: nat, processesSize: nat, t: nat)
    requires end < processesSize <= |queue|
    ensures Enqueue(queue, end, processesSize, t) == (queue[end := t], if end + 1 < processesSize then end + 1 else 0)
  {
  }

  /**
   The list of tids of a process has 128 entries, and the test in front of a write looks at the size of the
   thread table instead; so the entry of a new thread is inside the list exactly while fewer than 128 are listed.
   */
  lemma TidListFits(count: nat, threadsSize: nat)
    requires DEFAULT_LIST_SIZE <= threadsSize
    ensures count < TidSlots(DEFAULT_TIDS, count, threadsSize) <==> count < DEFAULT_TIDS
  {
  }
}
