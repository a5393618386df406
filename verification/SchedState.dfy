/**
 The scheduler as a state machine: its tables as values, and one pure function for each thing
 kernel/kernel/sched/sched.c does to them. Scheduler.dfy has the same operations as loops over arrays.
 */
module SchedState {
  import opened Wrappers
  import opened Errno

  datatype ThreadState = Running | Suspended | Waiting | Starting | Exiting | Dead

  datatype ProcessState = PRunning | PExiting | PStarting | PLoading

  /** `wait` is a pid (0 for none), or the irq number left by a suspension; `eax` is the value wait() returns. */
  datatype Thread = Thread(pid: nat, privilege: nat, state: ThreadState, wait: nat, waitMsg: Option<nat>, eax: int)

  /** `tids` is the list of the first `threadcount` tids. */
  datatype Process = Process(privilege: nat, state: ProcessState, tids: seq<nat>, exitcode: int, waitingThreads: int)

  /** A freed table slot is None. `queue` holds the entries below queue_end, `loc` is queue_loc. */
  datatype Sched = Sched(processes: seq<Option<Process>>, threads: seq<Option<Thread>>,
                         queue: seq<nat>, loc: nat, current: Option<nat>, currentPid: nat, idle: nat)

  /** What the rest of the kernel answers during one pick: queues with a message for a pid, and loadable programs. */
  datatype Env = Env(ready: set<(nat, nat)>, loadable: set<nat>)

  // ---------- capacities ----------

  const REALLOC_INCREMENT: nat := 512
  const DEFAULT_LIST_SIZE: nat := 1024
  const DEFAULT_TIDS: nat := 128
  const MAX_PROCESSES: nat := 65536
  const MAX_THREADS: nat := 131072

  /** Length of the process table, and of the queue array, once `n` processes have been created. */
  function TableSize(n: nat): (size: nat)
    ensures n <= size && DEFAULT_LIST_SIZE <= size
  {
    if n <= DEFAULT_LIST_SIZE then DEFAULT_LIST_SIZE else (n + REALLOC_INCREMENT - 1) / REALLOC_INCREMENT * REALLOC_INCREMENT
  }

  /** Length of a process's tid list when its `count`-th entry is written; its growth is tied to the thread table. */
  function TidSlots(size: nat, count: nat, threadsSize: nat): nat {
    if threadsSize <= count then size + 64 else size
  }

  predicate ThreadAt(s: Sched, t: int) { 0 <= t < |s.threads| && s.threads[t].Some? }

  predicate ProcessAt(s: Sched, p: int) { 0 <= p < |s.processes| && s.processes[p].Some? }

  function SetThread(s: Sched, t: nat, r: Thread): Sched
    requires t < |s.threads|
  {
    s.(threads := s.threads[t := Some(r)])
  }

  function SetProcess(s: Sched, p: nat, r: Process): Sched
    requires p < |s.processes|
  {
    s.(processes := s.processes[p := Some(r)])
  }

  // ---------- threads and processes come into being ----------

  /** sched_create_thread: a STARTING thread, listed by its process and, unless `noqueue`, at the end of the queue. */
  function CreateThread(s: Sched, owner: nat, noqueue: bool): Sched
    requires ProcessAt(s, owner)
  {
    var p := s.processes[owner].value;
    var t := |s.threads|;
    s.(threads := s.threads + [Some(Thread(owner, p.privilege, Starting, 0, None, 0))],
       processes := s.processes[owner := Some(p.(tids := p.tids + [t]))],
       queue := if noqueue then s.queue else s.queue + [t])
  }

  function CreateProcess(s: Sched, privilege: nat): Sched {
    s.(processes := s.processes + [Some(Process(privilege, PStarting, [], 0, 0))])
  }

  /** pload_create_process: a process and its first thread. */
  function Spawn(s: Sched, privilege: nat): Sched {
    CreateThread(CreateProcess(s, privilege), |s.processes|, false)
  }

  /** sched_init: the idle process with its one thread, which is not queued. */
  function Init(): Sched {
    Sched([Some(Process(0, PStarting, [0], 0, 0))], [Some(Thread(0, 0, Starting, 0, None, 0))], [], 0, None, 0, 0)
  }

  // ---------- processes end ----------

  /** All listed threads of a process marked dead, from list position `i` on. */
  function MarkDead(threads: seq<Option<Thread>>, tids: seq<nat>): (r: seq<Option<Thread>>)
    requires forall t :: t in tids ==> t < |threads| && threads[t].Some?
    ensures |r| == |threads|
    ensures forall t :: 0 <= t < |threads| ==>
              r[t] == if t in tids then Some(threads[t].value.(state := Dead)) else threads[t]
  {
    if tids == [] then threads else
    var rest, t := tids[..|tids| - 1], tids[|tids| - 1];
    assert tids == rest + [t];
    assert t in tids && forall u :: u in rest ==> u in tids;
    var r := MarkDead(threads, rest);
    r[t := Some(r[t].value.(state := Dead))]
  }

  predicate TidsLive(s: Sched, p: int)
    requires ProcessAt(s, p)
  {
    forall t :: t in s.processes[p].value.tids ==> ThreadAt(s, t)
  }

  /** sched_reap_process: kills what is left of a process and frees its record unless somebody waits for it. */
  function Reap(s: Sched, pid: nat): Sched
    requires ProcessAt(s, pid) ==> TidsLive(s, pid)
  {
    if !ProcessAt(s, pid) then s else
    var p := s.processes[pid].value;
    var s1 := s.(threads := MarkDead(s.threads, p.tids), processes := s.processes[pid := Some(p.(tids := []))]);
    if p.waitingThreads == 0 then s1.(processes := s1.processes[pid := None]) else s1
  }

  function Exit(s: Sched, exitcode: int): Sched
    requires ProcessAt(s, s.currentPid) && TidsLive(s, s.currentPid)
  {
    var p := s.processes[s.currentPid].value;
    Reap(SetProcess(s, s.currentPid, p.(exitcode := exitcode, state := PExiting)), s.currentPid)
  }

  /** sched_kill_process; the first component is what the call returns. */
  function Kill(s: Sched, pid: int): (int, Sched)
    requires ProcessAt(s, s.currentPid)
    requires 0 <= pid && ProcessAt(s, pid) ==> TidsLive(s, pid)
  {
    if pid < 0 || pid >= |s.processes| then (-ESRCH, s)
    else if s.processes[pid].None? then (-ESRCH, s)
    else if pid == s.currentPid then (-EINVAL, s)
    else if s.processes[pid].value.privilege < s.processes[s.currentPid].value.privilege then (-EACCES, s)
    else
      var p := s.processes[pid].value;
      (0, Reap(SetProcess(s, pid, p.(exitcode := s.currentPid + 255, state := PExiting)), pid))
  }

  // ---------- waiting ----------

  /** sched_wait_process by the current thread. */
  function Wait(s: Sched, pid: int): (int, Sched)
    requires s.current.Some? && ThreadAt(s, s.current.value)
  {
    if pid < 0 || pid >= |s.processes| then (-ESRCH, s)
    else if s.processes[pid].None? then (-ESRCH, s)
    else if pid == s.currentPid then (-EINVAL, s)
    else
      var t, p := s.threads[s.current.value].value, s.processes[pid].value;
      (0, SetProcess(SetThread(s, s.current.value, t.(wait := pid, waitMsg := None, state := Waiting)),
                     pid, p.(waitingThreads := p.waitingThreads + 1)))
  }

  /** interface_wait by the current thread, on the message queue `q`. */
  function WaitMessage(s: Sched, q: nat): Sched
    requires s.current.Some? && ThreadAt(s, s.current.value)
  {
    SetThread(s, s.current.value, s.threads[s.current.value].value.(state := Waiting, wait := 0, waitMsg := Some(q)))
  }

  /** What interface_delete does to each thread when message queue `q` goes. */
  function Woken(r: Option<Thread>, q: nat): Option<Thread> {
    if r.Some? && r.value.state == Waiting && r.value.waitMsg == Some(q)
    then Some(r.value.(waitMsg := None, wait := 0, state := Running)) else r
  }

  function WakeWaiting(s: Sched, q: nat): Sched {
    s.(threads := seq(|s.threads|, t requires 0 <= t < |s.threads| => Woken(s.threads[t], q)))
  }

  /** sched_suspend_thread: `wait` is overwritten with an irq number. */
  function Suspend(s: Sched, irq: nat, t: nat): Sched
    requires ThreadAt(s, t)
  {
    SetThread(s, t, s.threads[t].value.(wait := irq, state := Suspended))
  }

  /** sched_check_suspended_threads, when an IRQ comes in; the number stays in `wait`. */
  function Resumed(r: Option<Thread>, irq: nat): Option<Thread> {
    if r.Some? && r.value.state == Suspended && r.value.wait == irq then Some(r.value.(state := Running)) else r
  }

  function Interrupt(s: Sched, irq: nat): Sched {
    s.(threads := seq(|s.threads|, t requires 0 <= t < |s.threads| => Resumed(s.threads[t], irq)))
  }

  /** sched_exit_thread by thread `t`. */
  function ExitThread(s: Sched, t: nat): Sched
    requires ThreadAt(s, t)
  {
    SetThread(s, t, s.threads[t].value.(state := Exiting))
  }

  /** sched_check_waiting_thread: the pid waited for if that process has ended, else None. */
  function CheckWaiting(s: Sched, t: nat): (Option<nat>, Sched)
    requires ThreadAt(s, t)
  {
    var r := s.threads[t].value;
    if !ProcessAt(s, r.wait) then (None, SetThread(s, t, r.(wait := 0, state := Running)))
    else
      var p := s.processes[r.wait].value;
      if p.tids == [] then
        (Some(r.wait), SetProcess(SetThread(s, t, r.(wait := 0, state := Running)), r.wait, p.(waitingThreads := p.waitingThreads - 1)))
      else (None, s)
  }

  // ---------- picking the next thread ----------

  function Select(s: Sched, t: nat): Sched
    requires ThreadAt(s, t)
  {
    s.(current := Some(t), currentPid := s.threads[t].value.pid)
  }

  /** A thread resumed because the process `pid` has ended: it gets the exit code, and the process is reaped again. */
  function Resume(s: Sched, t: nat, pid: nat): Sched
    requires ThreadAt(s, t) && ProcessAt(s, pid) && TidsLive(s, pid)
  {
    Reap(SetThread(Select(s, t), t, s.threads[t].value.(eax := s.processes[pid].value.exitcode)), pid)
  }

  /** A dead thread leaves the queue, is no longer counted as a waiter, and is freed. */
  function Bury(s: Sched, t: nat): Sched
    requires ThreadAt(s, t) && 0 < s.loc <= |s.queue|
  {
    var w := s.threads[t].value.wait;
    var s1 := s.(queue := s.queue[..s.loc - 1] + s.queue[s.loc..], loc := s.loc - 1);
    var s2 := if w != 0 && ProcessAt(s1, w)
              then SetProcess(s1, w, s1.processes[w].value.(waitingThreads := s1.processes[w].value.waitingThreads - 1))
              else s1;
    s2.(threads := s2.threads[t := None])
  }

  function Start(s: Sched, t: nat, env: Env): Sched
    requires ThreadAt(s, t) && ProcessAt(s, s.threads[t].value.pid)
  {
    var r := s.threads[t].value;
    if r.privilege == 0 then SetThread(s, t, r.(state := Running)) else
    var p := s.processes[r.pid].value;
    match p.state
    case PStarting =>
      if r.pid in env.loadable then SetProcess(SetThread(s, t, r.(state := Running)), r.pid, p.(state := PRunning))
      else SetProcess(s, r.pid, p.(state := PLoading))
    case PRunning => SetThread(s, t, r.(state := Running))
    case PLoading => SetThread(s, t, r.(state := Running))
    case PExiting => s
  }

  /** The checks in front of the switch, which panic when they fail. */
  predicate NoPanic(s: Sched, t: nat) {
    && ThreadAt(s, t)
    && s.threads[t].value.pid < |s.processes|
    && (s.threads[t].value.state != Dead ==>
          ProcessAt(s, s.threads[t].value.pid) && s.processes[s.threads[t].value.pid].value.state != PExiting)
  }

  /** One turn of the loop in sched_pick_next for the thread `t` just taken from the queue (or the idle thread). */
  function Visit(s: Sched, t: nat, env: Env): Sched
    requires NoPanic(s, t)
    requires s.threads[t].value.state == Dead ==> 0 < s.loc <= |s.queue|
  {
    var r := s.threads[t].value;
    match r.state
    case Running => Select(s, t)
    case Suspended => s
    case Waiting =>
      if r.waitMsg.Some? then
        if (r.waitMsg.value, r.pid) in env.ready then SetThread(s, t, r.(waitMsg := None, state := Running)) else s
      else
        var (pid, s1) := CheckWaiting(s, t);
        if pid.Some? then Resume(s1, t, pid.value) else s1
    case Starting => Start(s, t, env)
    case Exiting => SetThread(s, t, r.(state := Dead))
    case Dead => Bury(s, t)
  }
}
