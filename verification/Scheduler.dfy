/**
 kernel/kernel/sched/sched.c as it stands: tables, a queue array with a read position and an end, and loops.
 Every method is proved to do to State() what the functions of SchedState and SchedPick say.
 */
module Scheduler {
  import opened Wrappers
  import opened Errno
  import opened SchedState
  import opened SchedProofs
  import opened SchedPick
  import opened ThreadTable

  lemma SmallModulo(a: nat, b: nat)
    requires a < b
    ensures a % b == a
  {
  }

  /** The table grows by one increment exactly when it is full. */
  lemma NextTableSize(n: nat)
    ensures TableSize(n + 1) == if TableSize(n) <= n then TableSize(n) + REALLOC_INCREMENT else TableSize(n)
  {
    var a, b := n / REALLOC_INCREMENT, n % REALLOC_INCREMENT;
    RoundedUp(a, b);
    if b + 1 < REALLOC_INCREMENT { RoundedUp(a, b + 1); } else { RoundedUp(a + 1, 0); }
  }

  lemma RoundedUp(a: nat, b: nat)
    requires b < REALLOC_INCREMENT
    ensures (512 * a + b + 511) / 512 == if b == 0 then a else a + 1
  {
  }

  /** If the wait of `t` is over, the process it waited for lists no threads any more. */
  ghost predicate WaitEnded(s: Sched, t: nat)
    requires ThreadAt(s, t)
  {
    var (pid, s1) := CheckWaiting(s, t);
    pid.Some? ==> ThreadAt(s1, t) && ProcessAt(s1, pid.value) && s1.processes[pid.value].value.tids == []
  }

  /** None of the conditions on which sched_pick_next panics. */
  ghost predicate ChecksPass(s: Sched, t: nat) {
    && 0 <= t < |s.threads| && s.threads[t] != None
    && s.threads[t].value.pid < |s.processes|
    && var p, dead := s.processes[s.threads[t].value.pid], s.threads[t].value.state == Dead;
       (p == None ==> dead) && (p != None && p.value.state == PExiting ==> dead)
  }

  lemma TurnReady(s: Sched, t: nat)
    requires Sound(s) && Taken(s, t)
    ensures NoPanic(s, t) && ChecksPass(s, t) && WaitEnded(s, t)
    ensures s.threads[t].value.state == Dead ==> 0 < s.loc <= |s.queue|
  {
    NoPanicReachable(s, t);
  }

  class Scheduler {
    var processes: seq<Option<Process>>
    var processesSize: nat
    var threads: seq<Option<Thread>>
    var threadsSize: nat
    // how many pointers the block behind `threads` has been asked to hold
    ghost var threadSlots: nat
    var queue: array<nat>
    var queueLoc: nat
    var queueEnd: nat
    var currentTid: Option<nat>
    var currentPid: nat
    var idleTid: nat

    /** Room: the queue is shorter than the process table, whose size bounds the queue array as well. */
    ghost predicate Valid()
      reads this
    {
      && processesSize == TableSize(|processes|) && queueEnd < processesSize <= queue.Length
      && |threads| <= threadSlots && CapacityOk(Slots())
    }

    ghost function Slots(): Capacity
      reads this
    {
      Capacity(threadSlots, threadsSize)
    }

    ghost function State(): Sched
      reads this, queue
      requires Valid()
    {
      Sched(processes, threads, queue[..queueEnd], queueLoc, currentTid, currentPid, idleTid)
    }

    /** sched_init, up to the state in which the idle process runs alone. */
    constructor ()
      ensures Valid() && fresh(queue) && Slots() == FirstCapacity()
      ensures State() == Init()
    {
      processes := [];
      processesSize := DEFAULT_LIST_SIZE;
      threads := [];
      threadsSize := DEFAULT_LIST_SIZE;
      threadSlots := FIRST_SLOTS;
      queue := new nat[DEFAULT_LIST_SIZE];
      queueLoc := 0;
      queueEnd := 0;
      currentTid := None;
      currentPid := 0;
      idleTid := 0;
      new;
      var idlePid := this.CreateProcess(0);
      idleTid := this.CreateThread(idlePid, true);
      assert processes[0].value.tids == [0];
      assert processes == Init().processes && threads == Init().threads;
    }

    // ---------- creation ----------

    /** Grows the process table, and the queue with it, when it is full. */
    method CreateProcess(privilege: nat) returns (pid: nat)
      requires Valid() && |processes| < MAX_PROCESSES
      modifies this
      ensures Valid() && State() == SchedState.CreateProcess(old(State()), privilege)
      ensures pid == |old(processes)| && Slots() == old(Slots())
      ensures queue == old(queue) || fresh(queue)
    {
      if |processes| >= processesSize {
        var grown := new nat[processesSize + REALLOC_INCREMENT];
        var i := 0;
        while i < queueEnd
          invariant i <= queueEnd
          invariant grown[..i] == queue[..i]
          modifies grown
        {
          grown[i] := queue[i];
          i := i + 1;
        }
        queue := grown;
        processesSize := processesSize + REALLOC_INCREMENT;
      }
      NextTableSize(|processes|);
      pid := |processes|;
      processes := processes + [Some(Process(privilege, PStarting, [], 0, 0))];
    }

    /** The entry goes to queue_end, which then moves on, modulo the size of the process table. */
    method CreateThread(owner: nat, noqueue: bool) returns (tid: nat)
      requires Valid() && ProcessAt(State(), owner) && |threads| < MAX_THREADS
      requires HasSlot(Slots(), |threads|, processesSize)
      requires |processes[owner].value.tids| < DEFAULT_TIDS
      requires !noqueue ==> queueEnd + 1 < processesSize
      modifies this, queue
      ensures Valid() && queue == old(queue) && State() == SchedState.CreateThread(old(State()), owner, noqueue)
      ensures tid == |old(threads)| && Slots() == Enlarged(old(Slots()), |old(threads)|, old(processesSize))
    {
      tid := |threads|;
      if tid >= processesSize {
        threadSlots := threadsSize + REALLOC_INCREMENT;
        threadsSize := threadsSize + REALLOC_INCREMENT;
      }
      var p := processes[owner].value;
      threads := threads + [Some(Thread(owner, p.privilege, Starting, 0, None, 0))];
      processes := processes[owner := Some(p.(tids := p.tids + [tid]))];
      if !noqueue {
        queue[queueEnd] := tid;
        queueEnd := queueEnd + 1;
        SmallModulo(queueEnd, processesSize);
        queueEnd := queueEnd % processesSize;
        assert queue[..queueEnd] == old(queue[..queueEnd]) + [tid];
      }
    }

    // ---------- process lifetime ----------

    method ReapProcess(pid: int)
      requires Valid()
      requires 0 <= pid && ProcessAt(State(), pid) ==> TidsLive(State(), pid)
      modifies this`processes, this`threads
      ensures Valid() && State() == if 0 <= pid then Reap(old(State()), pid) else old(State())
    {
      if pid < 0 || pid >= |processes| || processes[pid].None? {
        return;
      }
      var p := processes[pid].value;
      if |p.tids| != 0 {
        var i := 0;
        while i < |p.tids|
          invariant i <= |p.tids| && processes == old(processes)
          invariant forall t :: t in p.tids[..i] ==> t in p.tids
          invariant threads == MarkDead(old(threads), p.tids[..i])
        {
          var t := p.tids[i];
          assert t in p.tids && ThreadAt(old(State()), t);
          assert p.tids[..i + 1][..i] == p.tids[..i];
          threads := threads[t := Some(threads[t].value.(state := Dead))];
          i := i + 1;
        }
        assert p.tids[..i] == p.tids;
        processes := processes[pid := Some(p.(tids := []))];
      }
      if p.waitingThreads == 0 {
        processes := processes[pid := None];
      }
    }

    method ExitProcess(exitcode: int) returns (r: int)
      requires Valid() && ProcessAt(State(), currentPid) && TidsLive(State(), currentPid)
      modifies this`processes, this`threads
      ensures Valid() && State() == Exit(old(State()), exitcode) && r == 0
    {
      processes := processes[currentPid := Some(processes[currentPid].value.(exitcode := exitcode, state := PExiting))];
      ReapProcess(currentPid);
      r := 0;
    }

    method KillProcess(pid: int) returns (r: int)
      requires Valid() && ProcessAt(State(), currentPid)
      requires 0 <= pid && ProcessAt(State(), pid) ==> TidsLive(State(), pid)
      modifies this`processes, this`threads
      ensures Valid() && (r, State()) == Kill(old(State()), pid)
    {
      if pid < 0 || pid >= |processes| { return -ESRCH; }
      if processes[pid].None? { return -ESRCH; }
      if pid == currentPid { return -EINVAL; }
      if processes[pid].value.privilege < processes[currentPid].value.privilege { return -EACCES; }
      processes := processes[pid := Some(processes[pid].value.(exitcode := currentPid + 255, state := PExiting))];
      ReapProcess(pid);
      r := 0;
    }

    // ---------- waiting ----------

    method WaitProcess(pid: int) returns (r: int)
      requires Valid() && currentTid.Some? && ThreadAt(State(), currentTid.value)
      modifies this`processes, this`threads
      ensures Valid() && (r, State()) == Wait(old(State()), pid)
    {
      if pid < 0 || pid >= |processes| { return -ESRCH; }
      if processes[pid].None? { return -ESRCH; }
      if pid == currentPid { return -EINVAL; }
      var t := currentTid.value;
      threads := threads[t := Some(threads[t].value.(wait := pid, waitMsg := None))];
      processes := processes[pid := Some(processes[pid].value.(waitingThreads := processes[pid].value.waitingThreads + 1))];
      threads := threads[t := Some(threads[t].value.(state := Waiting))];
      assert threads == Wait(old(State()), pid).1.threads;
      r := 0;
    }

    /** Wakes every thread suspended for `irq`. */
    method CheckSuspendedThreads(irq: nat)
      requires Valid()
      modifies this`threads
      ensures Valid() && State() == Interrupt(old(State()), irq)
    {
      var i := 0;
      while i < |threads|
        invariant i <= |threads| == |old(threads)|
        invariant forall t :: i <= t < |threads| ==> threads[t] == old(threads)[t]
        invariant forall t :: 0 <= t < i ==> threads[t] == Resumed(old(threads)[t], irq)
      {
        if threads[i].Some? && threads[i].value.state == Suspended && threads[i].value.wait == irq {
          threads := threads[i := Some(threads[i].value.(state := Running))];
        }
        i := i + 1;
      }
      assert threads == Interrupt(old(State()), irq).threads;
    }

    /** sched_suspend_thread for the running thread. */
    method SuspendThread(irq: nat)
      requires Valid() && currentTid.Some? && ThreadAt(State(), currentTid.value)
      modifies this`threads
      ensures Valid() && State() == Suspend(old(State()), irq, currentTid.value)
    {
      var t := currentTid.value;
      threads := threads[t := Some(threads[t].value.(wait := irq))];
      threads := threads[t := Some(threads[t].value.(state := Suspended))];
      assert threads == Suspend(old(State()), irq, t).threads;
    }

    method ExitCurrentThread()
      requires Valid() && currentTid.Some? && ThreadAt(State(), currentTid.value)
      modifies this`threads
      ensures Valid() && State() == ExitThread(old(State()), currentTid.value)
    {
      threads := threads[currentTid.value := Some(threads[currentTid.value].value.(state := Exiting))];
    }

    method CheckWaitingThread(t: nat) returns (ended: Option<nat>)
      requires Valid() && ThreadAt(State(), t)
      modifies this`processes, this`threads
      ensures Valid() && (ended, State()) == CheckWaiting(old(State()), t)
    {
      var pid := threads[t].value.wait;
      if pid >= |processes| || processes[pid].None? {
        threads := threads[t := Some(threads[t].value.(wait := 0, state := Running))];
        return None;
      }
      if |processes[pid].value.tids| == 0 {
        processes := processes[pid := Some(processes[pid].value.(waitingThreads := processes[pid].value.waitingThreads - 1))];
        threads := threads[t := Some(threads[t].value.(wait := 0, state := Running))];
        return Some(pid);
      }
      ended := None;
    }

    // ---------- picking the next thread ----------

    method PopNextTid() returns (t: Option<nat>)
      requires Valid()
      modifies this`queueLoc
      ensures Valid()
      ensures if old(queueLoc) < queueEnd then t == Some(queue[old(queueLoc)]) && queueLoc == old(queueLoc) + 1
              else t == None && queueLoc == old(queueLoc)
    {
      if queueEnd - queueLoc > 0 {
        t := Some(queue[queueLoc]);
        queueLoc := queueLoc + 1;
      } else {
        t := None;
      }
    }

    /** The start of a turn: the next entry, a second round through the queue, or the idle thread. */
    method NextThread(looped: bool) returns (t: nat, loop: bool)
      requires Valid()
      modifies this`queueLoc
      ensures Valid() && (State(), t, loop) == NextEntry(old(State()), looped)
    {
      loop := looped;
      var next := PopNextTid();
      if next == None {
        if loop {
          next := Some(idleTid);
        } else {
          queueLoc := 0;
          next := PopNextTid();
          loop := true;
          if next == None {
            next := Some(idleTid);
          }
        }
      }
      t := next.value;
    }

    /** Moves the entries behind position `from` up by one, in place. */
    method CloseGap(from: nat)
      requires from < queueEnd <= queue.Length
      modifies queue
      ensures queue[..queueEnd - 1] == old(queue[..from] + queue[from + 1..queueEnd])
    {
      var i := from;
      while i < queueEnd - 1
        invariant from <= i <= queueEnd - 1
        invariant forall k :: 0 <= k < from ==> queue[k] == old(queue[k])
        invariant forall k :: from < k <= i ==> queue[k - 1] == old(queue[k])
        invariant forall k :: i <= k < queueEnd ==> queue[k] == old(queue[k])
      {
        queue[i] := queue[i + 1];
        i := i + 1;
      }
      forall k | 0 <= k < queueEnd - 1 ensures queue[k] == old(queue[..from] + queue[from + 1..queueEnd])[k] {
        assert from <= k ==> queue[(k + 1) - 1] == old(queue[k + 1]);
      }
    }

    /** The DEAD branch. */
    method RemoveDead(t: nat)
      requires Valid() && ThreadAt(State(), t) && 0 < queueLoc <= queueEnd
      modifies this`processes, this`threads, this`queueLoc, this`queueEnd, queue
      ensures Valid() && State() == Bury(old(State()), t)
    {
      ghost var q := queue[..queueEnd];
      CloseGap(queueLoc - 1);
      assert queue[..queueEnd - 1] == q[..queueLoc - 1] + q[queueLoc..];
      queueEnd := queueEnd - 1;
      queueLoc := queueLoc - 1;
      var w := threads[t].value.wait;
      if w != 0 {
        if w < |processes| && processes[w].Some? {
          processes := processes[w := Some(processes[w].value.(waitingThreads := processes[w].value.waitingThreads - 1))];
        }
      }
      threads := threads[t := None];
    }

    /** The switch on the state of the thread taken. */
    method TakeTurn(t: nat, env: Env)
      requires Valid() && currentTid == None && NoPanic(State(), t)
      requires threads[t].value.state == Dead ==> 0 < queueLoc <= queueEnd
      requires WaitEnded(State(), t)
      modifies this`processes, this`threads, this`queueLoc, this`queueEnd, this`currentTid, this`currentPid, queue
      ensures Valid() && State() == Visit(old(State()), t, env)
    {
      var r := threads[t].value;
      match r.state {
        case Running =>
          currentPid, currentTid := r.pid, Some(t);
        case Suspended =>
        case Waiting =>
          if r.waitMsg.Some? {
            if (r.waitMsg.value, r.pid) in env.ready {
              threads := threads[t := Some(r.(waitMsg := None, state := Running))];
            }
          } else {
            var ended := CheckWaitingThread(t);
            if ended.Some? {
              currentPid, currentTid := r.pid, Some(t);
              threads := threads[t := Some(threads[t].value.(eax := processes[ended.value].value.exitcode))];
              ReapProcess(ended.value);
            }
          }
        case Starting =>
          StartThread(t, env);
        case Exiting =>
          threads := threads[t := Some(r.(state := Dead))];
        case Dead =>
          RemoveDead(t);
      }
    }

    /** The STARTING branch; the program loader either starts the thread or leaves the process loading. */
    method StartThread(t: nat, env: Env)
      requires Valid() && ThreadAt(State(), t) && ProcessAt(State(), threads[t].value.pid)
      modifies this`processes, this`threads
      ensures Valid() && State() == Start(old(State()), t, env)
    {
      var r := threads[t].value;
      if r.privilege == 0 {
        threads := threads[t := Some(r.(state := Running))];
        return;
      }
      var p := processes[r.pid].value;
      match p.state {
        case PStarting =>
          if r.pid in env.loadable {
            threads := threads[t := Some(r.(state := Running))];
            processes := processes[r.pid := Some(p.(state := PRunning))];
          } else {
            processes := processes[r.pid := Some(p.(state := PLoading))];
          }
        case PRunning =>
          threads := threads[t := Some(r.(state := Running))];
        case PLoading =>
          threads := threads[t := Some(r.(state := Running))];
        case PExiting =>
      }
    }

    /** The loop ends, and none of the three panics in front of the switch can happen in it. */
    method PickNext(env: Env)
      requires Valid() && Sound(State())
      modifies this`processes, this`threads, this`queueLoc, this`queueEnd, this`currentTid, this`currentPid, queue
      ensures Valid() && State() == Pick(old(State()), env)
    {
      hide Sound, Visit, NoPanic, WaitEnded, ChecksPass;
      IdleNotWaiting(State());
      NoneSelected(State());
      ghost var picked := Pick(State(), env);
      currentTid := None;
      var loop := false;
      while currentTid == None
        invariant Valid() && Sound(State()) && ThreadAt(State(), idleTid)
        invariant if currentTid == None then PickFrom(State(), loop, env) == picked else State() == picked
        decreases currentTid == None, !loop, queueEnd - queueLoc, State().threads[idleTid].value.state == Starting
      {
        NextEntrySound(State(), loop);
        var t: nat;
        t, loop := NextThread(loop);
        TurnReady(State(), t);
        VisitShape(State(), t, env);
        VisitSound(State(), t, env);
        assert ChecksPass(State(), t);
        TakeTurn(t, env);
        IdleNotWaiting(State());
      }
    }
  }
}
