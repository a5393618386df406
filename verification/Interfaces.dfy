/**
 kernel/kernel/sched/interface.c as it stands: interface records with growing message arrays, shifted in place,
 and threads that point at the interface they wait for.
 */
module Interfaces {
  import opened Wrappers
  import opened Bytes
  import opened Errno
  import opened InterfaceState
  import SchedState

  const LIST_INCREMENT: nat := 32

  class Interface {
    const name: string
    const creatorPid: int
    const flags: bv32
    var messages: array<Message>
    var messagesCount: nat

    ghost predicate Valid()
      reads this
    {
      messagesCount <= messages.Length
    }

    ghost function Contents(): seq<Message>
      reads this, messages
      requires Valid()
    {
      messages[..messagesCount]
    }

    ghost function View(): Queue
      reads this, messages
      requires Valid()
    {
      Queue(name, creatorPid, flags, Contents())
    }

    constructor (name: string, pid: int, flags: bv32)
      ensures Valid() && fresh(messages)
      ensures View() == Queue(name, pid, flags, [])
    {
      this.name, creatorPid, this.flags := name, pid, flags;
      messages := new Message[LIST_INCREMENT];
      messagesCount := 0;
    }

    /** The scan of interface_recv: the first message for `me`, or -1. */
    method FindMessage(me: int) returns (mid: int)
      requires Valid()
      ensures var k := Oldest(Contents(), me, creatorPid); mid == if k < messagesCount then k else -1
    {
      mid := -1;
      var i := 0;
      while i < messagesCount
        invariant i <= messagesCount
        invariant Oldest(Contents(), me, creatorPid) == i + Oldest(Contents()[i..], me, creatorPid)
      {
        if messages[i].pid == me {
          return i;
        } else if messages[i].pid == 0 {
          if creatorPid == me {
            return i;
          }
        } else if messages[i].pid == -1 {
          return i;
        }
        assert Contents()[i..][1..] == Contents()[i + 1..];
        i := i + 1;
      }
    }

    /** interface_has_msg. */
    method HasMessage(me: int) returns (r: bool)
      requires Valid()
      ensures r <==> HasEligible(Contents(), me, creatorPid)
    {
      var i := 0;
      while i < messagesCount
        invariant i <= messagesCount
        invariant forall k :: 0 <= k < i ==> !Eligible(Contents()[k], me, creatorPid)
      {
        if messages[i].pid == me || (messages[i].pid == 0 && creatorPid == me) || messages[i].pid == -1 {
          assert Eligible(Contents()[i], me, creatorPid);
          return true;
        }
        i := i + 1;
      }
      r := false;
    }

    method QueuedBytes() returns (queued: nat)
      requires Valid()
      ensures queued == TotalBytes(Contents())
    {
      queued := 0;
      var i := 0;
      while i < messagesCount
        invariant i <= messagesCount
        invariant queued == TotalBytes(Contents()[..i])
      {
        assert Contents()[..i + 1][..i] == Contents()[..i];
        queued := queued + |messages[i].buf|;
        i := i + 1;
      }
      assert Contents()[..i] == Contents();
    }

    /** A larger array with the same messages, when the present one is full. */
    method Grow()
      requires Valid()
      modifies this`messages
      ensures Valid() && messagesCount < messages.Length && Contents() == old(Contents())
      ensures messages == old(messages) || fresh(messages)
    {
      if messagesCount >= messages.Length {
        var larger := new Message[messages.Length + LIST_INCREMENT];
        var i := 0;
        while i < messagesCount
          modifies larger
          invariant i <= messagesCount
          invariant larger[..i] == messages[..i]
        {
          larger[i] := messages[i];
          i := i + 1;
        }
        messages := larger;
      }
    }

    method Append(m: Message)
      requires Valid() && messagesCount < messages.Length
      modifies this`messagesCount, messages
      ensures Valid() && Contents() == old(Contents()) + [m]
    {
      messages[messagesCount] := m;
      messagesCount := messagesCount + 1;
    }

    /** Takes the message at position `mid` out by moving the later ones up, in place. */
    method Remove(mid: nat)
      requires Valid() && mid < messagesCount
      modifies this`messagesCount, messages
      ensures Valid() && Contents() == old(Contents()[..mid] + Contents()[mid + 1..])
    {
      var i := mid;
      while i < messagesCount - 1
        modifies messages
        invariant mid <= i <= messagesCount - 1
        invariant forall k :: 0 <= k < mid ==> messages[k] == old(messages[k])
        invariant forall k :: mid < k <= i ==> messages[k - 1] == old(messages[k])
        invariant forall k :: i <= k < messagesCount ==> messages[k] == old(messages[k])
      {
        messages[i] := messages[i + 1];
        i := i + 1;
      }
      forall k | 0 <= k < messagesCount - 1 ensures messages[k] == old(Contents()[..mid] + Contents()[mid + 1..])[k] {
        assert mid <= k ==> messages[(k + 1) - 1] == old(messages[k + 1]);
      }
      messagesCount := messagesCount - 1;
    }
  }

  /** The part of a thread record that interfaces look at. */
  datatype Thread = Thread(pid: int, state: SchedState.ThreadState, wait: nat, waitMsg: Interface?)

  predicate WaitsOn(t: Option<Thread>, q: Interface) {
    t.Some? && t.value.state == SchedState.Waiting && t.value.waitMsg == q
  }

  /** A waiter woken because its interface goes away. */
  function Woken(t: Option<Thread>, q: Interface): Option<Thread> {
    if WaitsOn(t, q) then Some(t.value.(waitMsg := null, wait := 0, state := SchedState.Running)) else t
  }

  // ---------- the list of interfaces ----------

  /** The records are distinct and own distinct arrays. */
  ghost predicate ListOk(list: seq<Interface>)
    reads list
  {
    && (forall i :: 0 <= i < |list| ==> list[i].Valid())
    && (forall i, j :: 0 <= i < j < |list| ==> list[i] != list[j] && list[i].messages != list[j].messages)
  }

  ghost function Arrays(list: seq<Interface>): set<array<Message>>
    reads list
  {
    set i | 0 <= i < |list| :: list[i].messages
  }

  ghost function Views(list: seq<Interface>): (qs: seq<Queue>)
    reads list, Arrays(list)
    requires ListOk(list)
    ensures |qs| == |list|
    ensures forall i :: 0 <= i < |qs| ==> qs[i] == list[i].View()
  {
    seq(|list|, i requires 0 <= i < |list| && ListOk(list) reads list, Arrays(list) => list[i].View())
  }

  lemma ViewsWithout(list: seq<Interface>, qid: nat)
    requires ListOk(list) && qid < |list|
    ensures var rest := list[..qid] + list[qid + 1..];
            && ListOk(rest) && list[qid] !in rest
            && Views(rest) == Views(list)[..qid] + Views(list)[qid + 1..]
  {
    var rest := list[..qid] + list[qid + 1..];
    assert forall k :: 0 <= k < |rest| ==> rest[k] == list[if k < qid then k else k + 1];
  }

  ghost predicate NoDanglingWait(threads: seq<Option<Thread>>, list: seq<Interface>) {
    forall t :: 0 <= t < |threads| && threads[t].Some? && threads[t].value.state == SchedState.Waiting ==>
      threads[t].value.waitMsg == null || threads[t].value.waitMsg in list
  }

  /** Once its waiters are woken, an interface can be unlisted without leaving a dangling pointer. */
  lemma StillLinked(threads: seq<Option<Thread>>, list: seq<Interface>, qid: nat, threads': seq<Option<Thread>>)
    requires NoDanglingWait(threads, list) && qid < |list| && |threads'| == |threads|
    requires forall t :: 0 <= t < |threads| ==> threads'[t] == Woken(threads[t], list[qid])
    ensures NoDanglingWait(threads', list[..qid] + list[qid + 1..])
  {
    var rest := list[..qid] + list[qid + 1..];
    forall q | q in list && q != list[qid] ensures q in rest {
      var k :| 0 <= k < |list| && list[k] == q;
      assert rest[if k < qid then k else k - 1] == q;
    }
  }

  class Manager {
    var intfaces: seq<Interface>
    var threads: seq<Option<Thread>>

    /** In particular no waiting thread points at anything but a listed interface. */
    ghost predicate Valid()
      reads this, intfaces
    {
      ListOk(intfaces) && NoDanglingWait(threads, intfaces)
    }

    ghost function State(): (qs: seq<Queue>)
      reads this, intfaces, Arrays(intfaces)
      requires Valid()
      ensures |qs| == |intfaces|
    {
      Views(intfaces)
    }

    constructor (threads: seq<Option<Thread>>)
      requires forall t :: 0 <= t < |threads| && threads[t].Some? ==> threads[t].value.waitMsg == null
      ensures Valid() && State() == [] && this.threads == threads
    {
      intfaces := [];
      this.threads := threads;
    }

    method FindInterface(name: string) returns (qid: int)
      requires Valid()
      ensures var i := Find(State(), name); qid == if i < |intfaces| then i else -ENOENT
    {
      var i := 0;
      while i < |intfaces|
        invariant i <= |intfaces|
        invariant Find(State(), name) == i + Find(State()[i..], name)
      {
        if intfaces[i].name == name {
          return i;
        }
        assert State()[i..][1..] == State()[i + 1..];
        i := i + 1;
      }
      qid := -ENOENT;
    }

    method Create(name: string, pid: int, flags: bv32) returns (r: int)
      requires Valid()
      modifies this`intfaces
      ensures Valid() && (r, State()) == InterfaceState.Create(old(State()), name, pid, flags)
    {
      hide Find, Views;
      var qid := FindInterface(name);
      assert State() == old(State());
      if qid != -ENOENT { return -EEXIST; }
      if |intfaces| >= MAX_INTERFACES { return -ENOSPC; }
      ghost var qs := State();
      var q := new Interface(name, pid, flags);
      intfaces := intfaces + [q];
      assert State() == qs + [q.View()];
      r := 0;
    }

    /** The bound of the scan for waiters is the thread table; every one that waits on `q` is woken. */
    method WakeWaiters(q: Interface)
      modifies this`threads
      ensures |threads| == |old(threads)|
      ensures forall t :: 0 <= t < |threads| ==> threads[t] == Woken(old(threads)[t], q)
    {
      var i := 0;
      while i < |threads|
        invariant i <= |threads| == |old(threads)|
        invariant forall t :: i <= t < |threads| ==> threads[t] == old(threads)[t]
        invariant forall t :: 0 <= t < i ==> threads[t] == Woken(old(threads)[t], q)
      {
        if threads[i] != None && threads[i].value.state == SchedState.Waiting && threads[i].value.waitMsg == q {
          threads := threads[i := Some(threads[i].value.(waitMsg := null, wait := 0, state := SchedState.Running))];
        }
        i := i + 1;
      }
    }

    /** Closes the gap that interface `qid` leaves in the list. */
    method Unlist(qid: nat)
      requires qid < |intfaces|
      modifies this`intfaces
      ensures intfaces == old(intfaces[..qid] + intfaces[qid + 1..])
    {
      var i := qid;
      while i < |intfaces| - 1
        invariant qid <= i <= |intfaces| - 1 && |intfaces| == |old(intfaces)|
        invariant forall k :: 0 <= k < qid ==> intfaces[k] == old(intfaces)[k]
        invariant forall k :: qid < k <= i ==> intfaces[k - 1] == old(intfaces)[k]
        invariant forall k :: i <= k < |intfaces| ==> intfaces[k] == old(intfaces)[k]
      {
        intfaces := intfaces[i := intfaces[i + 1]];
        i := i + 1;
      }
      forall k | 0 <= k < |intfaces| - 1 ensures intfaces[k] == old(intfaces[..qid] + intfaces[qid + 1..])[k] {
        assert qid <= k ==> intfaces[(k + 1) - 1] == old(intfaces)[k + 1];
      }
      intfaces := intfaces[..|intfaces| - 1];
    }

    /** No waiting thread keeps a pointer to the deleted interface: Valid() would not hold. */
    method Delete(name: string, pid: int) returns (r: int)
      requires Valid()
      modifies this
      ensures Valid() && (r, State()) == InterfaceState.Delete(old(State()), name, pid)
      ensures |threads| == |old(threads)|
      ensures r != 0 ==> threads == old(threads)
      ensures var i := Find(old(State()), name);
              r == 0 ==> i < |old(intfaces)| && old(intfaces)[i] !in intfaces
                         && forall t :: 0 <= t < |threads| ==> threads[t] == Woken(old(threads)[t], old(intfaces)[i])
      ensures r == 0 ==> forall t :: 0 <= t < |threads| && old(threads)[t] != None ==>
                && threads[t] != None
                && if old(threads)[t].value.state == SchedState.Waiting && old(threads)[t].value.waitMsg in old(intfaces)
                      && old(threads)[t].value.waitMsg !in intfaces
                   then threads[t].value.state == SchedState.Running && threads[t].value.wait == 0 && threads[t].value.waitMsg == null
                   else threads[t] == old(threads)[t]
    {
      var qid := FindInterface(name);
      hide Find, Views, ListOk, NoDanglingWait, Woken;
      if qid < 0 {
        assert State() == old(State());
        return qid;
      }
      assert State()[qid].creator == intfaces[qid].creatorPid && State() == old(State());
      if intfaces[qid].creatorPid != pid { return -EACCES; }
      ghost var list := intfaces;
      WakeWaiters(intfaces[qid]);
      Unlist(qid);
      assert ListOk(list) && Views(list) == old(State());
      ViewsWithout(list, qid);
      StillLinked(old(threads), old(intfaces), qid, threads);
      r := 0;
    }

    /** Room for one more message in interface `qid`. */
    method MakeRoom(qid: nat)
      requires Valid() && qid < |intfaces|
      modifies intfaces, Arrays(intfaces)
      ensures Valid() && State() == old(State())
      ensures intfaces[qid].messagesCount < intfaces[qid].messages.Length
      ensures fresh(Arrays(intfaces) - old(Arrays(intfaces)))
    {
      ghost var qs := State();
      intfaces[qid].Grow();
      assert State() == qs;
    }

    method Put(qid: nat, m: Message)
      requires Valid() && qid < |intfaces| && intfaces[qid].messagesCount < intfaces[qid].messages.Length
      modifies intfaces, Arrays(intfaces)
      ensures Valid() && State() == SetMessages(old(State()), qid, old(State())[qid].messages + [m])
    {
      ghost var qs := State();
      intfaces[qid].Append(m);
      assert State() == SetMessages(qs, qid, qs[qid].messages + [m]);
    }

    method Take(qid: nat, mid: nat)
      requires Valid() && qid < |intfaces| && mid < intfaces[qid].messagesCount
      modifies intfaces, Arrays(intfaces)
      ensures Valid()
      ensures var ms := old(State())[qid].messages;
              mid < |ms| && State() == SetMessages(old(State()), qid, ms[..mid] + ms[mid + 1..])
    {
      ghost var qs := State();
      intfaces[qid].Remove(mid);
      assert State() == SetMessages(qs, qid, qs[qid].messages[..mid] + qs[qid].messages[mid + 1..]);
    }

    /** The checks of interface_send, in its order. */
    method CheckSend(q: Interface, sender: int, to: int, size: nat, alive: set<int>) returns (r: int)
      requires q.Valid()
      ensures forall buf: seq<byte> :: |buf| == size ==> r == Refusal(q.View(), alive, Message(to, sender, buf))
    {
      hide TotalBytes;
      if size > MAX_MESSAGE_SIZE { return -EMSGSIZE; }
      if q.messagesCount >= MAX_MESSAGES { return -ENOSPC; }
      var queued := q.QueuedBytes();
      if queued > MAX_QUEUE_BYTES || size > MAX_QUEUE_BYTES - queued { return -ENOSPC; }
      if q.flags & FLAG_PRIVATE != 0 {
        if sender != q.creatorPid && to != 0 { return -EACCES; }
      }
      if to == 0 {
        if q.creatorPid !in alive { return -EOWNERDEAD; }
      }
      r := 0;
    }

    /** interface_send once the interface is found. */
    method SendTo(qid: nat, sender: int, to: int, buf: seq<byte>, copied: bool, alive: set<int>) returns (r: int)
      requires Valid() && qid < |intfaces|
      modifies intfaces, Arrays(intfaces)
      ensures Valid()
      ensures var m, q := Message(to, sender, buf), old(State())[qid];
              && r == (if Refusal(q, alive, m) != 0 then Refusal(q, alive, m) else if copied then 0 else -EFAULT)
              && State() == if r == 0 then SetMessages(old(State()), qid, q.messages + [m]) else old(State())
    {
      hide Views, TotalBytes, Refusal, NoDanglingWait, ListOk;
      ghost var qs := State();
      InterfaceValid(qid);
      r := CheckSend(intfaces[qid], sender, to, |buf|, alive);
      assert r == Refusal(qs[qid], alive, Message(to, sender, buf));
      if r != 0 {
        assert State() == qs;
        return r;
      }
      MakeRoom(qid);
      if !copied { return -EFAULT; }
      Put(qid, Message(to, sender, buf));
    }

    lemma InterfaceValid(qid: nat)
      requires Valid() && qid < |intfaces|
      ensures intfaces[qid].Valid() && State()[qid] == intfaces[qid].View()
    {
    }

    lemma Answers(qs: seq<Queue>, alive: set<int>, name: string, m: Message, copied: bool)
      ensures forall i: nat :: i < |qs| && qs[i].name == name && (forall j :: 0 <= j < i ==> qs[j].name != name) ==>
                var (r, qs') := InterfaceState.Send(qs, alive, name, m, copied);
                var q := qs[i];
                && (r == 0 <==>
                      && |m.buf| <= 1048576 && |q.messages| < 1024 && TotalBytes(q.messages) + |m.buf| <= 4194304
                      && (q.flags & 1 == 0 || m.sender == q.creator || m.pid == 0)
                      && (m.pid == 0 ==> q.creator in alive) && copied)
                && (r == 0 ==> qs' == qs[i := q.(messages := q.messages + [m])])
                && (r != 0 ==> qs' == qs)
    {
      forall i: nat | i < |qs| && qs[i].name == name && (forall j :: 0 <= j < i ==> qs[j].name != name)
        ensures InterfaceState.Send(qs, alive, name, m, copied).0 == 0 ==>
                  InterfaceState.Send(qs, alive, name, m, copied).1 == qs[i := qs[i].(messages := qs[i].messages + [m])]
      {
        SendAnswer(qs, alive, name, m, copied, i);
      }
    }

    method Send(name: string, sender: int, to: int, buf: seq<byte>, copied: bool, alive: set<int>) returns (r: int)
      requires Valid()
      modifies intfaces, Arrays(intfaces)
      ensures Valid()
      ensures (r, State()) == InterfaceState.Send(old(State()), alive, name, Message(to, sender, buf), copied)
      ensures forall i: nat :: i < |old(State())| && old(State())[i].name == name && (forall j :: 0 <= j < i ==> old(State())[j].name != name) ==>
                var q := old(State())[i];
                && (r == 0 <==>
                      && |buf| <= 1048576 && |q.messages| < 1024 && TotalBytes(q.messages) + |buf| <= 4194304
                      && (q.flags & 1 == 0 || sender == q.creator || to == 0)
                      && (to == 0 ==> q.creator in alive) && copied)
                && (r == 0 ==> State() == old(State())[i := q.(messages := q.messages + [Message(to, sender, buf)])])
                && (r != 0 ==> State() == old(State()))
    {
      Answers(old(State()), alive, name, Message(to, sender, buf), copied);
      hide Find, Views, TotalBytes, Refusal, NoDanglingWait, ListOk;
      var qid := FindInterface(name);
      if qid < 0 {
        assert State() == old(State());
        return qid;
      }
      r := SendTo(qid, sender, to, buf, copied, alive);
    }

    /** interface_recv once the interface is found; `written` is what reaches the caller's buffer. */
    method ReceiveFrom(qid: nat, me: int, size: nat, bufWritable: bool, sizeWritable: bool) returns (r: int, written: seq<byte>)
      requires Valid() && qid < |intfaces|
      modifies intfaces, Arrays(intfaces)
      ensures Valid()
      ensures var ms := old(State())[qid].messages; var k := Oldest(ms, me, old(State())[qid].creator);
              if k == |ms| || !bufWritable || !sizeWritable
              then r == (if k == |ms| then -EAGAIN else -EFAULT) && State() == old(State())
              else r == ms[k].sender && State() == SetMessages(old(State()), qid, ms[..k] + ms[k + 1..])
                   && written == ms[k].buf[..if size < |ms[k].buf| then size else |ms[k].buf|]
    {
      hide Views, Oldest, NoDanglingWait, ListOk;
      InterfaceValid(qid);
      var q := intfaces[qid];
      var mid := q.FindMessage(me);
      if mid == -1 { return -EAGAIN, []; }
      var m := q.messages[mid];
      var trueSize := |m.buf|;
      if size < trueSize { trueSize := size; }
      if !bufWritable { return -EFAULT, []; }
      written := m.buf[..trueSize];
      if !sizeWritable { return -EFAULT, written; }
      Take(qid, mid);
      r := m.sender;
    }

    /** The oldest message for the caller, and as much of it as fits the caller's buffer. */
    method Receive(name: string, me: int, size: nat, bufWritable: bool, sizeWritable: bool)
      returns (r: int, written: seq<byte>)
      requires Valid()
      modifies intfaces, Arrays(intfaces)
      ensures Valid()
      ensures var (r', m, qs) := InterfaceState.Receive(old(State()), name, me, bufWritable && sizeWritable);
              && r == r' && State() == qs
              && (m.Some? ==> written == m.value.buf[..if size < |m.value.buf| then size else |m.value.buf|])
    {
      hide Find, Views, Oldest, ListOk, NoDanglingWait;
      var qid := FindInterface(name);
      if qid < 0 {
        assert State() == old(State());
        return qid, [];
      }
      r, written := ReceiveFrom(qid, me, size, bufWritable, sizeWritable);
    }

    /** The thread now waits on the interface of that name, which is linked. */
    method Wait(name: string, t: nat) returns (r: int)
      requires Valid() && t < |threads| && threads[t].Some?
      modifies this`threads
      ensures Valid() && intfaces == old(intfaces) && State() == old(State())
      ensures var i := Find(State(), name);
              if i == |intfaces| then r == -ENOENT && threads == old(threads)
              else r == 0 && threads == old(threads)[t := Some(old(threads)[t].value.(state := SchedState.Waiting, wait := 0, waitMsg := intfaces[i]))]
    {
      hide Find, Views;
      var qid := FindInterface(name);
      if qid < 0 { return qid; }
      threads := threads[t := Some(threads[t].value.(state := SchedState.Waiting, wait := 0, waitMsg := intfaces[qid]))];
      r := 0;
    }
  }
}
