/**
 Interfaces (named message queues) as values: what each call of kernel/kernel/sched/interface.c returns and
 does to the list of interfaces, and what that means over whole runs.
 */
module InterfaceState {
  import opened Wrappers
  import opened Bytes
  import opened Errno

  const MAX_MESSAGE_SIZE: nat := 1048576
  const MAX_QUEUE_BYTES: nat := 4194304
  const MAX_MESSAGES: nat := 1024
  const MAX_INTERFACES: nat := 256
  const FLAG_PRIVATE: bv32 := 1

  /** `pid` is the addressee: a pid, 0 for the creator of the interface, or -1 for anybody. */
  datatype Message = Message(pid: int, sender: int, buf: seq<byte>)

  datatype Queue = Queue(name: string, creator: int, flags: bv32, messages: seq<Message>)

  predicate Eligible(m: Message, me: int, creator: int) {
    m.pid == me || (m.pid == 0 && creator == me) || m.pid == -1
  }

  ghost predicate HasEligible(ms: seq<Message>, me: int, creator: int) {
    exists k :: 0 <= k < |ms| && Eligible(ms[k], me, creator)
  }

  /** Position of the oldest message that `me` may receive; the length of the queue if there is none. */
  function Oldest(ms: seq<Message>, me: int, creator: int): (k: nat)
    ensures k <= |ms|
    ensures forall j :: 0 <= j < k ==> !Eligible(ms[j], me, creator)
    ensures k < |ms| ==> Eligible(ms[k], me, creator)
  {
    if ms == [] || Eligible(ms[0], me, creator) then 0 else 1 + Oldest(ms[1..], me, creator)
  }

  function TotalBytes(ms: seq<Message>): nat {
    if ms == [] then 0 else TotalBytes(ms[..|ms| - 1]) + |ms[|ms| - 1].buf|
  }

  /** Position of the first interface of that name; the length of the list if there is none. */
  function Find(qs: seq<Queue>, name: string): (i: nat)
    ensures i <= |qs|
    ensures forall j :: 0 <= j < i ==> qs[j].name != name
    ensures i < |qs| ==> qs[i].name == name
  {
    if qs == [] || qs[0].name == name then 0 else 1 + Find(qs[1..], name)
  }

  function SetMessages(qs: seq<Queue>, i: nat, ms: seq<Message>): seq<Queue>
    requires i < |qs|
  {
    qs[i := qs[i].(messages := ms)]
  }

  // ---------- the calls ----------

  function Create(qs: seq<Queue>, name: string, pid: int, flags: bv32): (int, seq<Queue>) {
    if Find(qs, name) < |qs| then (-EEXIST, qs)
    else if |qs| >= MAX_INTERFACES then (-ENOSPC, qs)
    else (0, qs + [Queue(name, pid, flags, [])])
  }

  function Delete(qs: seq<Queue>, name: string, pid: int): (int, seq<Queue>) {
    var i := Find(qs, name);
    if i == |qs| then (-ENOENT, qs)
    else if qs[i].creator != pid then (-EACCES, qs)
    else (0, qs[..i] + qs[i + 1..])
  }

  /** Whether `to` may be addressed by `sender`: on a private interface only the creator writes to other pids. */
  predicate MayAddress(q: Queue, sender: int, to: int) {
    q.flags & FLAG_PRIVATE != 0 ==> sender == q.creator || to == 0
  }

  /** Why a message is refused, 0 if it is not; `alive` are the pids with a process record. */
  function Refusal(q: Queue, alive: set<int>, m: Message): int {
    if |m.buf| > MAX_MESSAGE_SIZE then -EMSGSIZE
    else if |q.messages| >= MAX_MESSAGES then -ENOSPC
    else if TotalBytes(q.messages) + |m.buf| > MAX_QUEUE_BYTES then -ENOSPC
    else if !MayAddress(q, m.sender, m.pid) then -EACCES
    else if m.pid == 0 && q.creator !in alive then -EOWNERDEAD
    else 0
  }

  /** `copied` is whether the sender's buffer could be read. */
  function Send(qs: seq<Queue>, alive: set<int>, name: string, m: Message, copied: bool): (int, seq<Queue>) {
    var i := Find(qs, name);
    if i == |qs| then (-ENOENT, qs)
    else if Refusal(qs[i], alive, m) != 0 then (Refusal(qs[i], alive, m), qs)
    else if !copied then (-EFAULT, qs)
    else (0, SetMessages(qs, i, qs[i].messages + [m]))
  }

  /** The second component is the message taken from the queue; `writable` is whether both user copies succeed. */
  function Receive(qs: seq<Queue>, name: string, me: int, writable: bool): (int, Option<Message>, seq<Queue>) {
    var i := Find(qs, name);
    if i == |qs| then (-ENOENT, None, qs) else
    var ms := qs[i].messages;
    var k := Oldest(ms, me, qs[i].creator);
    if k == |ms| then (-EAGAIN, None, qs)
    else if !writable then (-EFAULT, None, qs)
    else (ms[k].sender, Some(ms[k]), SetMessages(qs, i, ms[..k] + ms[k + 1..]))
  }

  // ---------- what the calls answer, in numbers ----------

  /** `i` is the first interface of that name. */
  lemma FindFirst(qs: seq<Queue>, name: string, i: nat)
    requires i < |qs| && qs[i].name == name && forall j :: 0 <= j < i ==> qs[j].name != name
    ensures Find(qs, name) == i
  {
  }

  lemma FindNone(qs: seq<Queue>, name: string)
    requires forall j :: 0 <= j < |qs| ==> qs[j].name != name
    ensures Find(qs, name) == |qs|
  {
  }

  lemma TotalIsSum(ms: seq<Message>, m: Message)
    ensures TotalBytes([]) == 0 && TotalBytes(ms + [m]) == TotalBytes(ms) + |m.buf|
  {
    assert (ms + [m])[..|ms|] == ms;
  }

  /** A new interface belongs to its creator, with the flags given and no message; there is room for 256, of different names. */
  lemma CreateAnswer(qs: seq<Queue>, name: string, pid: int, flags: bv32)
    ensures var (r, qs') := Create(qs, name, pid, flags);
            && (r == 0 <==> |qs| < 256 && forall j :: 0 <= j < |qs| ==> qs[j].name != name)
            && (r == 0 ==> |qs'| == |qs| + 1 && qs'[..|qs|] == qs && qs'[|qs|].name == name && qs'[|qs|].creator == pid
                           && qs'[|qs|].flags == flags && qs'[|qs|].messages == [])
            && (r != 0 ==> qs' == qs && r == if exists j :: 0 <= j < |qs| && qs[j].name == name then -5 else -13)
  {
    if forall j :: 0 <= j < |qs| ==> qs[j].name != name { FindNone(qs, name); }
  }

  /** Only the creator deletes an interface, and the others stay in order. */
  lemma DeleteAnswer(qs: seq<Queue>, name: string, pid: int)
    ensures (forall j :: 0 <= j < |qs| ==> qs[j].name != name) ==> Delete(qs, name, pid) == (-2, qs)
    ensures forall i: nat :: i < |qs| && qs[i].name == name && (forall j :: 0 <= j < i ==> qs[j].name != name) ==>
              Delete(qs, name, pid) == if qs[i].creator == pid then (0, qs[..i] + qs[i + 1..]) else (-4, qs)
  {
    if forall j :: 0 <= j < |qs| ==> qs[j].name != name { FindNone(qs, name); }
  }

  /**
   A message is queued exactly if its size is at most 1 MiB, fewer than 1024 messages with at most 4 MiB together are
   queued, the sender may address it on a private interface, a creator it goes to is alive, and it can be read.
   */
  lemma SendAnswer(qs: seq<Queue>, alive: set<int>, name: string, m: Message, copied: bool, i: nat)
    requires i < |qs| && qs[i].name == name && forall j :: 0 <= j < i ==> qs[j].name != name
    ensures var (r, qs') := Send(qs, alive, name, m, copied);
            var q := qs[i];
            && (r == 0 <==>
                  && |m.buf| <= 1048576 && |q.messages| < 1024 && TotalBytes(q.messages) + |m.buf| <= 4194304
                  && (q.flags & 1 == 0 || m.sender == q.creator || m.pid == 0)
                  && (m.pid == 0 ==> q.creator in alive) && copied)
            && (r == 0 ==> |qs'| == |qs| && qs'[i].messages == q.messages + [m] && qs'[i].(messages := q.messages) == q
                           && forall j :: 0 <= j < |qs| && j != i ==> qs'[j] == qs[j])
            && (r != 0 ==> qs' == qs)
            && (r != 0 ==> r == if |m.buf| > 1048576 then -14
                                else if |q.messages| >= 1024 || TotalBytes(q.messages) + |m.buf| > 4194304 then -13
                                else if q.flags & 1 != 0 && m.sender != q.creator && m.pid != 0 then -4
                                else if m.pid == 0 && q.creator !in alive then -9 else -7)
  {
    hide Find, TotalBytes;
    FindFirst(qs, name, i);
  }

  /** A reader gets the sender and the message that is the oldest for it, for the creator it is, or for anybody. */
  lemma ReceiveAnswer(qs: seq<Queue>, name: string, me: int, writable: bool, i: nat)
    requires i < |qs| && qs[i].name == name && forall j :: 0 <= j < i ==> qs[j].name != name
    ensures var (r, m, qs') := Receive(qs, name, me, writable);
            var ms, creator := qs[i].messages, qs[i].creator;
            && ((forall k :: 0 <= k < |ms| ==> ms[k].pid != me && ms[k].pid != -1 && !(ms[k].pid == 0 && creator == me)) ==>
                  r == -6 && m == None && qs' == qs)
            && forall k :: (&& 0 <= k < |ms| && (ms[k].pid == me || ms[k].pid == -1 || (ms[k].pid == 0 && creator == me))
                            && forall l :: 0 <= l < k ==> ms[l].pid != me && ms[l].pid != -1 && !(ms[l].pid == 0 && creator == me)) ==>
                   if writable
                   then r == ms[k].sender && m == Some(ms[k]) && qs' == qs[i := qs[i].(messages := ms[..k] + ms[k + 1..])]
                   else r == -7 && m == None && qs' == qs
  {
    hide Find;
    FindFirst(qs, name, i);
    var ms, creator := qs[i].messages, qs[i].creator;
    forall k | 0 <= k < |ms| && (ms[k].pid == me || ms[k].pid == -1 || (ms[k].pid == 0 && creator == me))
               && (forall l :: 0 <= l < k ==> ms[l].pid != me && ms[l].pid != -1 && !(ms[l].pid == 0 && creator == me))
      ensures Oldest(ms, me, creator) == k
    {
      assert Eligible(ms[k], me, creator);
    }
  }

  /** Without an interface of that name nothing is sent or received. */
  lemma NoSuchName(qs: seq<Queue>, alive: set<int>, name: string, m: Message, ok: bool, me: int)
    requires forall j :: 0 <= j < |qs| ==> qs[j].name != name
    ensures Send(qs, alive, name, m, ok) == (-2, qs) && Receive(qs, name, me, ok) == (-2, None, qs)
  {
    FindNone(qs, name);
  }

  // ---------- the list as a finite map ----------

  ghost predicate NamesDistinct(qs: seq<Queue>) {
    forall i, j :: 0 <= i < j < |qs| ==> qs[i].name != qs[j].name
  }

  function Named(qs: seq<Queue>, name: string): Option<Queue> {
    if Find(qs, name) < |qs| then Some(qs[Find(qs, name)]) else None
  }

  /** The first queue of a name is the only one. */
  lemma FindUnique(qs: seq<Queue>, i: nat)
    requires NamesDistinct(qs) && i < |qs|
    ensures Find(qs, qs[i].name) == i
  {
  }

  lemma NamedAfterCreate(qs: seq<Queue>, q: Queue, name: string)
    requires NamesDistinct(qs) && Find(qs, q.name) == |qs|
    ensures NamesDistinct(qs + [q])
    ensures Named(qs + [q], name) == if name == q.name then Some(q) else Named(qs, name)
  {
    hide Find;
    var i := Find(qs, name);
    assert forall k :: 0 <= k < |qs| ==> (qs + [q])[k] == qs[k];
    if i < |qs| {
      FindUnique(qs + [q], i);
    } else if name == q.name {
      FindUnique(qs + [q], |qs|);
    }
  }

  lemma NamedAfterDelete(qs: seq<Queue>, i: nat, name: string)
    requires NamesDistinct(qs) && i < |qs|
    ensures NamesDistinct(qs[..i] + qs[i + 1..])
    ensures Named(qs[..i] + qs[i + 1..], name) == if name == qs[i].name then None else Named(qs, name)
  {
    var qs' := qs[..i] + qs[i + 1..];
    assert forall k :: 0 <= k < |qs'| ==> qs'[k] == qs[if k < i then k else k + 1];
    var k := Find(qs, name);
    if k < |qs| && k != i {
      var k' := if k < i then k else k - 1;
      assert qs'[k'] == qs[k];
      FindUnique(qs', k');
    }
  }

  lemma NamedAfterSet(qs: seq<Queue>, i: nat, ms: seq<Message>, name: string)
    requires NamesDistinct(qs) && i < |qs|
    ensures NamesDistinct(SetMessages(qs, i, ms))
    ensures Named(SetMessages(qs, i, ms), name) == if name == qs[i].name then Some(qs[i].(messages := ms)) else Named(qs, name)
  {
    var qs', k := SetMessages(qs, i, ms), Find(qs, name);
    if k < |qs| {
      assert qs'[k].name == name;
      FindUnique(qs', k);
      FindUnique(qs, k);
    }
  }

  // ---------- bounds ----------

  ghost predicate QueueBounded(q: Queue) {
    && |q.messages| <= MAX_MESSAGES
    && TotalBytes(q.messages) <= MAX_QUEUE_BYTES
    && forall k :: 0 <= k < |q.messages| ==> |q.messages[k].buf| <= MAX_MESSAGE_SIZE
  }

  ghost predicate Bounded(qs: seq<Queue>) {
    && |qs| <= MAX_INTERFACES && NamesDistinct(qs)
    && forall i :: 0 <= i < |qs| ==> QueueBounded(qs[i])
  }

  lemma {:induction false} TotalWithout(ms: seq<Message>, k: nat)
    requires k < |ms|
    ensures TotalBytes(ms) == TotalBytes(ms[..k] + ms[k + 1..]) + |ms[k].buf|
  {
    var n := |ms| - 1;
    var rest := ms[..k] + ms[k + 1..];
    if k == n {
      assert rest == ms[..n];
    } else {
      TotalWithout(ms[..n], k);
      assert rest[..|rest| - 1] == ms[..n][..k] + ms[..n][k + 1..];
    }
  }

  // ---------- runs ----------

  datatype Event =
    | Created(name: string, pid: int, flags: bv32)
    | Deleted(name: string, pid: int)
    | Sent(name: string, m: Message, copied: bool, alive: set<int>)
    | Received(name: string, me: int, writable: bool)

  function Step(qs: seq<Queue>, e: Event): seq<Queue> {
    match e
    case Created(name, pid, flags) => Create(qs, name, pid, flags).1
    case Deleted(name, pid) => Delete(qs, name, pid).1
    case Sent(name, m, copied, alive) => Send(qs, alive, name, m, copied).1
    case Received(name, me, writable) => Receive(qs, name, me, writable).2
  }

  function Run(events: seq<Event>): seq<Queue> {
    if events == [] then [] else Step(Run(events[..|events| - 1]), events[|events| - 1])
  }

  lemma SendBounded(qs: seq<Queue>, alive: set<int>, name: string, m: Message, copied: bool)
    requires Bounded(qs)
    ensures Bounded(Send(qs, alive, name, m, copied).1)
  {
    hide Find, NamesDistinct, MayAddress;
    if Send(qs, alive, name, m, copied).0 == 0 {
      var i := Find(qs, name);
      var ms := qs[i].messages;
      assert QueueBounded(qs[i]);
      NamedAfterSet(qs, i, ms + [m], name);
      assert (ms + [m])[..|ms|] == ms;
    }
  }

  lemma ReceiveBounded(qs: seq<Queue>, name: string, me: int, writable: bool)
    requires Bounded(qs)
    ensures Bounded(Receive(qs, name, me, writable).2)
  {
    hide Find, NamesDistinct, Oldest;
    if Receive(qs, name, me, writable).1.Some? {
      var i := Find(qs, name);
      var ms := qs[i].messages;
      var k := Oldest(ms, me, qs[i].creator);
      assert QueueBounded(qs[i]);
      NamedAfterSet(qs, i, ms[..k] + ms[k + 1..], name);
      TotalWithout(ms, k);
    }
  }

  lemma EmptyBounded(name: string, pid: int, flags: bv32)
    ensures QueueBounded(Queue(name, pid, flags, []))
  {
  }

  lemma BoundedStep(qs: seq<Queue>, e: Event)
    requires Bounded(qs)
    ensures Bounded(Step(qs, e))
  {
    hide Find, NamesDistinct, Send, Receive, QueueBounded;
    match e
    case Created(name, pid, flags) =>
      if Create(qs, name, pid, flags).0 == 0 {
        NamedAfterCreate(qs, Queue(name, pid, flags, []), name);
        EmptyBounded(name, pid, flags);
      }
    case Deleted(name, pid) =>
      if Delete(qs, name, pid).0 == 0 {
        NamedAfterDelete(qs, Find(qs, name), name);
      }
    case Sent(name, m, copied, alive) => SendBounded(qs, alive, name, m, copied);
    case Received(name, me, writable) => ReceiveBounded(qs, name, me, writable);
  }

  /** In every run names stay unique, and interfaces, messages and bytes stay within the limits. */
  lemma {:induction false} RunBounded(events: seq<Event>)
    ensures Bounded(Run(events))
  {
    if events != [] {
      RunBounded(events[..|events| - 1]);
      BoundedStep(Run(events[..|events| - 1]), events[|events| - 1]);
    }
  }

  /** A message can be received exactly when the scheduler would wake a thread waiting for one. */
  lemma ReceiveOrWait(qs: seq<Queue>, name: string, me: int, writable: bool)
    requires Find(qs, name) < |qs|
    ensures var q := qs[Find(qs, name)];
            && (Receive(qs, name, me, true).1.Some? <==> HasEligible(q.messages, me, q.creator))
            && (Receive(qs, name, me, true).1 == None <==> Receive(qs, name, me, true) == (-EAGAIN, None, qs))
            && (Receive(qs, name, me, writable).1 == None ==> Receive(qs, name, me, writable).2 == qs)
  {
    var q := qs[Find(qs, name)];
    var k := Oldest(q.messages, me, q.creator);
    if k < |q.messages| { assert Eligible(q.messages[k], me, q.creator); }
  }

  // ---------- delivery ----------

  /** A receive: who, and the number (counting from 0) of the successful send whose message was taken. */
  datatype Receipt = Receipt(pid: int, id: nat)

  /** What has gone through an interface since it was created; `queued` are the numbers of the messages in it. */
  datatype Track = Track(sent: seq<Message>, queued: seq<nat>, received: seq<Receipt>)

  function TrackStep(qs: seq<Queue>, t: Track, e: Event, name: string): Track {
    match e
    case Created(n, pid, flags) => if n == name && Create(qs, n, pid, flags).0 == 0 then Track([], [], []) else t
    case Deleted(n, pid) => t
    case Sent(n, m, copied, alive) =>
      if n == name && Send(qs, alive, n, m, copied).0 == 0
      then Track(t.sent + [m], t.queued + [|t.sent|], t.received) else t
    case Received(n, me, writable) =>
      if n == name && Receive(qs, n, me, writable).1.Some? then
        var q := qs[Find(qs, n)];
        var k := Oldest(q.messages, me, q.creator);
        if k < |t.queued| then AfterReceive(t, me, k) else t
      else t
  }

  function History(events: seq<Event>, name: string): Track {
    if events == [] then Track([], [], []) else
    var before := events[..|events| - 1];
    TrackStep(Run(before), History(before, name), events[|events| - 1], name)
  }

  /** The queue holds exactly the messages sent and not yet received, in the order of sending. */
  ghost predicate QueueIsRest(q: Queue, t: Track) {
    && |q.messages| == |t.queued|
    && (forall k :: 0 <= k < |t.queued| ==> t.queued[k] < |t.sent| && q.messages[k] == t.sent[t.queued[k]])
    && (forall j, k :: 0 <= j < k < |t.queued| ==> t.queued[j] < t.queued[k])
    && (forall id :: 0 <= id < |t.sent| ==> (id in t.queued <==> !Taken(t, id)))
  }

  ghost predicate Taken(t: Track, id: int) {
    exists r :: r in t.received && r.id == id
  }

  /** No message is received twice, and each went to somebody it was meant for. */
  ghost predicate AtMostOnce(q: Queue, t: Track) {
    && (forall i :: 0 <= i < |t.received| ==>
          t.received[i].id < |t.sent| && Eligible(t.sent[t.received[i].id], t.received[i].pid, q.creator))
    && (forall i, j :: 0 <= i < j < |t.received| ==> t.received[i].id != t.received[j].id)
  }

  /** What one receiver gets, it gets in the order of sending; and nothing still queued for it is older. */
  ghost predicate InOrder(q: Queue, t: Track) {
    && (forall i, j :: 0 <= i < j < |t.received| && t.received[i].pid == t.received[j].pid ==> t.received[i].id < t.received[j].id)
    && (forall i, k :: 0 <= i < |t.received| && 0 <= k < |t.queued| ==> !Overtaken(q, t, t.received[i], t.queued[k]))
  }

  /** Message `id` could have gone to a receiver that was given a later one instead. */
  ghost predicate Overtaken(q: Queue, t: Track, r: Receipt, id: nat) {
    id < |t.sent| && Eligible(t.sent[id], r.pid, q.creator) && id <= r.id
  }

  ghost predicate Tracked(q: Queue, t: Track) {
    QueueIsRest(q, t) && AtMostOnce(q, t) && InOrder(q, t)
  }

  lemma SentTracked(q: Queue, t: Track, m: Message)
    requires Tracked(q, t)
    ensures Tracked(q.(messages := q.messages + [m]), Track(t.sent + [m], t.queued + [|t.sent|], t.received))
  {
    var t' := Track(t.sent + [m], t.queued + [|t.sent|], t.received);
    forall id | 0 <= id < |t'.sent| ensures id in t'.queued <==> !Taken(t', id) {
      assert Taken(t', id) == Taken(t, id);
    }
  }

  /** The history after `me` has received the message at position `k` of the queue. */
  function AfterReceive(t: Track, me: int, k: nat): Track
    requires k < |t.queued|
  {
    Track(t.sent, t.queued[..k] + t.queued[k + 1..], t.received + [Receipt(me, t.queued[k])])
  }

  lemma ReceivedRest(q: Queue, t: Track, me: int, k: nat)
    requires QueueIsRest(q, t) && k < |t.queued|
    ensures QueueIsRest(q.(messages := q.messages[..k] + q.messages[k + 1..]), AfterReceive(t, me, k))
  {
    hide Taken, Eligible;
    var t' := AfterReceive(t, me, k);
    assert forall j :: 0 <= j < |t'.queued| ==> t'.queued[j] == t.queued[if j < k then j else j + 1];
    forall id | 0 <= id < |t.sent| ensures id in t'.queued <==> !Taken(t', id) {
      QueuedWithout(t.queued, k, id);
      TakenWith(t, Receipt(me, t.queued[k]), t', id);
    }
  }

  lemma ReceivedOnce(q: Queue, t: Track, me: int, k: nat)
    requires QueueIsRest(q, t) && AtMostOnce(q, t) && k < |t.queued| && Eligible(q.messages[k], me, q.creator)
    ensures AtMostOnce(q, AfterReceive(t, me, k))
  {
    var id := t.queued[k];
    forall i | 0 <= i < |t.received| ensures t.received[i].id != id {
      assert t.received[i] in t.received;
      assert id in t.queued;
    }
  }

  lemma ReceivedInOrder(q: Queue, t: Track, me: int, k: nat)
    requires QueueIsRest(q, t) && InOrder(q, t) && k < |t.queued| && k == Oldest(q.messages, me, q.creator)
    ensures InOrder(q, AfterReceive(t, me, k))
  {
    hide Oldest, Taken;
    var t', r := AfterReceive(t, me, k), Receipt(me, t.queued[k]);
    forall i | 0 <= i < |t.received| && t.received[i].pid == me ensures t.received[i].id < r.id {
      assert !Overtaken(q, t, t.received[i], t.queued[k]);
    }
    forall i, j | 0 <= i < |t'.received| && 0 <= j < |t'.queued| ensures !Overtaken(q, t', t'.received[i], t'.queued[j]) {
      var j0 := if j < k then j else j + 1;
      assert t'.queued[j] == t.queued[j0];
      if i < |t.received| { assert !Overtaken(q, t, t.received[i], t.queued[j0]); }
    }
  }

  lemma ReceivedTracked(q: Queue, t: Track, me: int)
    requires Tracked(q, t) && Oldest(q.messages, me, q.creator) < |q.messages|
    ensures var k := Oldest(q.messages, me, q.creator);
            && k < |t.queued|
            && Tracked(q.(messages := q.messages[..k] + q.messages[k + 1..]), AfterReceive(t, me, k))
  {
    hide Oldest, QueueIsRest, AtMostOnce, InOrder, Overtaken, Eligible;
    var k := Oldest(q.messages, me, q.creator);
    assert k < |t.queued| by { RestLength(q, t); }
    ReceivedRest(q, t, me, k);
    ReceivedOnce(q, t, me, k);
    ReceivedInOrder(q, t, me, k);
    SameInterface(q, q.(messages := q.messages[..k] + q.messages[k + 1..]), AfterReceive(t, me, k));
  }

  lemma RestLength(q: Queue, t: Track)
    requires QueueIsRest(q, t)
    ensures |q.messages| == |t.queued|
  {
  }

  lemma SameInterface(q: Queue, q': Queue, t: Track)
    requires q'.creator == q.creator
    ensures AtMostOnce(q', t) == AtMostOnce(q, t) && InOrder(q', t) == InOrder(q, t)
  {
    assert forall r, id :: Overtaken(q', t, r, id) == Overtaken(q, t, r, id);
  }

  lemma QueuedWithout(queued: seq<nat>, k: nat, id: int)
    requires k < |queued| && forall i, j :: 0 <= i < j < |queued| ==> queued[i] < queued[j]
    ensures id in queued[..k] + queued[k + 1..] <==> id in queued && id != queued[k]
  {
    var rest := queued[..k] + queued[k + 1..];
    if id in queued && id != queued[k] {
      var i :| 0 <= i < |queued| && queued[i] == id;
      assert rest[if i < k then i else i - 1] == id;
    }
  }

  lemma TakenWith(t: Track, r: Receipt, t': Track, id: int)
    requires t'.received == t.received + [r]
    ensures Taken(t', id) <==> Taken(t, id) || r.id == id
  {
    if Taken(t, id) {
      var x :| x in t.received && x.id == id;
      assert x in t'.received;
    }
    if r.id == id { assert r in t'.received; }
  }

  lemma EmptyTracked(q: Queue)
    requires q.messages == []
    ensures Tracked(q, Track([], [], []))
  {
  }

  /** The history of `name` describes the queue of that name, if there is one. */
  ghost predicate Follows(qs: seq<Queue>, t: Track, name: string) {
    Named(qs, name).Some? ==> Tracked(Named(qs, name).value, t)
  }

  lemma SendFollowed(qs: seq<Queue>, t: Track, e: Event, name: string)
    requires NamesDistinct(qs) && Follows(qs, t, name) && e.Sent?
    ensures Follows(Step(qs, e), TrackStep(qs, t, e, name), name)
  {
    hide Find, NamesDistinct, MayAddress, Tracked;
    if Send(qs, e.alive, e.name, e.m, e.copied).0 == 0 {
      var i := Find(qs, e.name);
      NamedAfterSet(qs, i, qs[i].messages + [e.m], name);
      if e.name == name { SentTracked(qs[i], t, e.m); }
    }
  }

  lemma ReceiveFollowed(qs: seq<Queue>, t: Track, e: Event, name: string)
    requires NamesDistinct(qs) && Follows(qs, t, name) && e.Received?
    ensures Follows(Step(qs, e), TrackStep(qs, t, e, name), name)
  {
    hide Find, NamesDistinct, Oldest, Tracked;
    if Receive(qs, e.name, e.me, e.writable).1.Some? {
      var i := Find(qs, e.name);
      var ms := qs[i].messages;
      var k := Oldest(ms, e.me, qs[i].creator);
      NamedAfterSet(qs, i, ms[..k] + ms[k + 1..], name);
      if e.name == name { ReceivedTracked(qs[i], t, e.me); }
    }
  }

  lemma StepFollowed(qs: seq<Queue>, t: Track, e: Event, name: string)
    requires NamesDistinct(qs) && Follows(qs, t, name)
    ensures Follows(Step(qs, e), TrackStep(qs, t, e, name), name)
  {
    hide Find, NamesDistinct, Tracked, Send, Receive;
    match e
    case Created(n, pid, flags) =>
      if Create(qs, n, pid, flags).0 == 0 {
        NamedAfterCreate(qs, Queue(n, pid, flags, []), name);
        EmptyTracked(Queue(n, pid, flags, []));
      }
    case Deleted(n, pid) =>
      if Delete(qs, n, pid).0 == 0 {
        NamedAfterDelete(qs, Find(qs, n), name);
      }
    case Sent(n, m, copied, alive) => SendFollowed(qs, t, e, name);
    case Received(n, me, writable) => ReceiveFollowed(qs, t, e, name);
  }

  /**
   Exactly once and in order: after any run of calls, an interface holds exactly the messages sent to it and
   not received, in order of sending; none was received twice; and every receiver got its messages in order.
   */
  lemma {:induction false} ExactlyOnceInOrder(events: seq<Event>, name: string)
    ensures Follows(Run(events), History(events, name), name)
  {
    if events != [] {
      var before := events[..|events| - 1];
      ExactlyOnceInOrder(before, name);
      RunBounded(before);
      StepFollowed(Run(before), History(before, name), events[|events| - 1], name);
    }
  }
}
