/**
 Message queues as a protocol. A send grabs a free slot in one interrupt-disabled section, copies the message in with
 interrupts enabled, and links the slot in a second section; a receive dequeues, copies out, and gives the slot back.
 Every section and every copied byte is one step, so any number of sends and receives interleave in between.
 */
module MessageQueue {
  import opened Bytes
  import opened Distinct
  import opened IntrusiveList
  import opened WaitQueue
  import opened WaitChannel

  const RT_MQ_ENTRY_MAX := 0xFFFF

  type Msg = seq<byte>

  /** What a thread is doing with a slot that is in neither list. */
  datatype Pc =
    | Filling(slot: nat, msg: Msg, done: nat, urgent: bool)
    | Draining(slot: nat, msg: Msg, want: nat, got: Msg)

  /**
   `queue` and `free` are the slots of the two linked lists, `data` the payload bytes of every slot, `holders` the
   threads between two sections, and `msgs` the messages in the queued slots.
   */
  datatype State = State(maxMsgs: nat, msgSize: nat, flag: Flag, queue: seq<nat>, free: seq<nat>, data: seq<Msg>,
                         holders: map<Tid, Pc>, recv: Side, send: Side, msgs: seq<Msg>)

  datatype Label =
    | Grab(t: Tid, msg: Msg, urgent: bool, wait: bool)
    | CopyIn(t: Tid)
    | Link(t: Tid)
    | Dequeue(t: Tid, size: nat, wait: bool)
    | CopyOut(t: Tid)
    | GiveBack(t: Tid)
    | RecvTimeOut(k: nat)
    | SendTimeOut(k: nat)
    | Reset

  function RecvChan(s: State): Chan {
    Chan(|s.queue|, s.recv.waiting, s.recv.woken)
  }

  function SendChan(s: State): Chan {
    Chan(|s.free|, s.send.waiting, s.send.woken)
  }

  predicate Filled(s: State, t: Tid) {
    t in s.holders && s.holders[t].Filling? && s.holders[t].done == |s.holders[t].msg|
  }

  predicate Drained(s: State, t: Tid) {
    t in s.holders && s.holders[t].Draining? && |s.holders[t].got| == s.holders[t].want
  }

  predicate Running(s: State, t: Tid) {
    t !in s.holders && t !in s.recv.waiting && t !in s.send.waiting
  }

  predicate Enabled(s: State, l: Label) {
    match l
    case Grab(t, msg, urgent, wait) => Running(s, t) && 0 < |msg| && (urgent ==> !wait)
    case CopyIn(t) =>
      && t in s.holders && s.holders[t].Filling? && s.holders[t].done < |s.holders[t].msg|
      && s.holders[t].slot < |s.data| && s.holders[t].done < |s.data[s.holders[t].slot]|
    case Link(t) => Filled(s, t)
    case Dequeue(t, size, _) => Running(s, t) && 0 < size
    case CopyOut(t) =>
      && t in s.holders && s.holders[t].Draining? && |s.holders[t].got| < s.holders[t].want
      && s.holders[t].slot < |s.data| && |s.holders[t].got| < |s.data[s.holders[t].slot]|
    case GiveBack(t) => Drained(s, t)
    case RecvTimeOut(k) => k < |s.recv.waiting|
    case SendTimeOut(k) => k < |s.send.waiting|
    case Reset => true
  }

  function Sided(s: State, r: Chan, w: Chan): State {
    s.(recv := Side(r.waiting, r.woken), send := Side(w.waiting, w.woken))
  }

  /** A message longer than a slot is refused; an urgent send never waits. */
  function AfterGrab(s: State, t: Tid, msg: Msg, urgent: bool, wait: bool, prio: Tid -> nat): State {
    var r, w := RecvChan(s), SendChan(s);
    if |msg| > s.msgSize then s
    else if s.free != [] then
      Sided(s, r, Take(w, t)).(free := s.free[1..], holders := s.holders[t := Filling(s.free[0], msg, 0, urgent)])
    else if wait then
      Sided(s, r, Suspend(w, t, Enqueue(w.waiting, t, s.flag, prio)))
    else
      Sided(s, r, GiveUp(w, t))
  }

  function AfterLink(s: State, t: Tid): State
    requires Filled(s, t)
  {
    var h := s.holders[t];
    Sided(s, Arrive(RecvChan(s)), SendChan(s)).(
      holders := s.holders - {t},
      queue := if h.urgent then [h.slot] + s.queue else s.queue + [h.slot],
      msgs := if h.urgent then [h.msg] + s.msgs else s.msgs + [h.msg])
  }

  function AfterDequeue(s: State, t: Tid, size: nat, wait: bool, prio: Tid -> nat): State {
    var r, w := RecvChan(s), SendChan(s);
    if s.queue != [] && s.msgs != [] then
      var want := if size > s.msgSize then s.msgSize else size;
      Sided(s, Take(r, t), w).(
        queue := s.queue[1..], msgs := s.msgs[1..],
        holders := s.holders[t := Draining(s.queue[0], s.msgs[0], want, [])])
    else if wait then
      Sided(s, Suspend(r, t, Enqueue(r.waiting, t, s.flag, prio)), w)
    else
      Sided(s, GiveUp(r, t), w)
  }

  function AfterGiveBack(s: State, t: Tid): State
    requires Drained(s, t)
  {
    Sided(s, RecvChan(s), Arrive(SendChan(s))).(free := [s.holders[t].slot] + s.free, holders := s.holders - {t})
  }

  function AfterReset(s: State): State {
    Sided(s, Drain(RecvChan(s), 0), Drain(SendChan(s), |s.free| + |s.queue|)).(
      queue := [], free := Reversed(s.queue) + s.free, msgs := [])
  }

  function After(s: State, l: Label, prio: Tid -> nat): State
    requires Enabled(s, l)
  {
    match l
    case Grab(t, msg, urgent, wait) => AfterGrab(s, t, msg, urgent, wait, prio)
    case CopyIn(t) =>
      var h := s.holders[t];
      s.(data := s.data[h.slot := s.data[h.slot][h.done := h.msg[h.done]]],
         holders := s.holders[t := h.(done := h.done + 1)])
    case Link(t) => AfterLink(s, t)
    case Dequeue(t, size, wait) => AfterDequeue(s, t, size, wait, prio)
    case CopyOut(t) =>
      var h := s.holders[t];
      s.(holders := s.holders[t := h.(got := h.got + [s.data[h.slot][|h.got|]])])
    case GiveBack(t) => AfterGiveBack(s, t)
    case RecvTimeOut(k) => Sided(s, TimeOut(RecvChan(s), k), SendChan(s))
    case SendTimeOut(k) => Sided(s, RecvChan(s), TimeOut(SendChan(s), k))
    case Reset => AfterReset(s)
  }

  // ----- the invariant -----

  ghost predicate Held(s: State, x: nat) {
    exists t :: t in s.holders && s.holders[t].slot == x
  }

  /** Every slot is in exactly one place: the queue, the free list, or one thread's hands. */
  ghost predicate Partition(s: State) {
    && NoDuplicates(s.queue) && NoDuplicates(s.free)
    && (forall x :: x in s.queue ==> x < s.maxMsgs && x !in s.free && !Held(s, x))
    && (forall x :: x in s.free ==> x < s.maxMsgs && !Held(s, x))
    && (forall t :: t in s.holders ==> s.holders[t].slot < s.maxMsgs)
    && (forall t, u :: t in s.holders && u in s.holders && s.holders[t].slot == s.holders[u].slot ==> t == u)
    && (forall x: nat :: x < s.maxMsgs ==> x in s.queue || x in s.free || Held(s, x))
  }

  predicate Carries(d: Msg, msg: Msg) {
    |msg| <= |d| && d[..|msg|] == msg
  }

  /** Thread `t` has copied a prefix, and what it is about to deliver starts with the message sent. */
  ghost predicate HolderOk(s: State, t: Tid)
    requires t in s.holders
  {
    var h := s.holders[t];
    && h.slot < |s.data| && |s.data[h.slot]| == s.msgSize
    && match h
       case Filling(slot, msg, done, _) => done <= |msg| <= s.msgSize && s.data[slot][..done] == msg[..done]
       case Draining(slot, msg, want, got) =>
         && Carries(s.data[slot], msg) && |got| <= want <= s.msgSize && got == s.data[slot][..|got|]
  }

  /** The queued slots carry the messages of the abstract deque. */
  ghost predicate Contents(s: State) {
    && |s.data| == s.maxMsgs && (forall x :: 0 <= x < |s.data| ==> |s.data[x]| == s.msgSize)
    && |s.msgs| == |s.queue|
    && (forall i :: 0 <= i < |s.queue| ==> s.queue[i] < |s.data| && Carries(s.data[s.queue[i]], s.msgs[i]))
    && (forall t :: t in s.holders ==> HolderOk(s, t))
  }

  ghost predicate Invariant(s: State) {
    && Partition(s) && Contents(s)
    && Inv(RecvChan(s)) && Inv(SendChan(s))
  }

  // ----- each step keeps it -----

  lemma ChansKept(s: State, l: Label, prio: Tid -> nat)
    requires Inv(RecvChan(s)) && Inv(SendChan(s)) && Enabled(s, l) && |s.msgs| == |s.queue|
    ensures Inv(RecvChan(After(s, l, prio))) && Inv(SendChan(After(s, l, prio)))
  {
    hide Inv;
    var r, w := RecvChan(s), SendChan(s);
    match l {
      case Grab(t, msg, _, wait) =>
        if |msg| > s.msgSize {
        } else if s.free != [] {
          TakeKeeps(w, t);
        } else if wait {
          SuspendKeeps(w, t, s.flag, prio);
        } else {
          GiveUpKeeps(w, t);
        }
      case Dequeue(t, _, wait) =>
        if s.queue != [] {
          TakeKeeps(r, t);
        } else if wait {
          SuspendKeeps(r, t, s.flag, prio);
        } else {
          GiveUpKeeps(r, t);
        }
      case Link(_) => ArriveKeeps(r);
      case GiveBack(_) => ArriveKeeps(w);
      case RecvTimeOut(k) => TimeOutKeeps(r, k);
      case SendTimeOut(k) => TimeOutKeeps(w, k);
      case Reset =>
        DrainKeeps(r, 0);
        DrainKeeps(w, |s.free| + |s.queue|);
      case _ =>
    }
  }

  lemma HeldAdd(s: State, s': State, t: Tid, h: Pc)
    requires t !in s.holders && s'.holders == s.holders[t := h]
    ensures forall x :: Held(s', x) <==> Held(s, x) || x == h.slot
  {
    forall x
      ensures Held(s', x) <==> Held(s, x) || x == h.slot
    {
      if u :| u in s.holders && s.holders[u].slot == x {
        assert u in s'.holders && s'.holders[u].slot == x;
      }
      assert t in s'.holders && s'.holders[t].slot == h.slot;
    }
  }

  lemma HeldRemove(s: State, s': State, t: Tid)
    requires t in s.holders && s'.holders == s.holders - {t}
    requires forall u :: u in s.holders && s.holders[u].slot == s.holders[t].slot ==> u == t
    ensures forall x :: Held(s', x) <==> Held(s, x) && x != s.holders[t].slot
  {
    forall x
      ensures Held(s', x) <==> Held(s, x) && x != s.holders[t].slot
    {
      if u :| u in s.holders && s.holders[u].slot == x {
        assert u != t ==> u in s'.holders && s'.holders[u].slot == x;
      }
    }
  }

  lemma HeldSame(s: State, s': State, t: Tid, h: Pc)
    requires t in s.holders && s'.holders == s.holders[t := h] && h.slot == s.holders[t].slot
    ensures forall x :: Held(s', x) <==> Held(s, x)
  {
    forall x
      ensures Held(s', x) <==> Held(s, x)
    {
      if u :| u in s.holders && s.holders[u].slot == x {
        assert u in s'.holders && s'.holders[u].slot == x;
      }
      if u :| u in s'.holders && s'.holders[u].slot == x {
        assert u in s.holders && s.holders[u].slot == x;
      }
    }
  }

  /** A slot moves from the front of the free list into the sender's hands. */
  lemma GrabPartition(s: State, t: Tid, msg: Msg, urgent: bool, wait: bool, prio: Tid -> nat)
    requires Partition(s) && Running(s, t)
    ensures Partition(AfterGrab(s, t, msg, urgent, wait, prio))
  {
    var s' := AfterGrab(s, t, msg, urgent, wait, prio);
    if |msg| <= s.msgSize && s.free != [] {
      HeldAdd(s, s', t, Filling(s.free[0], msg, 0, urgent));
      Uncons(s.free);
    } else {
      SameHeld(s, s');
    }
  }

  lemma SameHeld(s: State, s': State)
    requires s'.holders == s.holders
    ensures forall x :: Held(s', x) <==> Held(s, x)
  {
  }

  /** A slot moves from the front of the queue into the receiver's hands. */
  lemma DequeuePartition(s: State, t: Tid, size: nat, wait: bool, prio: Tid -> nat)
    requires Partition(s) && Running(s, t) && |s.msgs| == |s.queue|
    ensures Partition(AfterDequeue(s, t, size, wait, prio))
  {
    var s' := AfterDequeue(s, t, size, wait, prio);
    if s.queue != [] {
      HeldAdd(s, s', t, s'.holders[t]);
      Uncons(s.queue);
    } else {
      SameHeld(s, s');
    }
  }

  /** A filled slot joins the queue at its back, or at its front when urgent. */
  lemma LinkPartition(s: State, t: Tid)
    requires Partition(s) && Filled(s, t)
    ensures Partition(AfterLink(s, t))
  {
    var s' := AfterLink(s, t);
    var x := s.holders[t].slot;
    assert Held(s, x);
    HeldRemove(s, s', t);
    assert forall y :: y in s'.queue <==> y == x || y in s.queue;
  }

  /** A drained slot goes back to the front of the free list. */
  lemma GiveBackPartition(s: State, t: Tid)
    requires Partition(s) && Drained(s, t)
    ensures Partition(AfterGiveBack(s, t))
  {
    var s' := AfterGiveBack(s, t);
    var x := s.holders[t].slot;
    assert Held(s, x);
    HeldRemove(s, s', t);
    assert forall y :: y in s'.free <==> y == x || y in s.free;
  }

  lemma {:induction false} ReversedDistinct(q: seq<nat>)
    requires NoDuplicates(q)
    ensures NoDuplicates(Reversed(q))
  {
  }

  /** A reset moves the whole queue to the free list; slots in a thread's hands stay there. */
  lemma ResetPartition(s: State)
    requires Partition(s)
    ensures Partition(AfterReset(s))
  {
    var s' := AfterReset(s);
    ReversedDistinct(s.queue);
    SameHeld(s, s');
    assert forall y :: y in s'.free <==> y in s.queue || y in s.free;
    ConcatDistinct(Reversed(s.queue), s.free);
  }

  lemma PartitionKept(s: State, l: Label, prio: Tid -> nat)
    requires Partition(s) && Enabled(s, l) && |s.msgs| == |s.queue|
    ensures Partition(After(s, l, prio))
  {
    hide Partition;
    match l {
      case Grab(t, msg, urgent, wait) => GrabPartition(s, t, msg, urgent, wait, prio);
      case Dequeue(t, size, wait) => DequeuePartition(s, t, size, wait, prio);
      case Link(t) => LinkPartition(s, t);
      case GiveBack(t) => GiveBackPartition(s, t);
      case Reset => ResetPartition(s);
      case CopyIn(t) => CopyPartition(s, After(s, l, prio), t);
      case CopyOut(t) => CopyPartition(s, After(s, l, prio), t);
      case _ => ChansOnly(s, After(s, l, prio));
    }
  }

  lemma CopyPartition(s: State, s': State, t: Tid)
    requires Partition(s) && t in s.holders && s'.holders.Keys == s.holders.Keys
    requires s'.maxMsgs == s.maxMsgs && s'.queue == s.queue && s'.free == s.free
    requires t in s'.holders && s'.holders == s.holders[t := s'.holders[t]] && s'.holders[t].slot == s.holders[t].slot
    ensures Partition(s')
  {
    HeldSame(s, s', t, s'.holders[t]);
  }

  lemma ChansOnly(s: State, s': State)
    requires Partition(s)
    requires s'.maxMsgs == s.maxMsgs && s'.queue == s.queue && s'.free == s.free && s'.holders == s.holders
    ensures Partition(s')
  {
    SameHeld(s, s');
  }

  /** The sender writes only its own slot, which no queued message and no other thread shares. */
  lemma CopyInContents(s: State, t: Tid, prio: Tid -> nat)
    requires Partition(s) && Contents(s) && Enabled(s, CopyIn(t))
    ensures Contents(After(s, CopyIn(t), prio))
  {
    var h := s.holders[t];
    var s' := After(s, CopyIn(t), prio);
    assert HolderOk(s, t) && Held(s, h.slot);
    forall i | 0 <= i < |s'.queue|
      ensures s'.queue[i] < |s'.data| && Carries(s'.data[s'.queue[i]], s'.msgs[i])
    {
      assert s.queue[i] in s.queue;
    }
    forall u | u in s'.holders
      ensures HolderOk(s', u)
    {
      assert HolderOk(s, u);
      if u == t {
        Extend(s.data[h.slot], h.msg, h.done);
      }
    }
  }

  lemma Extend(d: Msg, msg: Msg, k: nat)
    requires k < |d| && k < |msg| && d[..k] == msg[..k]
    ensures d[k := msg[k]][..k + 1] == msg[..k + 1]
  {
  }

  lemma CopyOutContents(s: State, t: Tid, prio: Tid -> nat)
    requires Contents(s) && Enabled(s, CopyOut(t))
    ensures Contents(After(s, CopyOut(t), prio))
  {
    var h := s.holders[t];
    var s' := After(s, CopyOut(t), prio);
    assert HolderOk(s, t);
    var d := s.data[h.slot];
    assert d[..|h.got| + 1] == d[..|h.got|] + [d[|h.got|]];
    forall u | u in s'.holders
      ensures HolderOk(s', u)
    {
      assert u in s.holders && HolderOk(s, u);
    }
  }

  /** Linking a completely filled slot puts its message into the deque at the matching end. */
  lemma LinkContents(s: State, t: Tid)
    requires Contents(s) && Filled(s, t)
    ensures Contents(AfterLink(s, t))
  {
    var h := s.holders[t];
    var s' := AfterLink(s, t);
    assert HolderOk(s, t);
    assert h.msg[..h.done] == h.msg;
    forall i | 0 <= i < |s'.queue|
      ensures s'.queue[i] < |s'.data| && Carries(s'.data[s'.queue[i]], s'.msgs[i])
    {
      var k := if h.urgent then i - 1 else i;
      if 0 <= k < |s.queue| {
        assert s'.queue[i] == s.queue[k] && s'.msgs[i] == s.msgs[k];
      }
    }
    HoldersFewer(s, s');
  }

  lemma HoldersFewer(s: State, s': State)
    requires s'.data == s.data && s'.msgSize == s.msgSize
    requires forall t :: t in s'.holders ==> t in s.holders && s'.holders[t] == s.holders[t]
    requires forall t :: t in s.holders ==> HolderOk(s, t)
    ensures forall t :: t in s'.holders ==> HolderOk(s', t)
  {
    forall t | t in s'.holders
      ensures HolderOk(s', t)
    {
      assert HolderOk(s, t);
    }
  }

  lemma DequeueContents(s: State, t: Tid, size: nat, wait: bool, prio: Tid -> nat)
    requires Contents(s) && Running(s, t)
    ensures Contents(AfterDequeue(s, t, size, wait, prio))
  {
    var s' := AfterDequeue(s, t, size, wait, prio);
    if s.queue != [] {
      assert Carries(s.data[s.queue[0]], s.msgs[0]);
      assert s.data[s.queue[0]][..0] == [];
      forall i | 0 <= i < |s'.queue|
        ensures s'.queue[i] < |s'.data| && Carries(s'.data[s'.queue[i]], s'.msgs[i])
      {
        assert s'.queue[i] == s.queue[i + 1] && s'.msgs[i] == s.msgs[i + 1];
      }
    }
    forall u | u in s'.holders
      ensures HolderOk(s', u)
    {
      if u in s.holders {
        assert HolderOk(s, u);
      }
    }
  }

  lemma GrabContents(s: State, t: Tid, msg: Msg, urgent: bool, wait: bool, prio: Tid -> nat)
    requires Partition(s) && Contents(s) && Enabled(s, Grab(t, msg, urgent, wait))
    ensures Contents(AfterGrab(s, t, msg, urgent, wait, prio))
  {
    var s' := AfterGrab(s, t, msg, urgent, wait, prio);
    if s.free != [] {
      assert s.free[0] in s.free;
      assert s.data[s.free[0]][..0] == msg[..0];
    }
    forall u | u in s'.holders
      ensures HolderOk(s', u)
    {
      if u in s.holders {
        assert HolderOk(s, u);
      }
    }
  }

  lemma ContentsKept(s: State, l: Label, prio: Tid -> nat)
    requires Partition(s) && Contents(s) && Enabled(s, l)
    ensures Contents(After(s, l, prio))
  {
    match l {
      case Grab(t, msg, urgent, wait) => GrabContents(s, t, msg, urgent, wait, prio);
      case Dequeue(t, size, wait) => DequeueContents(s, t, size, wait, prio);
      case Link(t) => LinkContents(s, t);
      case CopyIn(t) => CopyInContents(s, t, prio);
      case CopyOut(t) => CopyOutContents(s, t, prio);
      case _ => HoldersFewer(s, After(s, l, prio));
    }
  }

  /** Every section and every copied byte, by any thread in any state, keeps the whole invariant. */
  lemma StepKeeps(s: State, l: Label, prio: Tid -> nat)
    requires Invariant(s) && Enabled(s, l)
    ensures Invariant(After(s, l, prio))
  {
    hide Partition, Inv, After, Enabled;
    PartitionKept(s, l, prio);
    ContentsKept(s, l, prio);
    ChansKept(s, l, prio);
  }

  // ----- whole runs -----

  /** rt_mq_init: all slots free, the last one first, with any payload bytes. */
  ghost predicate Initial(s: State) {
    && s.queue == [] && s.free == Countdown(s.maxMsgs) && s.holders == map[]
    && |s.data| == s.maxMsgs && (forall x :: 0 <= x < |s.data| ==> |s.data[x]| == s.msgSize)
    && s.recv == s.send == Side([], {})
    && s.msgs == []
  }

  ghost predicate Run(states: seq<State>, labels: seq<Label>, prios: seq<Tid -> nat>) {
    && |states| == |labels| + 1 == |prios| + 1 && Initial(states[0])
    && forall i :: 0 <= i < |labels| ==>
         Enabled(states[i], labels[i]) && states[i + 1] == After(states[i], labels[i], prios[i])
  }

  /** Every state of every run satisfies the invariant. */
  lemma {:induction false} RunKeeps(states: seq<State>, labels: seq<Label>, prios: seq<Tid -> nat>, k: nat)
    requires Run(states, labels, prios) && k < |states|
    ensures Invariant(states[k])
  {
    hide After, Enabled;
    if k == 0 {
      InitialHolds(states[0]);
    } else {
      RunKeeps(states, labels, prios, k - 1);
      StepKeeps(states[k - 1], labels[k - 1], prios[k - 1]);
      assert states[k] == states[k - 1 + 1];
    }
  }

  lemma InitialHolds(s: State)
    requires Initial(s)
    ensures Invariant(s)
  {
    CountdownDistinct(s.maxMsgs);
    assert forall x :: !Held(s, x);
  }

  function HeldSlots(m: map<Tid, Pc>): set<nat> {
    set t | t in m :: m[t].slot
  }

  lemma {:induction false} HeldCount(m: map<Tid, Pc>)
    requires forall t, u :: t in m && u in m && m[t].slot == m[u].slot ==> t == u
    ensures |HeldSlots(m)| == |m|
    decreases |m|
  {
    if m != map[] {
      var t :| t in m;
      var r := m - {t};
      assert |r| == |m| - 1 by {
        assert m.Keys == r.Keys + {t};
      }
      HeldCount(r);
      assert HeldSlots(m) == HeldSlots(r) + {m[t].slot} by {
        forall x | x in HeldSlots(m)
          ensures x in HeldSlots(r) + {m[t].slot}
        {
          var u :| u in m && m[u].slot == x;
          assert u != t ==> u in r && r[u].slot == x;
        }
      }
      assert m[t].slot !in HeldSlots(r);
    } else {
      assert HeldSlots(m) == {};
    }
  }

  lemma ThreeWay(all: set<nat>, a: set<nat>, b: set<nat>, c: set<nat>)
    requires all == a + b + c && a !! b && a !! c && b !! c
    ensures |all| == |a| + |b| + |c|
  {
  }

  lemma SlotsSplit(s: State)
    requires Partition(s)
    ensures Members(Countdown(s.maxMsgs)) == Members(s.queue) + Members(s.free) + HeldSlots(s.holders)
    ensures Members(s.queue) !! Members(s.free) && Members(s.queue) !! HeldSlots(s.holders)
    ensures Members(s.free) !! HeldSlots(s.holders)
  {
    assert forall x :: x in HeldSlots(s.holders) <==> Held(s, x);
  }

  /** Queue, free list and hands together always hold exactly max_msgs slots. */
  lemma SlotCount(s: State)
    requires Partition(s)
    ensures |s.queue| + |s.free| + |s.holders| == s.maxMsgs
  {
    hide Members, HeldSlots, Countdown;
    CountdownDistinct(s.maxMsgs);
    MembersCount(Countdown(s.maxMsgs));
    MembersCount(s.queue);
    MembersCount(s.free);
    HeldCount(s.holders);
    SlotsSplit(s);
    ThreeWay(Members(Countdown(s.maxMsgs)), Members(s.queue), Members(s.free), HeldSlots(s.holders));
  }

  /** A slot in a thread's hands is in neither list and in nobody else's hands. */
  lemma HolderApart(s: State, t: Tid)
    requires Invariant(s) && t in s.holders
    ensures s.holders[t].slot < s.maxMsgs && s.holders[t].slot !in s.queue && s.holders[t].slot !in s.free
    ensures forall u :: u in s.holders && u != t ==> s.holders[u].slot != s.holders[t].slot
    ensures NoDuplicates(s.queue) && HolderOk(s, t)
  {
    assert Held(s, s.holders[t].slot);
  }

  /** The first free slot is in no queue and in nobody's hands. */
  lemma FreeApart(s: State)
    requires Invariant(s) && s.free != []
    ensures s.free[0] < s.maxMsgs && s.free[0] !in s.queue && s.free[0] !in s.free[1..]
    ensures forall u :: u in s.holders ==> s.holders[u].slot != s.free[0]
  {
    Uncons(s.free);
    assert s.free[0] in s.free;
    assert forall u :: u in s.holders ==> Held(s, s.holders[u].slot);
  }

  lemma QueueApart(s: State)
    requires Invariant(s)
    ensures |s.msgs| == |s.queue| && NoDuplicates(s.queue) && forall x :: x in s.queue ==> x !in s.free && x < s.maxMsgs
    ensures forall u, x :: u in s.holders && x in s.queue ==> s.holders[u].slot != x
  {
    assert forall u :: u in s.holders ==> Held(s, s.holders[u].slot);
  }

  /** Linking never meets a full entry counter: the overflow return is out of reach. */
  lemma LinkHasRoom(s: State, t: Tid)
    requires Invariant(s) && s.maxMsgs <= RT_MQ_ENTRY_MAX && Filled(s, t)
    ensures |s.queue| < RT_MQ_ENTRY_MAX
  {
    SlotCount(s);
    assert |s.holders| == 0 ==> s.holders == map[];
  }
}
