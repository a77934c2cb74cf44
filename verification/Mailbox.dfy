/**
 Mailboxes: a bounded ring of words with waiting receivers and waiting senders. The machine at the top has one
 step per interrupt-disabled section; the class below is the code of those sections over the ring itself.
 */
module Mailbox {
  import opened Bytes
  import opened IntrusiveList
  import opened WaitQueue
  import opened WaitChannel
  import opened WaitHistory
  import opened Histories

  const RT_MB_ENTRY_MAX := 0xFFFF

  datatype State = State(size: nat, flag: Flag, mails: seq<u32>, recv: Side, send: Side)

  /** The sections, with the thread that runs them; `wait` says whether time is left to wait. */
  datatype Label =
    | TrySend(t: Tid, v: u32, wait: bool)
    | Urgent(v: u32)
    | TryRecv(t: Tid, wait: bool)
    | RecvTimeOut(k: nat)
    | SendTimeOut(k: nat)
    | Reset

  function RecvChan(s: State): Chan {
    Chan(|s.mails|, s.recv.waiting, s.recv.woken)
  }

  function SendChan(s: State): Chan {
    Chan(if |s.mails| <= s.size then s.size - |s.mails| else 0, s.send.waiting, s.send.woken)
  }

  /** `l` may happen in `s`: a thread suspended here does not run. */
  predicate Enabled(s: State, l: Label) {
    match l
    case TrySend(t, _, _) => t !in s.send.waiting && t !in s.recv.waiting
    case TryRecv(t, _) => t !in s.send.waiting && t !in s.recv.waiting
    case RecvTimeOut(k) => k < |s.recv.waiting|
    case SendTimeOut(k) => k < |s.send.waiting|
    case _ => true
  }

  function Mails(s: State, l: Label): seq<u32> {
    match l
    case TrySend(_, v, _) => if |s.mails| < s.size then s.mails + [v] else s.mails
    case Urgent(v) => if |s.mails| < s.size then [v] + s.mails else s.mails
    case TryRecv(_, _) => if s.mails != [] then s.mails[1..] else s.mails
    case Reset => []
    case _ => s.mails
  }

  function RecvNext(s: State, l: Label, prio: Tid -> nat): Chan {
    var c := RecvChan(s);
    match l
    case TrySend(_, _, _) => if |s.mails| < s.size then Arrive(c) else c
    case Urgent(_) => if |s.mails| < s.size then Arrive(c) else c
    case TryRecv(t, wait) =>
      if s.mails != [] then Take(c, t)
      else if wait then Suspend(c, t, Enqueue(c.waiting, t, s.flag, prio))
      else GiveUp(c, t)
    case RecvTimeOut(k) => if k < |c.waiting| then TimeOut(c, k) else c
    case SendTimeOut(_) => c
    case Reset => Drain(c, 0)
  }

  function SendNext(s: State, l: Label, prio: Tid -> nat): Chan {
    var c := SendChan(s);
    match l
    case TrySend(t, _, wait) =>
      if |s.mails| < s.size then Take(c, t)
      else if wait then Suspend(c, t, Enqueue(c.waiting, t, s.flag, prio))
      else GiveUp(c, t)
    case Urgent(_) => if |s.mails| < s.size then Steal(c) else c
    case TryRecv(_, _) => if s.mails != [] then Arrive(c) else c
    case RecvTimeOut(_) => c
    case SendTimeOut(k) => if k < |c.waiting| then TimeOut(c, k) else c
    case Reset => Drain(c, s.size)
  }

  /** One section: the mails and both sides change together. */
  ghost predicate Step(s: State, l: Label, s': State, prio: Tid -> nat) {
    && Enabled(s, l)
    && s'.size == s.size && s'.flag == s.flag
    && s'.mails == Mails(s, l)
    && RecvChan(s') == RecvNext(s, l, prio)
    && SendChan(s') == SendNext(s, l, prio)
  }

  ghost predicate Invariant(s: State) {
    && |s.mails| <= s.size
    && Inv(RecvChan(s)) && Inv(SendChan(s))
  }

  function Initial(size: nat, flag: Flag): State {
    State(size, flag, [], Side([], {}), Side([], {}))
  }

  /** Every section, in every interleaving, keeps both directions free of lost wakeups and the ring within bounds. */
  lemma StepKeeps(s: State, l: Label, s': State, prio: Tid -> nat)
    requires Invariant(s) && Step(s, l, s', prio)
    ensures Invariant(s')
  {
    var r, w := RecvChan(s), SendChan(s);
    match l {
      case TrySend(t, v, wait) =>
        if |s.mails| < s.size {
          ArriveKeeps(r);
          TakeKeeps(w, t);
        } else if wait {
          SuspendKeeps(w, t, s.flag, prio);
        }
      case Urgent(v) =>
        ArriveKeeps(r);
      case TryRecv(t, wait) =>
        if s.mails != [] {
          ArriveKeeps(w);
          TakeKeeps(r, t);
        } else if wait {
          SuspendKeeps(r, t, s.flag, prio);
        }
      case RecvTimeOut(k) =>
        TimeOutKeeps(r, k);
      case SendTimeOut(k) =>
        TimeOutKeeps(w, k);
      case Reset =>
    }
  }

  /** A run: each label leads from one state to the next. */
  ghost predicate Run(states: seq<State>, labels: seq<Label>, prios: seq<Tid -> nat>) {
    && |states| == |labels| + 1 == |prios| + 1
    && forall i :: 0 <= i < |labels| ==> Step(states[i], labels[i], states[i + 1], prios[i])
  }

  /** Every state of every run from an empty mailbox satisfies the invariant. */
  lemma {:induction false} RunKeeps(states: seq<State>, labels: seq<Label>, prios: seq<Tid -> nat>, k: nat)
    requires Run(states, labels, prios) && k < |states| && states[0] == Initial(states[0].size, states[0].flag)
    ensures Invariant(states[k])
  {
    if k > 0 {
      RunKeeps(states, labels, prios, k - 1);
      StepKeeps(states[k - 1], labels[k - 1], states[k], prios[k - 1]);
    }
  }

  // ----- who waits, in which order, and who is on the way -----

  /** What a section means to the queue of receivers, and to the queue of senders. */
  function RecvAct(s: State, l: Label): Act {
    match l
    case TryRecv(t, wait) => Looks(t, s.mails == [] && wait)
    case TrySend(_, _, _) => if |s.mails| < s.size then Wakes else Idle
    case Urgent(_) => if |s.mails| < s.size then Wakes else Idle
    case RecvTimeOut(k) => TimesOut(k)
    case SendTimeOut(_) => Idle
    case Reset => Clears
  }

  function SendAct(s: State, l: Label): Act {
    match l
    case TrySend(t, _, wait) => Looks(t, |s.mails| >= s.size && wait)
    case TryRecv(_, _) => if s.mails != [] then Wakes else Idle
    case SendTimeOut(k) => TimesOut(k)
    case Reset => Clears
    case _ => Idle
  }

  function RecvActs(states: seq<State>, labels: seq<Label>): (acts: seq<Act>)
    requires |labels| < |states|
    ensures |acts| == |labels| && forall i :: 0 <= i < |acts| ==> acts[i] == RecvAct(states[i], labels[i])
  {
    seq(|labels|, i requires 0 <= i < |labels| => RecvAct(states[i], labels[i]))
  }

  function SendActs(states: seq<State>, labels: seq<Label>): (acts: seq<Act>)
    requires |labels| < |states|
    ensures |acts| == |labels| && forall i :: 0 <= i < |acts| ==> acts[i] == SendAct(states[i], labels[i])
  {
    seq(|labels|, i requires 0 <= i < |labels| => SendAct(states[i], labels[i]))
  }

  function Receivers(states: seq<State>): (queues: seq<seq<Tid>>)
    ensures |queues| == |states| && forall i :: 0 <= i < |queues| ==> queues[i] == states[i].recv.waiting
  {
    seq(|states|, i requires 0 <= i < |states| => states[i].recv.waiting)
  }

  function Senders(states: seq<State>): (queues: seq<seq<Tid>>)
    ensures |queues| == |states| && forall i :: 0 <= i < |queues| ==> queues[i] == states[i].send.waiting
  {
    seq(|states|, i requires 0 <= i < |states| => states[i].send.waiting)
  }

  lemma QueuesMove(s: State, l: Label, s': State, prio: Tid -> nat)
    requires Step(s, l, s', prio)
    ensures s'.flag == s.flag
    ensures May(s.recv.waiting, RecvAct(s, l)) && May(s.send.waiting, SendAct(s, l))
    ensures s'.recv.waiting == Moved(s.recv.waiting, RecvAct(s, l), Queued(s.flag), prio)
    ensures s'.send.waiting == Moved(s.send.waiting, SendAct(s, l), Queued(s.flag), prio)
    ensures s'.recv.woken == ComingNext(s.recv.woken, s.recv.waiting, RecvAct(s, l))
    ensures s'.send.woken == ComingNext(s.send.woken, s.send.waiting, SendAct(s, l))
  {
    hide Enqueue, Remove, Mails;
  }

  lemma {:induction false} WokenComing(states: seq<State>, labels: seq<Label>, prios: seq<Tid -> nat>, k: nat)
    requires Run(states, labels, prios) && k < |states| && states[0] == Initial(states[0].size, states[0].flag)
    ensures states[k].flag == states[0].flag
    ensures states[k].recv.woken == Coming(Receivers(states), RecvActs(states, labels), k)
    ensures states[k].send.woken == Coming(Senders(states), SendActs(states, labels), k)
  {
    hide Step, RecvAct, SendAct, Moved, May, ComingNext;
    if k > 0 {
      WokenComing(states, labels, prios, k - 1);
      var s, l := states[k - 1], labels[k - 1];
      assert Step(s, l, states[k - 1 + 1], prios[k - 1]);
      QueuesMove(s, l, states[k], prios[k - 1]);
    }
  }

  lemma Traced(states: seq<State>, labels: seq<Label>, prios: seq<Tid -> nat>)
    requires Run(states, labels, prios) && states[0] == Initial(states[0].size, states[0].flag)
    ensures Trace(Receivers(states), RecvActs(states, labels), Queued(states[0].flag), prios)
    ensures Trace(Senders(states), SendActs(states, labels), Queued(states[0].flag), prios)
  {
    hide Step, RecvAct, SendAct, Moved, May;
    var how := Queued(states[0].flag);
    forall i | 0 <= i < |labels|
      ensures May(states[i].recv.waiting, RecvAct(states[i], labels[i]))
      ensures May(states[i].send.waiting, SendAct(states[i], labels[i]))
      ensures states[i + 1].recv.waiting == Moved(states[i].recv.waiting, RecvAct(states[i], labels[i]), how, prios[i])
      ensures states[i + 1].send.waiting == Moved(states[i].send.waiting, SendAct(states[i], labels[i]), how, prios[i])
    {
      WokenComing(states, labels, prios, i);
      QueuesMove(states[i], labels[i], states[i + 1], prios[i]);
    }
  }

  /** In every run each thread waits exactly as it should, and all in the order the flag asks for. */
  lemma WaitsInTurn(states: seq<State>, labels: seq<Label>, prios: seq<Tid -> nat>, k: nat, t: Tid, prio: Tid -> nat)
    requires Run(states, labels, prios) && k < |states| && states[0] == Initial(states[0].size, states[0].flag)
    ensures t in states[k].recv.waiting <==> Waits(Receivers(states), RecvActs(states, labels), k, t)
    ensures t in states[k].send.waiting <==> Waits(Senders(states), SendActs(states, labels), k, t)
    ensures Steady(states[0].flag, prios, k, prio) ==>
              && Ordered(states[k].recv.waiting, states[0].flag, prio, Arrival(RecvActs(states, labels), k))
              && Ordered(states[k].send.waiting, states[0].flag, prio, Arrival(SendActs(states, labels), k))
  {
    hide Step, Waits, Ordered, Arrival, Trace, Steady;
    var flag := states[0].flag;
    Traced(states, labels, prios);
    WaitersExactly(Receivers(states), RecvActs(states, labels), Queued(flag), prios, k, t);
    WaitersExactly(Senders(states), SendActs(states, labels), Queued(flag), prios, k, t);
    if Steady(flag, prios, k, prio) {
      InOrder(Receivers(states), RecvActs(states, labels), flag, prios, k, prio);
      InOrder(Senders(states), SendActs(states, labels), flag, prios, k, prio);
    }
  }

  /**
   No lost wakeup in any run: while receivers wait, those resumed that have not looked again are at least as many as the
   mails there; while senders wait, at least as many as the free cells.
   */
  lemma NoneStranded(states: seq<State>, labels: seq<Label>, prios: seq<Tid -> nat>, k: nat)
    requires Run(states, labels, prios) && k < |states| && states[0] == Initial(states[0].size, states[0].flag)
    ensures states[k].recv.waiting != [] ==>
              |Coming(Receivers(states), RecvActs(states, labels), k)| >= |states[k].mails|
    ensures states[k].send.waiting != [] ==>
              |Coming(Senders(states), SendActs(states, labels), k)| + |states[k].mails| >= states[k].size
  {
    hide Step, Coming;
    RunKeeps(states, labels, prios, k);
    WokenComing(states, labels, prios, k);
  }

  /** What a section puts into the mailbox, and what it takes out. */
  function In(s: State, l: Label): seq<u32> {
    if (l.TrySend? || l.Urgent?) && |s.mails| < s.size then [l.v] else []
  }

  function Out(s: State, l: Label): seq<u32> {
    if l.TryRecv? && s.mails != [] then [s.mails[0]] else []
  }

  /** What a reset throws away. */
  function Lost(s: State, l: Label): seq<u32> {
    if l.Reset? then s.mails else []
  }

  /** The section puts no urgent mail in. */
  predicate Plain(s: State, l: Label) {
    l.Urgent? ==> |s.mails| >= s.size
  }

  lemma PlainInOrder(s: State, l: Label)
    requires Plain(s, l) && !l.Reset?
    ensures Out(s, l) + Mails(s, l) == s.mails + In(s, l)
  {
  }

  lemma InAnyOrder(s: State, l: Label)
    ensures multiset(Out(s, l)) + multiset(Mails(s, l)) + multiset(Lost(s, l)) == multiset(s.mails) + multiset(In(s, l))
  {
    if l.TryRecv? && s.mails != [] {
      assert s.mails == [s.mails[0]] + s.mails[1..];
    }
  }

  /** What the sections of a run put in, take out and throw away. */
  function Sent(states: seq<State>, labels: seq<Label>): (ins: seq<seq<u32>>)
    requires |labels| < |states|
    ensures |ins| == |labels| && forall i :: 0 <= i < |ins| ==> ins[i] == In(states[i], labels[i])
  {
    seq(|labels|, i requires 0 <= i < |labels| => In(states[i], labels[i]))
  }

  function Received(states: seq<State>, labels: seq<Label>): (outs: seq<seq<u32>>)
    requires |labels| < |states|
    ensures |outs| == |labels| && forall i :: 0 <= i < |outs| ==> outs[i] == Out(states[i], labels[i])
  {
    seq(|labels|, i requires 0 <= i < |labels| => Out(states[i], labels[i]))
  }

  function Dropped(states: seq<State>, labels: seq<Label>): (lost: seq<seq<u32>>)
    requires |labels| < |states|
    ensures |lost| == |labels| && forall i :: 0 <= i < |lost| ==> lost[i] == Lost(states[i], labels[i])
  {
    seq(|labels|, i requires 0 <= i < |labels| => Lost(states[i], labels[i]))
  }

  function Contents(states: seq<State>): (contents: seq<seq<u32>>)
    ensures |contents| == |states| && forall i :: 0 <= i < |contents| ==> contents[i] == states[i].mails
  {
    seq(|states|, i requires 0 <= i < |states| => states[i].mails)
  }

  /** The number of the section after the last reset among the first `k`, or 0. */
  function LastReset(labels: seq<Label>, k: nat): (j: nat)
    requires k <= |labels|
    ensures j <= k && (j > 0 ==> labels[j - 1].Reset?) && forall i :: j <= i < k ==> !labels[i].Reset?
  {
    if k == 0 then 0 else if labels[k - 1].Reset? then k else LastReset(labels, k - 1)
  }

  /** No urgent mail was put in by the sections j..k. */
  predicate AllPlain(states: seq<State>, labels: seq<Label>, j: nat, k: nat)
    requires j <= k <= |labels| < |states|
  {
    forall i :: j <= i < k ==> Plain(states[i], labels[i])
  }

  lemma MailsNext(states: seq<State>, labels: seq<Label>, prios: seq<Tid -> nat>, i: nat)
    requires Run(states, labels, prios) && i < |labels|
    ensures states[i + 1].mails == Mails(states[i], labels[i])
  {
    assert Step(states[i], labels[i], states[i + 1], prios[i]);
  }

  lemma EmptyAt(states: seq<State>, labels: seq<Label>, prios: seq<Tid -> nat>, j: nat)
    requires Run(states, labels, prios) && states[0].mails == [] && j <= |labels| && (j > 0 ==> labels[j - 1].Reset?)
    ensures states[j].mails == []
  {
    if j > 0 {
      assert Step(states[j - 1], labels[j - 1], states[j - 1 + 1], prios[j - 1]);
    }
  }

  /**
   In every run, and after any number of resets: as long as no urgent mail was put in since the last reset, the mails
   received since then, followed by those still there, are the mails sent since then, in order.
   */
  lemma FirstInFirstOut(states: seq<State>, labels: seq<Label>, prios: seq<Tid -> nat>, k: nat)
    requires Run(states, labels, prios) && states[0].mails == [] && k <= |labels|
    requires AllPlain(states, labels, LastReset(labels, k), k)
    ensures var j := LastReset(labels, k);
            Flat(Received(states, labels), j, k) + states[k].mails == Flat(Sent(states, labels), j, k)
  {
    hide Mails, In, Out, Plain, Flat, Step;
    var j := LastReset(labels, k);
    EmptyAt(states, labels, prios, j);
    forall i | j <= i < k
      ensures Out(states[i], labels[i]) + states[i + 1].mails == states[i].mails + In(states[i], labels[i])
    {
      MailsNext(states, labels, prios, i);
      PlainInOrder(states[i], labels[i]);
    }
    FlatInOrder(Contents(states), Sent(states, labels), Received(states, labels), j, k);
    assert [] + Flat(Sent(states, labels), j, k) == Flat(Sent(states, labels), j, k);
  }

  /** In every run, every mail sent is received once, thrown away by a reset once, or still there. */
  lemma NothingLost(states: seq<State>, labels: seq<Label>, prios: seq<Tid -> nat>, k: nat)
    requires Run(states, labels, prios) && states[0].mails == [] && k <= |labels|
    ensures multiset(Flat(Received(states, labels), 0, k)) + multiset(states[k].mails)
            + multiset(Flat(Dropped(states, labels), 0, k))
         == multiset(Flat(Sent(states, labels), 0, k))
  {
    hide Mails, In, Out, Lost, Flat, Step;
    forall i | 0 <= i < k
      ensures multiset(Out(states[i], labels[i])) + multiset(states[i + 1].mails) + multiset(Lost(states[i], labels[i]))
           == multiset(states[i].mails) + multiset(In(states[i], labels[i]))
    {
      MailsNext(states, labels, prios, i);
      InAnyOrder(states[i], labels[i]);
    }
    FlatConserved(Contents(states), Sent(states, labels), Received(states, labels), Dropped(states, labels), k);
  }

  /** An urgent mail that was put in is what the next receive takes out, unless a further urgent one or a reset comes first. */
  lemma UrgentNext(states: seq<State>, labels: seq<Label>, prios: seq<Tid -> nat>, i: nat, k: nat)
    requires Run(states, labels, prios) && i < k < |labels|
    requires labels[i].Urgent? && In(states[i], labels[i]) != [] && labels[k].TryRecv?
    requires forall j :: i < j < k ==> Plain(states[j], labels[j]) && !labels[j].Reset? && Out(states[j], labels[j]) == []
    ensures Out(states[k], labels[k]) == [labels[i].v]
  {
    StaysFirst(states, labels, prios, i, k);
  }

  lemma {:induction false} StaysFirst(states: seq<State>, labels: seq<Label>, prios: seq<Tid -> nat>, i: nat, k: nat)
    requires Run(states, labels, prios) && i < k < |states|
    requires labels[i].Urgent? && In(states[i], labels[i]) != []
    requires forall j :: i < j < k ==> Plain(states[j], labels[j]) && !labels[j].Reset? && Out(states[j], labels[j]) == []
    ensures states[k].mails != [] && states[k].mails[0] == labels[i].v
  {
    assert Step(states[k - 1], labels[k - 1], states[k - 1 + 1], prios[k - 1]);
    if i + 1 < k {
      StaysFirst(states, labels, prios, i, k - 1);
    }
  }

  /** Position `p` of a ring of `size` cells, for p < 2 * size. */
  function At(p: nat, size: nat): int {
    if p < size then p else p - size
  }

  class Mailbox {
    const msgPool: array<u32>
    const size: nat
    const flag: Flag
    var entry: nat
    var inOffset: nat
    var outOffset: nat
    var receivers: seq<Tid>  // parent.suspend_thread
    var senders: seq<Tid>    // suspend_sender_thread
    ghost var recvWoken: set<Tid>
    ghost var sendWoken: set<Tid>

    ghost predicate Ring()
      reads this, msgPool
    {
      && msgPool.Length == size <= RT_MB_ENTRY_MAX && entry <= size
      && (if size == 0 then inOffset == outOffset == 0
          else inOffset < size && outOffset < size && inOffset == At(outOffset + entry, size))
    }

    ghost function Contents(): (mails: seq<u32>)
      requires Ring()
      reads this, msgPool
      ensures |mails| == entry
      ensures forall i :: 0 <= i < entry ==> mails[i] == msgPool[At(outOffset + i, size)]
    {
      seq(entry, i requires 0 <= i < entry reads this, msgPool requires Ring() => msgPool[At(outOffset + i, size)])
    }

    ghost function Abstract(): State
      requires Ring()
      reads this, msgPool
    {
      State(size, flag, Contents(), Side(receivers, recvWoken), Side(senders, sendWoken))
    }

    ghost predicate Valid()
      reads this, msgPool
    {
      Ring() && Invariant(Abstract())
    }

    constructor (pool: array<u32>, flag: Flag)
      requires pool.Length <= RT_MB_ENTRY_MAX
      ensures Valid() && msgPool == pool && Abstract() == Initial(pool.Length, flag)
    {
      msgPool, size, this.flag := pool, pool.Length, flag;
      entry, inOffset, outOffset := 0, 0, 0;
      receivers, senders := [], [];
      recvWoken, sendWoken := {}, {};
    }

    /** The cell at in_offset takes the value; the contents grow at the back. */
    method Push(value: u32)
      requires Ring() && entry < size
      modifies this`entry, this`inOffset, msgPool
      ensures Ring() && Contents() == old(Contents()) + [value]
    {
      msgPool[inOffset] := value;
      inOffset := inOffset + 1;
      if inOffset >= size {
        inOffset := 0;
      }
      if entry < RT_MB_ENTRY_MAX {
        entry := entry + 1;
      } else {
        assert false;  // the overflow return is out of reach: entry < size <= 0xFFFF
      }
      assert forall i {:trigger Contents()[i]} :: 0 <= i < entry - 1 ==> Contents()[i] == old(Contents())[i];
      assert Contents()[entry - 1] == value;
      assert Contents() == old(Contents()) + [value];
    }

    /** out_offset steps back, around the start of the ring if need be; the contents grow at the front. */
    method PushFront(value: u32)
      requires Ring() && entry < size
      modifies this`entry, this`outOffset, msgPool
      ensures Ring() && Contents() == [value] + old(Contents())
    {
      if outOffset > 0 {
        outOffset := outOffset - 1;
      } else {
        outOffset := size - 1;
      }
      msgPool[outOffset] := value;
      entry := entry + 1;
      assert forall i {:trigger Contents()[i]} :: 1 <= i < entry ==> Contents()[i] == old(Contents())[i - 1];
      assert Contents() == [value] + old(Contents());
    }

    method Pop() returns (value: u32)
      requires Ring() && entry > 0
      modifies this`entry, this`outOffset
      ensures Ring() && value == old(Contents())[0] && Contents() == old(Contents())[1..]
    {
      value := msgPool[outOffset];
      outOffset := outOffset + 1;
      if outOffset >= size {
        outOffset := 0;
      }
      entry := entry - 1;
      assert forall i {:trigger Contents()[i]} :: 0 <= i < entry ==> Contents()[i] == old(Contents())[i + 1];
      assert Contents() == old(Contents())[1..];
    }

    /** rt_mb_send_wait from one interrupt-disable to the next: the first look or a look after a resume. */
    method SendSection(t: Tid, value: u32, timeout: int, prio: Tid -> nat) returns (r: Outcome)
      requires Valid() && Enabled(Abstract(), TrySend(t, value, timeout != 0))
      modifies this, msgPool
      ensures Valid() && Step(old(Abstract()), TrySend(t, value, timeout != 0), Abstract(), prio)
      ensures r == if old(entry) < size then Ok else if timeout == 0 then Failed(-RT_EFULL) else Blocked
    {
      hide Inv, Enqueue;
      ghost var s := Abstract();
      if entry == size {
        sendWoken := sendWoken - {t};
        if timeout == 0 {
          r := Failed(-RT_EFULL);
        } else {
          senders := Enqueue(senders, t, flag, prio);
          r := Blocked;
        }
      } else {
        Push(value);
        sendWoken := sendWoken - {t};
        ResumeReceiver();
        r := Ok;
      }
      StepKeeps(s, TrySend(t, value, timeout != 0), Abstract(), prio);
    }

    /** rt_mb_urgent. */
    method UrgentSection(value: u32, ghost prio: Tid -> nat) returns (r: Outcome)
      requires Valid()
      modifies this, msgPool
      ensures Valid() && Step(old(Abstract()), Urgent(value), Abstract(), prio)
      ensures r == if old(entry) < size then Ok else Failed(-RT_EFULL)
    {
      hide Inv, Enqueue;
      ghost var s := Abstract();
      if entry == size {
        r := Failed(-RT_EFULL);
      } else {
        PushFront(value);
        ResumeReceiver();
        r := Ok;
      }
      StepKeeps(s, Urgent(value), Abstract(), prio);
    }

    /** rt_mb_recv from one interrupt-disable to the next. */
    method RecvSection(t: Tid, timeout: int, prio: Tid -> nat) returns (r: Outcome, value: u32)
      requires Valid() && Enabled(Abstract(), TryRecv(t, timeout != 0))
      modifies this
      ensures Valid() && Step(old(Abstract()), TryRecv(t, timeout != 0), Abstract(), prio)
      ensures r == if old(entry) > 0 then Ok else if timeout == 0 then Failed(-RT_ETIMEOUT) else Blocked
      ensures r == Ok ==> value == old(Contents())[0]
    {
      hide Inv, Enqueue;
      ghost var s := Abstract();
      value := 0;
      if entry == 0 {
        recvWoken := recvWoken - {t};
        if timeout == 0 {
          r := Failed(-RT_ETIMEOUT);
        } else {
          receivers := Enqueue(receivers, t, flag, prio);
          r := Blocked;
        }
      } else {
        value := Pop();
        recvWoken := recvWoken - {t};
        ResumeSender();
        r := Ok;
      }
      StepKeeps(s, TryRecv(t, timeout != 0), Abstract(), prio);
    }

    /** rt_mb_control with RT_IPC_CMD_RESET. */
    method ResetSection(ghost prio: Tid -> nat)
      requires Valid()
      modifies this
      ensures Valid() && Step(old(Abstract()), Reset, Abstract(), prio)
    {
      ghost var s := Abstract();
      receivers, senders := [], [];
      entry, inOffset, outOffset := 0, 0, 0;
      StepKeeps(s, Reset, Abstract(), prio);
    }

    method ResumeReceiver()
      modifies this`receivers, this`recvWoken
      ensures receivers == if old(receivers) == [] then [] else old(receivers)[1..]
      ensures recvWoken == if old(receivers) == [] then old(recvWoken) else old(recvWoken) + {old(receivers)[0]}
    {
      if receivers != [] {
        recvWoken := recvWoken + {receivers[0]};
        receivers := receivers[1..];
      }
    }

    method ResumeSender()
      modifies this`senders, this`sendWoken
      ensures senders == if old(senders) == [] then [] else old(senders)[1..]
      ensures sendWoken == if old(senders) == [] then old(sendWoken) else old(sendWoken) + {old(senders)[0]}
    {
      if senders != [] {
        sendWoken := sendWoken + {senders[0]};
        senders := senders[1..];
      }
    }
  }
}
