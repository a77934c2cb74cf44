/**
 The code of the message queue over its slots: two singly linked lists threaded through the slots' `next` words, with
 a tail pointer for the queue. Each section is proved to be a step of the protocol in module MessageQueue.
 */
module MessageSlots {
  import opened Bytes
  import opened Distinct
  import opened IntrusiveList
  import opened WaitQueue
  import opened WaitChannel
  import opened MessageQueue

  const NULL := -1

  function First(q: seq<nat>): int {
    if q == [] then NULL else q[0]
  }

  function Last(q: seq<nat>): int {
    if q == [] then NULL else q[|q| - 1]
  }

  ghost predicate NextOk(next: seq<int>, q: seq<nat>, i: nat)
    requires i < |q|
  {
    q[i] < |next| && next[q[i]] == if i + 1 < |q| then q[i + 1] else NULL
  }

  /** Following `next` from `start` visits exactly the slots of `q` and then NULL. */
  ghost predicate Chained(next: seq<int>, start: int, q: seq<nat>) {
    start == First(q) && forall i :: 0 <= i < |q| ==> NextOk(next, q, i)
  }

  lemma ChainPop(next: seq<int>, start: int, q: seq<nat>)
    requires Chained(next, start, q) && q != []
    ensures start == q[0] < |next| && Chained(next, next[start], q[1..])
  {
    assert NextOk(next, q, 0);
    forall i | 0 <= i < |q[1..]|
      ensures NextOk(next, q[1..], i)
    {
      assert NextOk(next, q, i + 1);
    }
  }

  lemma ChainFrame(next: seq<int>, next': seq<int>, start: int, q: seq<nat>, x: nat)
    requires Chained(next, start, q) && x !in q && |next'| == |next|
    requires forall k :: 0 <= k < |next| && k != x ==> next'[k] == next[k]
    ensures Chained(next', start, q)
  {
    forall i | 0 <= i < |q|
      ensures NextOk(next', q, i)
    {
      assert NextOk(next, q, i) && q[i] in q;
    }
  }

  lemma ChainPush(next: seq<int>, start: int, q: seq<nat>, x: nat)
    requires Chained(next, start, q) && x < |next| && x !in q && next[x] == start
    ensures Chained(next, x, [x] + q)
  {
    forall i | 0 <= i < |[x] + q|
      ensures NextOk(next, [x] + q, i)
    {
      if i > 0 {
        assert NextOk(next, q, i - 1);
      }
    }
  }

  lemma ChainAppend(next: seq<int>, next': seq<int>, start: int, q: seq<nat>, x: nat)
    requires Chained(next, start, q) && NoDuplicates(q) && q != [] && x < |next| && x !in q && next[x] == NULL
    requires q[|q| - 1] < |next| && next' == next[q[|q| - 1] := x]
    ensures Chained(next', start, q + [x])
  {
    forall i | 0 <= i < |q + [x]|
      ensures NextOk(next', q + [x], i)
    {
      if i < |q| {
        assert NextOk(next, q, i);
      }
    }
  }

  lemma {:induction false} ReversedAppend(q: seq<nat>, x: nat)
    ensures Reversed(q + [x]) == [x] + Reversed(q)
  {
    if q != [] {
      assert (q + [x])[1..] == q[1..] + [x];
      ReversedAppend(q[1..], x);
    }
  }

  /** Slot number `k` of a reset: it is in neither list that remains. */
  lemma MoveOne(q: seq<nat>, k: nat, free: seq<nat>)
    requires NoDuplicates(q) && k < |q| && forall x :: x in q ==> x !in free
    ensures q[k] !in q[k..][1..] && q[k] !in Reversed(q[..k]) + free && q[k] in q
    ensures q[k..][1..] == q[k + 1..] && NoDuplicates(q[k..])
    ensures Reversed(q[..k + 1]) + free == [q[k]] + (Reversed(q[..k]) + free)
  {
    assert q[..k + 1] == q[..k] + [q[k]];
    ReversedAppend(q[..k], q[k]);
  }

  const HEADER := 4  // sizeof(struct rt_mq_message)

  /** msg_size for messages of `size` bytes, and max_msgs for a pool: both are 16-bit fields. */
  function MsgSize(size: u32): (n: nat)
    ensures n < 0x1_0000
  {
    Align(size) % 0x1_0000
  }

  function MaxMsgs(poolSize: nat, size: u32): (n: nat)
    ensures n <= RT_MQ_ENTRY_MAX
  {
    poolSize / (MsgSize(size) + HEADER) % 0x1_0000
  }

  /** Where slot `k` lies in the message pool: its `next` word, then its payload. */
  function SlotAt(start: nat, size: u32, k: nat): int {
    start + k * (MsgSize(size) + HEADER)
  }

  /** The slots lie in the pool, one after the other. */
  lemma SlotsFit(start: nat, poolSize: nat, size: u32, j: nat, k: nat)
    requires j < k <= MaxMsgs(poolSize, size)
    ensures start <= SlotAt(start, size, j) && SlotAt(start, size, j) + HEADER + MsgSize(size) <= SlotAt(start, size, k)
    ensures SlotAt(start, size, k) <= start + poolSize
  {
    hide MsgSize;
    var step := MsgSize(size) + HEADER;
    var n: nat := poolSize / step;
    DivFacts(poolSize, step);
    Low16(n);
    Grid(j, k, n, step);
  }

  /** They are as many as fit exactly if that number fits the 16 bits of max_msgs. */
  lemma SlotsMost(start: nat, poolSize: nat, size: u32)
    ensures start + poolSize < SlotAt(start, size, MaxMsgs(poolSize, size) + 1)
       <==> poolSize < 0x1_0000 * (MsgSize(size) + HEADER)
  {
    hide MsgSize;
    var step := MsgSize(size) + HEADER;
    var n: nat := poolSize / step;
    DivFacts(poolSize, step);
    NextMultiple(poolSize, step);
    var m := MaxMsgs(poolSize, size);
    if n < 0x1_0000 {
      Products(n + 1, 0x1_0000, step);
    } else {
      assert m <= n - 0x1_0000;
      Products(m + 1, n, step);
      Products(0x1_0000, n, step);
    }
  }

  lemma Products(a: nat, b: nat, step: nat)
    requires a <= b
    ensures a * step <= b * step
  {
  }

  lemma Low16(n: nat)
    ensures n % 0x1_0000 <= n
  {
  }

  lemma Grid(j: nat, k: nat, n: nat, step: nat)
    requires j < k <= n
    ensures 0 <= j * step && j * step + step <= k * step <= n * step
  {
    assert k * step - j * step == (k - j) * step && n * step - k * step == (n - k) * step;
    NonNegative(j, step);
    NonNegative(k - j - 1, step);
    assert (k - j) * step == (k - j - 1) * step + step;
    NonNegative(n - k, step);
  }

  /** A slot holds the messages its queue was made for exactly when the size, rounded up, fits 16 bits. */
  lemma SlotHolds(size: u32)
    ensures MsgSize(size) >= size <==> size <= 0xFFFC
  {
    AlignRoundsUp(size);
    hide Align;
    Low16Aligned(Align(size));
  }

  lemma Low16Aligned(a: nat)
    requires Aligned(a)
    ensures a % 0x1_0000 < 0x1_0000 && (a <= 0xFFFC <==> a < 0x1_0000) && (a < 0x1_0000 ==> a % 0x1_0000 == a)
    ensures a == 0x1_0000 ==> a % 0x1_0000 == 0
  {
    assert a < 0x1_0000 ==> a != 0xFFFD && a != 0xFFFE && a != 0xFFFF;
  }

  class MqObject {
    const maxMsgs: nat
    const msgSize: nat
    const flag: Flag
    const next: array<int>    // the next word of each slot
    const data: array<Msg>    // the payload of each slot
    var head: int
    var tail: int
    var free: int
    var entry: nat
    var receivers: seq<Tid>  // parent.suspend_thread
    var senders: seq<Tid>    // suspend_sender_thread
    ghost var abs: State     // the protocol state this object is in
    ghost var cleared: set<Tid>  // senders that have set the `next` of their slot to NULL

    ghost predicate Valid()
      reads this, next, data
    {
      && abs.maxMsgs == maxMsgs == next.Length == data.Length <= RT_MQ_ENTRY_MAX
      && abs.msgSize == msgSize && abs.flag == flag && abs.data == data[..]
      && abs.recv.waiting == receivers && abs.send.waiting == senders
      && Chained(next[..], head, abs.queue) && tail == Last(abs.queue) && entry == |abs.queue|
      && Chained(next[..], free, abs.free)
      && Invariant(abs)
      && forall t :: t in cleared ==> t in abs.holders && Cleared(next[..], abs.holders[t])
    }

    static ghost predicate Cleared(next: seq<int>, h: Pc) {
      h.Filling? && !h.urgent && h.slot < |next| && next[h.slot] == NULL
    }

    /** rt_mq_init for a pool of `poolSize` bytes: the slots are pushed on the free list one by one. */
    constructor (next: array<int>, data: array<Msg>, poolSize: nat, size: u32, flag: Flag)
      requires next.Length == data.Length == MaxMsgs(poolSize, size)
      requires forall x :: 0 <= x < data.Length ==> |data[x]| == MsgSize(size)
      modifies next
      ensures Valid() && Initial(abs) && this.next == next && this.data == data && msgSize == MsgSize(size)
    {
      maxMsgs, msgSize, this.flag := next.Length, MsgSize(size), flag;
      this.next, this.data := next, data;
      head, tail, entry, receivers, senders := NULL, NULL, 0, [], [];
      free := NULL;
      abs := State(next.Length, MsgSize(size), flag, [], Countdown(next.Length), data[..], map[], Side([], {}),
                   Side([], {}), []);
      cleared := {};
      new;
      InitialHolds(abs);
      hide Invariant, MaxMsgs, MsgSize;
      BuildFree();
    }

    /** The loop of rt_mq_init. */
    method BuildFree()
      requires free == NULL && maxMsgs == next.Length
      modifies next, this`free
      ensures Chained(next[..], free, Countdown(maxMsgs))
    {
      var temp := 0;
      while temp < maxMsgs
        invariant temp <= maxMsgs && free == First(Countdown(temp)) && Chained(next[..], free, Countdown(temp))
      {
        ghost var before := next[..];
        next[temp] := free;
        ChainFrame(before, next[..], free, Countdown(temp), temp);
        ChainPush(next[..], free, Countdown(temp), temp);
        free := temp;
        temp := temp + 1;
      }
    }

    /** First section of rt_mq_send_wait and rt_mq_urgent. */
    method GrabSection(t: Tid, msg: Msg, urgent: bool, timeout: int, prio: Tid -> nat) returns (r: Outcome, slot: int)
      requires Valid() && Enabled(abs, Grab(t, msg, urgent, timeout != 0))
      modifies this, next
      ensures Valid() && abs == After(old(abs), Grab(t, msg, urgent, timeout != 0), prio)
      ensures r == if |msg| > msgSize then Failed(-RT_ERROR) else if old(abs).free != [] then Ok
                   else if timeout == 0 then Failed(-RT_EFULL) else Blocked
      ensures r == Ok ==> old(abs).free != [] && slot == old(abs).free[0]
      ensures r == Ok ==> t in abs.holders && abs.holders[t] == Filling(slot, msg, 0, urgent)
    {
      hide Invariant;
      ghost var s := abs;
      StepKeeps(s, Grab(t, msg, urgent, timeout != 0), prio);
      abs := After(s, Grab(t, msg, urgent, timeout != 0), prio);
      slot := NULL;
      if |msg| > msgSize {
        return Failed(-RT_ERROR), slot;
      }
      slot := free;
      if slot == NULL {
        if timeout == 0 {
          r := Failed(-RT_EFULL);
        } else {
          senders := Enqueue(senders, t, flag, prio);
          r := Blocked;
        }
      } else {
        FreeApart(s);
        ChainPop(next[..], free, s.free);
        free := next[slot];
        r := Ok;
      }
    }

    /** With interrupts enabled again an ordinary send clears the `next` of its slot: no step of the protocol. */
    method ClearNext(t: Tid, slot: nat)
      requires Valid() && t in abs.holders && abs.holders[t].Filling? && !abs.holders[t].urgent
      requires slot == abs.holders[t].slot
      modifies next, this`cleared
      ensures Valid() && abs == old(abs) && t in cleared
    {
      hide Invariant;
      ghost var before := next[..];
      HolderApart(abs, t);
      next[slot] := NULL;
      ChainFrame(before, next[..], head, abs.queue, slot);
      ChainFrame(before, next[..], free, abs.free, slot);
      cleared := cleared + {t};
    }

    /** One byte of the copy between the two sections of a send. */
    method CopyInByte(t: Tid, slot: nat, done: nat, b: byte, ghost prio: Tid -> nat)
      requires Valid() && Enabled(abs, CopyIn(t))
      requires slot == abs.holders[t].slot && done == abs.holders[t].done && b == abs.holders[t].msg[done]
      modifies this`abs, data
      ensures Valid() && abs == After(old(abs), CopyIn(t), prio)
    {
      hide Invariant;
      StepKeeps(abs, CopyIn(t), prio);
      data[slot] := data[slot][done := b];
      abs := After(abs, CopyIn(t), prio);
    }

    ghost predicate Lists(q: seq<nat>, f: seq<nat>)
      reads this, next
    {
      Chained(next[..], head, q) && tail == Last(q) && Chained(next[..], free, f)
    }

    /** Links a prepared slot behind the tail. */
    method AppendSlot(slot: nat, ghost q: seq<nat>, ghost f: seq<nat>)
      requires Lists(q, f) && NoDuplicates(q) && forall x :: x in q ==> x !in f
      requires slot < next.Length && slot !in q && next[slot] == NULL
      modifies next, this`head, this`tail
      ensures Lists(q + [slot], f)
      ensures forall x :: 0 <= x < next.Length && x !in q ==> next[x] == old(next[x])
    {
      ghost var before := next[..];
      if tail != NULL {
        assert NextOk(before, q, |q| - 1) && q[|q| - 1] in q;
        next[tail] := slot;
        ChainAppend(before, next[..], head, q, slot);
        ChainFrame(before, next[..], free, f, tail);
      } else {
        assert q == [];
        ChainPush(before, NULL, [], slot);
        assert [slot] + [] == q + [slot];
      }
      tail := slot;
      if head == NULL {
        head := slot;
      }
    }

    /** Links a slot in front of the head. */
    method PrependSlot(slot: nat, ghost q: seq<nat>, ghost f: seq<nat>)
      requires Lists(q, f) && slot < next.Length && slot !in q && slot !in f
      modifies next, this`head, this`tail
      ensures Lists([slot] + q, f)
      ensures forall x :: 0 <= x < next.Length && x != slot ==> next[x] == old(next[x])
    {
      ghost var before := next[..];
      next[slot] := head;
      ChainFrame(before, next[..], head, q, slot);
      ChainFrame(before, next[..], free, f, slot);
      ChainPush(next[..], head, q, slot);
      head := slot;
      if tail == NULL {
        tail := slot;
      }
    }

    method CountEntry()
      requires entry < RT_MQ_ENTRY_MAX
      modifies this`entry
      ensures entry == old(entry) + 1
    {
      if entry < RT_MQ_ENTRY_MAX {
        entry := entry + 1;
      } else {
        assert false;  // the overflow return is out of reach
      }
    }

    /** Second section of rt_mq_send_wait. */
    method LinkSection(t: Tid, slot: nat, ghost prio: Tid -> nat)
      requires Valid() && Filled(abs, t) && t in cleared && slot == abs.holders[t].slot
      modifies this, next
      ensures Valid() && abs == After(old(abs), Link(t), prio)
    {
      hide Invariant, Chained, Last, NoDuplicates;
      ghost var s := abs;
      HolderApart(s, t);
      LinkHasRoom(s, t);
      QueueApart(s);
      StepKeeps(s, Link(t), prio);
      abs := After(s, Link(t), prio);
      cleared := cleared - {t};
      AppendSlot(slot, s.queue, s.free);
      CountEntry();
      ResumeReceiver();
    }

    /** Second section of rt_mq_urgent. */
    method LinkUrgentSection(t: Tid, slot: nat, ghost prio: Tid -> nat)
      requires Valid() && Filled(abs, t) && abs.holders[t].urgent && slot == abs.holders[t].slot
      modifies this, next
      ensures Valid() && abs == After(old(abs), Link(t), prio)
    {
      hide Invariant, Chained, Last, NoDuplicates;
      ghost var s := abs;
      HolderApart(s, t);
      LinkHasRoom(s, t);
      StepKeeps(s, Link(t), prio);
      abs := After(s, Link(t), prio);
      PrependSlot(slot, s.queue, s.free);
      CountEntry();
      ResumeReceiver();
    }

    /** Takes the head off the queue. */
    method PopHead(ghost q: seq<nat>, ghost f: seq<nat>) returns (slot: nat)
      requires Lists(q, f) && q != [] && NoDuplicates(q)
      modifies this`head, this`tail
      ensures Lists(q[1..], f) && slot == q[0]
    {
      ChainPop(next[..], head, q);
      slot := head;
      head := next[slot];
      if tail == slot {
        assert |q| == 1;
        tail := NULL;
      }
    }

    /** First section of rt_mq_recv. */
    method DequeueSection(t: Tid, size: nat, timeout: int, prio: Tid -> nat) returns (r: Outcome, slot: int)
      requires Valid() && Enabled(abs, Dequeue(t, size, timeout != 0))
      modifies this
      ensures Valid() && abs == After(old(abs), Dequeue(t, size, timeout != 0), prio)
      ensures r == if old(abs).queue != [] then Ok else if timeout == 0 then Failed(-RT_ETIMEOUT) else Blocked
      ensures r == Ok ==> slot == old(abs).queue[0] && old(abs).msgs != []
      ensures r == Ok ==> t in abs.holders && abs.holders[t] == Draining(slot, old(abs).msgs[0], Min(size, msgSize), [])
    {
      hide Invariant, Chained, NoDuplicates, Enqueue, Last;
      ghost var s := abs;
      QueueApart(s);
      StepKeeps(s, Dequeue(t, size, timeout != 0), prio);
      abs := After(s, Dequeue(t, size, timeout != 0), prio);
      slot := NULL;
      if entry == 0 {
        if timeout == 0 {
          r := Failed(-RT_ETIMEOUT);
        } else {
          receivers := Enqueue(receivers, t, flag, prio);
          r := Blocked;
        }
      } else {
        slot := PopHead(s.queue, s.free);
        entry := entry - 1;
        r := Ok;
      }
    }

    /** One byte of the copy between the two sections of a receive. */
    method CopyOutByte(t: Tid, slot: nat, done: nat, ghost prio: Tid -> nat) returns (b: byte)
      requires Valid() && Enabled(abs, CopyOut(t))
      requires slot == abs.holders[t].slot && done == |abs.holders[t].got|
      modifies this`abs
      ensures Valid() && abs == After(old(abs), CopyOut(t), prio)
      ensures abs.holders[t].got == old(abs).holders[t].got + [b]
    {
      hide Invariant;
      StepKeeps(abs, CopyOut(t), prio);
      b := data[slot][done];
      abs := After(abs, CopyOut(t), prio);
    }

    /** Second section of rt_mq_recv. */
    method GiveBackSection(t: Tid, slot: nat, ghost prio: Tid -> nat)
      requires Valid() && Drained(abs, t) && slot == abs.holders[t].slot
      modifies this, next
      ensures Valid() && abs == After(old(abs), GiveBack(t), prio)
    {
      hide Invariant;
      ghost var s, before := abs, next[..];
      HolderApart(s, t);
      StepKeeps(s, GiveBack(t), prio);
      abs := After(s, GiveBack(t), prio);
      next[slot] := free;
      ChainFrame(before, next[..], head, s.queue, slot);
      ChainFrame(before, next[..], free, s.free, slot);
      ChainPush(next[..], free, s.free, slot);
      free := slot;
      ResumeSender();
    }

    /** One round of the reset loop: the first queued slot becomes the first free one. */
    method MoveHead(ghost q: seq<nat>, ghost f: seq<nat>)
      requires Lists(q, f) && q != [] && NoDuplicates(q) && q[0] !in f
      modifies next, this`head, this`tail, this`free
      ensures Lists(q[1..], [q[0]] + f)
      ensures q[0] < next.Length && forall x :: 0 <= x < next.Length && x != q[0] ==> next[x] == old(next[x])
    {
      ghost var m := next[..];
      Uncons(q);
      ChainPop(m, head, q);
      var msg := head;
      head := next[msg];
      if tail == msg {
        assert |q| == 1;
        tail := NULL;
      }
      next[msg] := free;
      ChainFrame(m, next[..], head, q[1..], msg);
      ChainFrame(m, next[..], free, f, msg);
      ChainPush(next[..], free, f, msg);
      free := msg;
    }

    method Flush(ghost queue: seq<nat>, ghost f: seq<nat>)
      requires Lists(queue, f) && NoDuplicates(queue) && forall x :: x in queue ==> x !in f
      modifies next, this`head, this`tail, this`free
      ensures Lists([], Reversed(queue) + f)
      ensures forall x :: 0 <= x < next.Length && x !in queue ==> next[x] == old(next[x])
    {
      ghost var k := 0;
      assert queue[0..] == queue && Reversed(queue[..0]) + f == f;
      while head != NULL
        invariant k <= |queue| && Lists(queue[k..], Reversed(queue[..k]) + f)
        invariant forall x :: 0 <= x < next.Length && x !in queue ==> next[x] == old(next[x])
        modifies next, this`head, this`tail, this`free
        decreases |queue| - k
      {
        MoveOne(queue, k, f);
        MoveHead(queue[k..], Reversed(queue[..k]) + f);
        k := k + 1;
      }
      assert queue[k..] == [] && queue[..k] == queue;
    }

    /** rt_mq_control with RT_IPC_CMD_RESET: the queued slots move to the free list one by one. */
    method ResetSection(ghost prio: Tid -> nat)
      requires Valid()
      modifies this, next
      ensures Valid() && abs == After(old(abs), Reset, prio)
    {
      hide Invariant, Chained, NoDuplicates, Reversed, Last;
      ghost var s := abs;
      QueueApart(s);
      Flush(s.queue, s.free);
      receivers, senders, entry := [], [], 0;
      StepKeeps(s, Reset, prio);
      abs := After(s, Reset, prio);
    }

    method ResumeReceiver()
      modifies this`receivers
      ensures receivers == if old(receivers) == [] then [] else old(receivers)[1..]
    {
      if receivers != [] {
        receivers := receivers[1..];
      }
    }

    method ResumeSender()
      modifies this`senders
      ensures senders == if old(senders) == [] then [] else old(senders)[1..]
    {
      if senders != [] {
        senders := senders[1..];
      }
    }
  }
}
