/** What the callers of a message queue see over its runs: their messages, their bytes, and their waiting. */
module MessageRuns {
  import opened Bytes
  import opened Distinct
  import opened IntrusiveList
  import opened WaitQueue
  import opened WaitChannel
  import opened WaitHistory
  import opened Histories
  import opened MessageQueue

  /** The number of the section at which `t` last began to send or to receive, among the first `k`; 0 for none. */
  function Began(labels: seq<Label>, k: nat, t: Tid): (n: nat)
    requires k <= |labels|
    ensures n <= k && (n > 0 ==> (labels[n - 1].Grab? || labels[n - 1].Dequeue?) && labels[n - 1].t == t)
  {
    if k == 0 then 0
    else if (labels[k - 1].Grab? || labels[k - 1].Dequeue?) && labels[k - 1].t == t then k
    else Began(labels, k - 1, t)
  }

  predicate SameJob(h: Pc, h': Pc) {
    match h
    case Filling(slot, msg, _, urgent) => h'.Filling? && h'.slot == slot && h'.msg == msg && h'.urgent == urgent
    case Draining(slot, msg, want, _) => h'.Draining? && h'.slot == slot && h'.msg == msg && h'.want == want
  }

  /** What `h` is about, if the section that began it was `l` in state `s`. */
  predicate BegunBy(h: Pc, s: State, l: Label) {
    match h
    case Filling(_, msg, _, urgent) => l.Grab? && msg == l.msg && urgent == l.urgent
    case Draining(_, msg, want, _) => l.Dequeue? && s.msgs != [] && msg == s.msgs[0] && want == Min(l.size, s.msgSize)
  }

  /** Nobody but the thread itself changes what it has in hands, and it begins anew only with empty hands. */
  lemma HolderNext(s: State, l: Label, prio: Tid -> nat, t: Tid)
    requires Enabled(s, l) && t in After(s, l, prio).holders
    ensures var own := (l.Grab? || l.Dequeue?) && l.t == t;
            var h := After(s, l, prio).holders[t];
            if own then BegunBy(h, s, l) else t in s.holders && SameJob(s.holders[t], h)
    ensures After(s, l, prio).msgSize == s.msgSize
  {
    hide Enqueue, Remove, Inv;
  }

  lemma SameJobBegun(h: Pc, h': Pc, s: State, l: Label)
    requires SameJob(h, h') && BegunBy(h, s, l)
    ensures BegunBy(h', s, l)
  {
  }

  lemma {:induction false} SizeKept(states: seq<State>, labels: seq<Label>, prios: seq<Tid -> nat>, k: nat)
    requires Run(states, labels, prios) && k < |states|
    ensures states[k].msgSize == states[0].msgSize && states[k].maxMsgs == states[0].maxMsgs
    ensures states[k].flag == states[0].flag
  {
    hide Enabled, Enqueue, Remove;
    if k > 0 {
      SizeKept(states, labels, prios, k - 1);
      assert states[k] == states[k - 1 + 1];
    }
  }

  lemma {:induction false} HolderBegan(states: seq<State>, labels: seq<Label>, prios: seq<Tid -> nat>, k: nat, t: Tid)
    requires Run(states, labels, prios) && k < |states| && t in states[k].holders
    ensures Began(labels, k, t) > 0
    ensures BegunBy(states[k].holders[t], states[Began(labels, k, t) - 1], labels[Began(labels, k, t) - 1])
  {
    hide After, Enabled, SameJob, BegunBy;
    if k > 0 {
      var s, l := states[k - 1], labels[k - 1];
      assert states[k] == states[k - 1 + 1];
      HolderNext(s, l, prios[k - 1], t);
      if !((l.Grab? || l.Dequeue?) && l.t == t) {
        HolderBegan(states, labels, prios, k - 1, t);
        var n := Began(labels, k - 1, t);
        SameJobBegun(s.holders[t], states[k].holders[t], states[n - 1], labels[n - 1]);
      }
    }
  }

  /** The slot drained holds the message, and the bytes so far are its first ones. */
  lemma DrainedHas(s: State, t: Tid)
    requires Invariant(s) && Drained(s, t)
    ensures var h := s.holders[t];
            |h.got| == h.want && |h.msg| <= s.msgSize && h.got[..Min(|h.msg|, h.want)] == h.msg[..Min(|h.msg|, h.want)]
  {
    var h := s.holders[t];
    assert HolderOk(s, t);
    var n := Min(|h.msg|, h.want);
    var d := s.data[h.slot];
    assert h.got[..n] == d[..|h.got|][..n] == d[..n] == d[..|h.msg|][..n];
  }

  /**
   In every run: a receive that gives its slot back has copied as many bytes as its caller asked for, or a message can
   have, and they begin with the message that was the first in the queue when it began: all of it, or as much as was
   asked for. Whatever the other threads did in between.
   */
  lemma Delivery(states: seq<State>, labels: seq<Label>, prios: seq<Tid -> nat>, k: nat, t: Tid)
    requires Run(states, labels, prios) && k < |labels| && labels[k] == GiveBack(t)
    ensures var n := Began(labels, k, t);
            && n > 0 && labels[n - 1].Dequeue? && labels[n - 1].t == t && states[n - 1].msgs != []
            && t in states[k].holders && states[k].holders[t].Draining?
            && var size, m, got := labels[n - 1].size, states[n - 1].msgs[0], states[k].holders[t].got;
               && |got| == Min(size, states[0].msgSize)
               && |m| <= states[0].msgSize && got[..Min(|m|, size)] == m[..Min(|m|, size)]
  {
    hide After, Invariant;
    RunKeeps(states, labels, prios, k);
    HolderBegan(states, labels, prios, k, t);
    SizeKept(states, labels, prios, k);
    SizeKept(states, labels, prios, Began(labels, k, t) - 1);
    DrainedHas(states[k], t);
  }

  /** What a send links is the message its caller gave, whole: an urgent one first in the queue, any other last. */
  lemma LinkedWhole(states: seq<State>, labels: seq<Label>, prios: seq<Tid -> nat>, k: nat, t: Tid)
    requires Run(states, labels, prios) && k < |labels| && labels[k] == Link(t)
    ensures var n := Began(labels, k, t);
            && n > 0 && labels[n - 1].Grab? && labels[n - 1].t == t
            && var m := labels[n - 1].msg;
               states[k + 1].msgs == if labels[n - 1].urgent then [m] + states[k].msgs else states[k].msgs + [m]
  {
    HolderBegan(states, labels, prios, k, t);
  }

  /** A thread in the middle of a copy can always go on with it. */
  lemma NeverStuck(s: State, t: Tid)
    requires Invariant(s) && t in s.holders
    ensures s.holders[t].Filling? ==> Enabled(s, CopyIn(t)) || Enabled(s, Link(t))
    ensures s.holders[t].Draining? ==> Enabled(s, CopyOut(t)) || Enabled(s, GiveBack(t))
  {
    assert HolderOk(s, t);
  }

  /** The message that section `k` links: what the thread was called with. */
  function Put(labels: seq<Label>, k: nat): seq<Msg>
    requires k < |labels|
  {
    if !labels[k].Link? then []
    else
      var n := Began(labels, k, labels[k].t);
      if n > 0 && labels[n - 1].Grab? then [labels[n - 1].msg] else []
  }

  function Out(s: State, l: Label): seq<Msg> {
    if l.Dequeue? && s.msgs != [] then [s.msgs[0]] else []
  }

  function Lost(s: State, l: Label): seq<Msg> {
    if l.Reset? then s.msgs else []
  }

  /** What the sections of a run link, take and throw away, and the queue between them. */
  function Linked(labels: seq<Label>): (ins: seq<seq<Msg>>)
    ensures |ins| == |labels| && forall i :: 0 <= i < |ins| ==> ins[i] == Put(labels, i)
  {
    seq(|labels|, i requires 0 <= i < |labels| => Put(labels, i))
  }

  function Taken(states: seq<State>, labels: seq<Label>): (outs: seq<seq<Msg>>)
    requires |labels| < |states|
    ensures |outs| == |labels| && forall i :: 0 <= i < |outs| ==> outs[i] == Out(states[i], labels[i])
  {
    seq(|labels|, i requires 0 <= i < |labels| => Out(states[i], labels[i]))
  }

  function Dropped(states: seq<State>, labels: seq<Label>): (lost: seq<seq<Msg>>)
    requires |labels| < |states|
    ensures |lost| == |labels| && forall i :: 0 <= i < |lost| ==> lost[i] == Lost(states[i], labels[i])
  {
    seq(|labels|, i requires 0 <= i < |labels| => Lost(states[i], labels[i]))
  }

  function Queue(states: seq<State>): (contents: seq<seq<Msg>>)
    ensures |contents| == |states| && forall i :: 0 <= i < |contents| ==> contents[i] == states[i].msgs
  {
    seq(|states|, i requires 0 <= i < |states| => states[i].msgs)
  }

  /** The number of the section after the last reset among the first `k`, or 0. */
  function LastReset(labels: seq<Label>, k: nat): (j: nat)
    requires k <= |labels|
    ensures j <= k && (j > 0 ==> labels[j - 1].Reset?) && forall i :: j <= i < k ==> !labels[i].Reset?
  {
    if k == 0 then 0 else if labels[k - 1].Reset? then k else LastReset(labels, k - 1)
  }

  /** Section `i` links no urgent message. */
  predicate Plain(labels: seq<Label>, i: nat)
    requires i < |labels|
  {
    labels[i].Link? ==>
      var n := Began(labels, i, labels[i].t);
      n > 0 && labels[n - 1].Grab? ==> !labels[n - 1].urgent
  }

  /** One section moves messages in at an end, out at the front, or all away. */
  predicate Moves(m: seq<Msg>, m': seq<Msg>, put: seq<Msg>, out: seq<Msg>, lost: seq<Msg>, inOrder: bool) {
    && multiset(out) + multiset(m') + multiset(lost) == multiset(m) + multiset(put)
    && (inOrder ==> out + m' == m + put)
  }

  lemma PutMoves(m: seq<Msg>, m': seq<Msg>, msg: Msg, urgent: bool)
    requires m' == if urgent then [msg] + m else m + [msg]
    ensures Moves(m, m', [msg], [], [], !urgent)
  {
  }

  lemma FrontMoves(m: seq<Msg>)
    requires m != []
    ensures Moves(m, m[1..], [], [m[0]], [], true)
  {
    assert m == [m[0]] + m[1..];
  }

  lemma SameMoves(m: seq<Msg>)
    ensures Moves(m, m, [], [], [], true) && Moves(m, [], [], [], m, false)
  {
    assert [] + m == m == m + [];
  }

  lemma MessagesNext(s: State, l: Label, prio: Tid -> nat)
    requires Enabled(s, l) && !l.Link? && |s.msgs| == |s.queue|
    ensures After(s, l, prio).msgs == if l.Reset? then [] else if Out(s, l) != [] then s.msgs[1..] else s.msgs
  {
    hide Enqueue, Remove;
  }

  lemma OutMoves(s: State, l: Label, prio: Tid -> nat)
    requires Enabled(s, l) && !l.Link? && |s.msgs| == |s.queue|
    ensures Moves(s.msgs, After(s, l, prio).msgs, [], Out(s, l), Lost(s, l), !l.Reset?)
  {
    hide After, Enabled, Moves;
    MessagesNext(s, l, prio);
    SameMoves(s.msgs);
    if Out(s, l) != [] {
      FrontMoves(s.msgs);
    }
  }

  lemma MessagesMove(states: seq<State>, labels: seq<Label>, prios: seq<Tid -> nat>, k: nat)
    requires Run(states, labels, prios) && k < |labels|
    ensures Moves(states[k].msgs, states[k + 1].msgs, Put(labels, k), Out(states[k], labels[k]), Lost(states[k], labels[k]),
                  Plain(labels, k) && !labels[k].Reset?)
  {
    hide Invariant, After, Enabled, Moves;
    RunKeeps(states, labels, prios, k);
    LengthsAgree(states[k]);
    var l := labels[k];
    if l.Link? {
      LinkedWhole(states, labels, prios, k, l.t);
      var job := labels[Began(labels, k, l.t) - 1];
      PutMoves(states[k].msgs, states[k + 1].msgs, job.msg, job.urgent);
    } else {
      OutMoves(states[k], l, prios[k]);
    }
  }

  lemma LengthsAgree(s: State)
    requires Invariant(s)
    ensures |s.msgs| == |s.queue|
  {
  }

  /**
   In every run, and after any number of resets: as long as no urgent message was linked since the last reset, the
   messages taken since then, followed by those in the queue, are those the senders gave, in the order of their links.
   */
  lemma FirstInFirstOut(states: seq<State>, labels: seq<Label>, prios: seq<Tid -> nat>, k: nat)
    requires Run(states, labels, prios) && k <= |labels|
    requires forall i :: LastReset(labels, k) <= i < k ==> Plain(labels, i)
    ensures var j := LastReset(labels, k);
            Flat(Taken(states, labels), j, k) + states[k].msgs == Flat(Linked(labels), j, k)
  {
    hide Plain, Out, Put, Flat, Enabled;
    var j := LastReset(labels, k);
    if j > 0 {
      assert states[j - 1 + 1] == After(states[j - 1], labels[j - 1], prios[j - 1]);
    }
    assert states[j].msgs == [];
    hide After;
    forall i | j <= i < k
      ensures Out(states[i], labels[i]) + states[i + 1].msgs == states[i].msgs + Put(labels, i)
    {
      MessagesMove(states, labels, prios, i);
    }
    FlatInOrder(Queue(states), Linked(labels), Taken(states, labels), j, k);
    assert [] + Flat(Linked(labels), j, k) == Flat(Linked(labels), j, k);
  }

  /** In every run, urgent messages and resets included, every message linked is taken once, dropped once, or in the queue. */
  lemma NothingLost(states: seq<State>, labels: seq<Label>, prios: seq<Tid -> nat>, k: nat)
    requires Run(states, labels, prios) && k <= |labels|
    ensures multiset(Flat(Taken(states, labels), 0, k)) + multiset(states[k].msgs)
            + multiset(Flat(Dropped(states, labels), 0, k))
         == multiset(Flat(Linked(labels), 0, k))
  {
    hide Out, Put, Lost, Flat, After, Enabled;
    forall i | 0 <= i < k
      ensures multiset(Out(states[i], labels[i])) + multiset(states[i + 1].msgs) + multiset(Lost(states[i], labels[i]))
           == multiset(states[i].msgs) + multiset(Put(labels, i))
    {
      MessagesMove(states, labels, prios, i);
    }
    FlatConserved(Queue(states), Linked(labels), Taken(states, labels), Dropped(states, labels), k);
  }

  /** Between section `i` and section `k` nothing was taken, dropped, or linked in front. */
  predicate Undisturbed(states: seq<State>, labels: seq<Label>, i: nat, k: nat)
    requires k <= |labels| < |states|
  {
    forall j :: i < j < k ==> Plain(labels, j) && !labels[j].Reset? && Out(states[j], labels[j]) == []
  }

  /** An urgent message is what the next receive takes, unless a further urgent one or a reset comes first. */
  lemma UrgentNext(states: seq<State>, labels: seq<Label>, prios: seq<Tid -> nat>, i: nat, k: nat, t: Tid)
    requires Run(states, labels, prios) && i < k < |labels| && labels[i] == Link(t) && labels[k].Dequeue?
    requires Began(labels, i, t) > 0 && labels[Began(labels, i, t) - 1].Grab? && labels[Began(labels, i, t) - 1].urgent
    requires Undisturbed(states, labels, i, k)
    ensures Out(states[k], labels[k]) == [labels[Began(labels, i, t) - 1].msg]
  {
    hide After, Enabled, Undisturbed;
    StaysFirst(states, labels, prios, i, k, t);
  }

  lemma {:induction false} StaysFirst(states: seq<State>, labels: seq<Label>, prios: seq<Tid -> nat>, i: nat, k: nat, t: Tid)
    requires Run(states, labels, prios) && i < k <= |labels| && labels[i] == Link(t)
    requires Began(labels, i, t) > 0 && labels[Began(labels, i, t) - 1].Grab? && labels[Began(labels, i, t) - 1].urgent
    requires Undisturbed(states, labels, i, k)
    ensures states[k].msgs != [] && states[k].msgs[0] == labels[Began(labels, i, t) - 1].msg
  {
    hide After, Enabled, Plain, Put, Moves, Out, Lost;
    if k == i + 1 {
      LinkedWhole(states, labels, prios, i, t);
    } else {
      StaysFirst(states, labels, prios, i, k - 1, t);
      MessagesMove(states, labels, prios, k - 1);
      StillFirst(states[k - 1].msgs, states[k - 1 + 1].msgs, Put(labels, k - 1), Lost(states[k - 1], labels[k - 1]));
    }
  }

  lemma StillFirst(m: seq<Msg>, m': seq<Msg>, put: seq<Msg>, lost: seq<Msg>)
    requires Moves(m, m', put, [], lost, true) && m != []
    ensures m' != [] && m'[0] == m[0]
  {
    assert m' == [] + m' == m + put;
  }

  // ----- who waits, in which order, and who is on the way -----

  /** What a section means to the queue of receivers, and to the queue of senders. */
  function RecvAct(s: State, l: Label): Act {
    match l
    case Dequeue(t, _, wait) => Looks(t, s.queue == [] && wait)
    case Link(_) => Wakes
    case RecvTimeOut(k) => TimesOut(k)
    case Reset => Clears
    case _ => Idle
  }

  function SendAct(s: State, l: Label): Act {
    match l
    case Grab(t, msg, _, wait) => if |msg| > s.msgSize then Idle else Looks(t, s.free == [] && wait)
    case GiveBack(_) => Wakes
    case SendTimeOut(k) => TimesOut(k)
    case Reset => Clears
    case _ => Idle
  }

  function RecvActs(states: seq<State>, labels: seq<Label>): (acts: seq<Act>)
    requires |labels| < |states|
    ensures |acts| == |labels| && forall i :: 0 <= i < |acts| ==> acts[i] == RecvAct(states[i], labels[i])
  {
    seq(|labels|, i requires 0 <= i < |labels| => RecvAct(states[i], labels[i]))
  }

  function SendActs(states: seq<State>, labels: seq<Label>): (acts: seq<Act>)
    requires |labels| < |states|
    ensures |acts| == |labels| && forall i :: 0 <= i < |acts| ==> acts[i] == SendAct(states[i], labels[i])
  {
    seq(|labels|, i requires 0 <= i < |labels| => SendAct(states[i], labels[i]))
  }

  function Receivers(states: seq<State>): (queues: seq<seq<Tid>>)
    ensures |queues| == |states| && forall i :: 0 <= i < |queues| ==> queues[i] == states[i].recv.waiting
  {
    seq(|states|, i requires 0 <= i < |states| => states[i].recv.waiting)
  }

  function Senders(states: seq<State>): (queues: seq<seq<Tid>>)
    ensures |queues| == |states| && forall i :: 0 <= i < |queues| ==> queues[i] == states[i].send.waiting
  {
    seq(|states|, i requires 0 <= i < |states| => states[i].send.waiting)
  }

  lemma ReceiversMove(s: State, l: Label, prio: Tid -> nat)
    requires Enabled(s, l) && |s.msgs| == |s.queue|
    ensures var s' := After(s, l, prio);
            && May(s.recv.waiting, RecvAct(s, l))
            && s'.recv.waiting == Moved(s.recv.waiting, RecvAct(s, l), Queued(s.flag), prio)
            && s'.recv.woken == ComingNext(s.recv.woken, s.recv.waiting, RecvAct(s, l))
  {
    hide Enqueue, Remove;
  }

  lemma SendersMove(s: State, l: Label, prio: Tid -> nat)
    requires Enabled(s, l) && |s.msgs| == |s.queue|
    ensures var s' := After(s, l, prio);
            && May(s.send.waiting, SendAct(s, l))
            && s'.send.waiting == Moved(s.send.waiting, SendAct(s, l), Queued(s.flag), prio)
            && s'.send.woken == ComingNext(s.send.woken, s.send.waiting, SendAct(s, l))
  {
    hide Enqueue, Remove;
  }

  lemma {:induction false} WokenComing(states: seq<State>, labels: seq<Label>, prios: seq<Tid -> nat>, k: nat)
    requires Run(states, labels, prios) && k < |states|
    ensures states[k].recv.woken == Coming(Receivers(states), RecvActs(states, labels), k)
    ensures states[k].send.woken == Coming(Senders(states), SendActs(states, labels), k)
  {
    hide After, Enabled, Invariant, RecvAct, SendAct, Moved, May, ComingNext;
    if k > 0 {
      WokenComing(states, labels, prios, k - 1);
      RunKeeps(states, labels, prios, k - 1);
      LengthsAgree(states[k - 1]);
      assert states[k] == states[k - 1 + 1];
      ReceiversMove(states[k - 1], labels[k - 1], prios[k - 1]);
      SendersMove(states[k - 1], labels[k - 1], prios[k - 1]);
    }
  }

  lemma Traced(states: seq<State>, labels: seq<Label>, prios: seq<Tid -> nat>)
    requires Run(states, labels, prios)
    ensures Trace(Receivers(states), RecvActs(states, labels), Queued(states[0].flag), prios)
    ensures Trace(Senders(states), SendActs(states, labels), Queued(states[0].flag), prios)
  {
    hide After, Enabled, Invariant, RecvAct, SendAct, Moved, May;
    var how := Queued(states[0].flag);
    forall i | 0 <= i < |labels|
      ensures May(states[i].recv.waiting, RecvAct(states[i], labels[i]))
      ensures May(states[i].send.waiting, SendAct(states[i], labels[i]))
      ensures states[i + 1].recv.waiting == Moved(states[i].recv.waiting, RecvAct(states[i], labels[i]), how, prios[i])
      ensures states[i + 1].send.waiting == Moved(states[i].send.waiting, SendAct(states[i], labels[i]), how, prios[i])
    {
      SizeKept(states, labels, prios, i);
      RunKeeps(states, labels, prios, i);
      LengthsAgree(states[i]);
      ReceiversMove(states[i], labels[i], prios[i]);
      SendersMove(states[i], labels[i], prios[i]);
    }
  }

  /** In every run each thread waits exactly as it should, and all in the order the flag asks for. */
  lemma WaitsInTurn(states: seq<State>, labels: seq<Label>, prios: seq<Tid -> nat>, k: nat, t: Tid, prio: Tid -> nat)
    requires Run(states, labels, prios) && k < |states|
    ensures t in states[k].recv.waiting <==> Waits(Receivers(states), RecvActs(states, labels), k, t)
    ensures t in states[k].send.waiting <==> Waits(Senders(states), SendActs(states, labels), k, t)
    ensures Steady(states[0].flag, prios, k, prio) ==>
              && Ordered(states[k].recv.waiting, states[0].flag, prio, Arrival(RecvActs(states, labels), k))
              && Ordered(states[k].send.waiting, states[0].flag, prio, Arrival(SendActs(states, labels), k))
  {
    hide After, Enabled, Waits, Ordered, Arrival, Trace, Steady;
    var flag := states[0].flag;
    Traced(states, labels, prios);
    WaitersExactly(Receivers(states), RecvActs(states, labels), Queued(flag), prios, k, t);
    WaitersExactly(Senders(states), SendActs(states, labels), Queued(flag), prios, k, t);
    if Steady(flag, prios, k, prio) {
      InOrder(Receivers(states), RecvActs(states, labels), flag, prios, k, prio);
      InOrder(Senders(states), SendActs(states, labels), flag, prios, k, prio);
    }
  }

  /**
   No lost wakeup in any run: while receivers wait, those resumed that have not looked again are at least as many as the
   messages there; while senders wait, at least as many as the free slots.
   */
  lemma NoneStranded(states: seq<State>, labels: seq<Label>, prios: seq<Tid -> nat>, k: nat)
    requires Run(states, labels, prios) && k < |states|
    ensures states[k].recv.waiting != [] ==>
              |Coming(Receivers(states), RecvActs(states, labels), k)| >= |states[k].queue|
    ensures states[k].send.waiting != [] ==>
              |Coming(Senders(states), SendActs(states, labels), k)| >= |states[k].free|
  {
    hide After, Enabled, Coming, Partition, Contents;
    RunKeeps(states, labels, prios, k);
    WokenComing(states, labels, prios, k);
  }
}
