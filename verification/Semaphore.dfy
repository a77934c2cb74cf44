/** Counting semaphores: a 16-bit value, or a queue of waiters when it is zero. One step per section. */
module Semaphore {
  import opened Distinct
  import opened IntrusiveList
  import opened WaitQueue
  import opened WaitChannel
  import opened WaitHistory
  import WaitList

  const RT_SEM_VALUE_MAX := 0xFFFF

  datatype State = State(value: nat, flag: Flag, waiters: seq<Tid>)

  datatype Label = Take(t: Tid, wait: bool) | Release | TimeOut(k: nat) | Reset(arg: nat)

  predicate Enabled(s: State, l: Label) {
    match l
    case Take(t, _) => t !in s.waiters
    case TimeOut(k) => k < |s.waiters|
    case _ => true
  }

  /** A release with waiters hands its unit straight to the first of them. */
  function After(s: State, l: Label, prio: Tid -> nat): State {
    match l
    case Take(t, wait) =>
      if s.value > 0 then s.(value := s.value - 1)
      else if wait then s.(waiters := Enqueue(s.waiters, t, s.flag, prio))
      else s
    case Release =>
      if s.waiters != [] then s.(waiters := s.waiters[1..])
      else if s.value < RT_SEM_VALUE_MAX then s.(value := s.value + 1)
      else s
    case TimeOut(k) => if k < |s.waiters| then s.(waiters := Remove(s.waiters, k)) else s
    case Reset(arg) => s.(value := arg % (RT_SEM_VALUE_MAX + 1), waiters := [])
  }

  function Result(s: State, l: Label): Outcome {
    match l
    case Take(_, wait) => if s.value > 0 then Ok else if wait then Blocked else Failed(-RT_ETIMEOUT)
    case Release => if s.waiters != [] || s.value < RT_SEM_VALUE_MAX then Ok else Failed(-RT_EFULL)
    case TimeOut(_) => Failed(-RT_ETIMEOUT)
    case Reset(_) => Ok
  }

  ghost predicate Invariant(s: State) {
    && s.value <= RT_SEM_VALUE_MAX
    && (s.value > 0 ==> s.waiters == [])
    && NoDuplicates(s.waiters)
  }

  lemma StepKeeps(s: State, l: Label, prio: Tid -> nat)
    requires Invariant(s) && Enabled(s, l)
    ensures Invariant(After(s, l, prio))
    ensures Result(s, l) == Failed(-RT_EFULL) ==> After(s, l, prio) == s && s.value == RT_SEM_VALUE_MAX
  {
    hide Enqueue, Remove;
    match l {
      case Take(t, wait) =>
        if s.value == 0 && wait {
          EnqueueDistinct(s.waiters, t, s.flag, prio);
        }
      case TimeOut(k) =>
        RemoveDistinct(s.waiters, k);
      case _ =>
    }
  }

  // ----- whole runs -----

  ghost predicate Run(states: seq<State>, labels: seq<Label>, prios: seq<Tid -> nat>) {
    && |states| == |labels| + 1 == |prios| + 1
    && states[0].value <= RT_SEM_VALUE_MAX && states[0].waiters == []
    && forall i :: 0 <= i < |labels| ==>
         Enabled(states[i], labels[i]) && states[i + 1] == After(states[i], labels[i], prios[i])
  }

  /** In every state of every run the value fits 16 bits and nobody waits while it is positive. */
  lemma {:induction false} RunKeeps(states: seq<State>, labels: seq<Label>, prios: seq<Tid -> nat>, k: nat)
    requires Run(states, labels, prios) && k < |states|
    ensures Invariant(states[k])
    ensures states[k].value <= RT_SEM_VALUE_MAX && (states[k].value > 0 ==> states[k].waiters == [])
  {
    hide After, Enabled;
    if k > 0 {
      RunKeeps(states, labels, prios, k - 1);
      StepKeeps(states[k - 1], labels[k - 1], prios[k - 1]);
      assert states[k] == states[k - 1 + 1];
    }
  }

  /** What the callers see of the first `k` sections since the last reset: how many ended as `kind` says. */
  datatype Kind = TookOk | ReleasedOk | HandedOver

  predicate Ended(s: State, l: Label, kind: Kind) {
    match kind
    case TookOk => l.Take? && Result(s, l) == Ok
    case ReleasedOk => l.Release? && Result(s, l) == Ok
    case HandedOver => l.Release? && Result(s, l) == Ok && s.waiters != []
  }

  function Tally(states: seq<State>, labels: seq<Label>, k: nat, kind: Kind): nat
    requires k <= |labels| < |states|
  {
    if k == 0 || labels[k - 1].Reset? then 0
    else Tally(states, labels, k - 1, kind) + if Ended(states[k - 1], labels[k - 1], kind) then 1 else 0
  }

  /** The value at the beginning or the one the last reset asked for. */
  function StartValue(states: seq<State>, labels: seq<Label>, k: nat): nat
    requires k <= |labels| < |states|
  {
    if k == 0 then states[0].value
    else if labels[k - 1].Reset? then labels[k - 1].arg % 0x1_0000
    else StartValue(states, labels, k - 1)
  }

  /**
   In every run: the value at the last reset and the releases that succeeded since then are the present value, the takes
   that succeeded at once, and the releases that found a waiter.
   */
  lemma {:induction false} Accounting(states: seq<State>, labels: seq<Label>, prios: seq<Tid -> nat>, k: nat)
    requires Run(states, labels, prios) && k < |states|
    ensures StartValue(states, labels, k) + Tally(states, labels, k, ReleasedOk)
         == states[k].value + Tally(states, labels, k, TookOk) + Tally(states, labels, k, HandedOver)
  {
    if k > 0 {
      Accounting(states, labels, prios, k - 1);
      assert states[k] == states[k - 1 + 1];
    }
  }

  /**
   A take gets a unit at once exactly if one is left by this account, and a release is refused exactly if the account is
   full and nobody waits.
   */
  lemma ResultTells(states: seq<State>, labels: seq<Label>, prios: seq<Tid -> nat>, k: nat)
    requires Run(states, labels, prios) && k < |labels|
    ensures var left := StartValue(states, labels, k) + Tally(states, labels, k, ReleasedOk)
                        - Tally(states, labels, k, TookOk) - Tally(states, labels, k, HandedOver);
            && (labels[k].Take? ==> (Result(states[k], labels[k]) == Ok <==> left > 0))
            && (labels[k].Release? ==>
                  (Result(states[k], labels[k]) == Ok <==> left < 0xFFFF || exists t :: t in states[k].waiters))
  {
    hide Tally, StartValue;
    Accounting(states, labels, prios, k);
    RunKeeps(states, labels, prios, k);
    assert states[k].waiters != [] ==> states[k].waiters[0] in states[k].waiters;
  }

  // ----- who waits, and in which order -----

  function ActOf(s: State, l: Label): Act {
    match l
    case Take(t, _) => Looks(t, Result(s, l) == Blocked)
    case Release => Wakes
    case TimeOut(k) => TimesOut(k)
    case Reset(_) => Clears
  }

  function Acts(states: seq<State>, labels: seq<Label>): (acts: seq<Act>)
    requires |labels| < |states|
    ensures |acts| == |labels| && forall i :: 0 <= i < |acts| ==> acts[i] == ActOf(states[i], labels[i])
  {
    seq(|labels|, i requires 0 <= i < |labels| => ActOf(states[i], labels[i]))
  }

  function Queues(states: seq<State>): (queues: seq<seq<Tid>>)
    ensures |queues| == |states| && forall i :: 0 <= i < |queues| ==> queues[i] == states[i].waiters
  {
    seq(|states|, i requires 0 <= i < |states| => states[i].waiters)
  }

  lemma {:induction false} FlagKept(states: seq<State>, labels: seq<Label>, prios: seq<Tid -> nat>, k: nat)
    requires Run(states, labels, prios) && k < |states|
    ensures states[k].flag == states[0].flag
  {
    if k > 0 {
      FlagKept(states, labels, prios, k - 1);
      assert states[k] == states[k - 1 + 1];
    }
  }

  /**
   In every run a thread waits exactly from a take that blocked until a release, its timer or a reset, and a release
   resumes the one that came first by the flag of the semaphore.
   */
  lemma WaitsInTurn(states: seq<State>, labels: seq<Label>, prios: seq<Tid -> nat>, k: nat, t: Tid, prio: Tid -> nat)
    requires Run(states, labels, prios) && k < |states|
    ensures var queues, acts := Queues(states), Acts(states, labels);
            && (t in states[k].waiters <==> Waits(queues, acts, k, t))
            && (Steady(states[0].flag, prios, k, prio) ==> Ordered(states[k].waiters, states[0].flag, prio, Arrival(acts, k)))
            && (Steady(states[0].flag, prios, k, prio) && k < |labels| && labels[k].Release? && states[k].waiters != [] ==>
                  exists w :: w in states[k].waiters && w !in states[k + 1].waiters
                              && forall u :: u in states[k].waiters && u != w ==>
                                   u in states[k + 1].waiters && Before(w, u, states[0].flag, prio, Arrival(acts, k)))
  {
    hide Waits, Ordered, Before, Arrival, Steady;
    var queues, acts, flag := Queues(states), Acts(states, labels), states[0].flag;
    Traced(states, labels, prios);
    WaitersExactly(queues, acts, Queued(flag), prios, k, t);
    if Steady(flag, prios, k, prio) {
      InOrder(queues, acts, flag, prios, k, prio);
    }
    if Steady(flag, prios, k, prio) && k < |labels| && labels[k].Release? && states[k].waiters != [] {
      var w := FirstServed(queues, acts, flag, prios, k, prio);
    }
  }

  lemma Traced(states: seq<State>, labels: seq<Label>, prios: seq<Tid -> nat>)
    requires Run(states, labels, prios)
    ensures Trace(Queues(states), Acts(states, labels), Queued(states[0].flag), prios)
  {
    hide Enqueue, Remove;
    var queues, acts, how := Queues(states), Acts(states, labels), Queued(states[0].flag);
    forall i | 0 <= i < |acts|
      ensures May(queues[i], acts[i]) && queues[i + 1] == Moved(queues[i], acts[i], how, prios[i])
    {
      RunKeeps(states, labels, prios, i);
      FlagKept(states, labels, prios, i);
    }
  }

  /** The object over its pointers: `list` is the head of the ring of suspended threads. */
  class SemaphoreObject {
    var value: nat
    const flag: Flag
    const list: Node  // parent.suspend_thread
    ghost var queue: seq<Node>
    ghost var waiters: seq<Tid>

    ghost function Abstract(): State
      reads this
    {
      State(value, flag, waiters)
    }

    /** `prio` are the present priorities; they may be others at the next section. */
    ghost predicate Valid(prio: Tid -> nat)
      reads this, list, queue, set n | n in queue :: n.owner
    {
      Invariant(Abstract()) && WaitList.Shows(list, queue, waiters, prio)
    }

    constructor (value: nat, flag: Flag, ghost prio: Tid -> nat)
      requires value < 0x10000
      ensures Valid(prio) && Abstract() == State(value, flag, []) && queue == [] && fresh(list)
    {
      this.value, this.flag := value, flag;
      list := new Node(null);
      queue, waiters := [], [];
      new;
      ListInit(list);
      assert [list] + queue == [list];
    }

    /** rt_sem_take, by the running thread that `tlist` is embedded in, up to its re-scheduling. */
    method TakeSection(tlist: Node, timeout: int, ghost prio: Tid -> nat) returns (r: Outcome)
      requires Valid(prio) && WaitList.MayWait(list, queue, tlist, prio)
      requires Enabled(Abstract(), Take(tlist.owner.id, timeout != 0))
      modifies this, list, queue, tlist, tlist.owner`suspended, tlist.owner`error
      ensures Valid(prio) && Abstract() == After(old(Abstract()), Take(tlist.owner.id, timeout != 0), prio)
      ensures r == Result(old(Abstract()), Take(tlist.owner.id, timeout != 0))
      ensures forall n :: n in queue <==> n in old(queue) || (r == Blocked && n == tlist)
    {
      hide Enqueue, Invariant, Ring, Linked;
      StepKeeps(Abstract(), Take(tlist.owner.id, timeout != 0), prio);
      if value > 0 {
        value := value - 1;
        r := Ok;
      } else if timeout == 0 {
        r := Failed(-RT_ETIMEOUT);
      } else {
        tlist.owner.error := RT_EOK;
        ghost var entered := Enqueue(waiters, tlist.owner.id, flag, prio);
        queue := WaitList.Suspend(list, tlist, flag, queue, waiters, prio);
        waiters := entered;
        r := Blocked;
      }
    }

    /** The first thread of the ring is resumed. */
    method ResumeFirst(ghost prio: Tid -> nat)
      requires WaitList.Shows(list, queue, waiters, prio) && waiters != [] && queue != []
      modifies this`queue, this`waiters, list, queue, queue[0].owner`suspended
      ensures WaitList.Shows(list, queue, waiters, prio)
      ensures queue == old(queue)[1..] && waiters == old(waiters)[1..]
      ensures old(queue)[0].owner != null && Ring([old(queue)[0]]) && !old(queue)[0].owner.suspended
    {
      hide Ring, Linked;
      assert queue[0] in queue;
      var thread := WaitList.Resume(list, queue, waiters, prio);
      queue, waiters := queue[1..], waiters[1..];
    }

    /** rt_sem_release. */
    method ReleaseSection(ghost prio: Tid -> nat) returns (r: Outcome)
      requires Valid(prio)
      modifies this, list, queue, set n | n in queue :: n.owner
      ensures Valid(prio) && Abstract() == After(old(Abstract()), Release, prio)
      ensures r == Result(old(Abstract()), Release)
      ensures queue == if old(queue) == [] then [] else old(queue)[1..]
      ensures old(queue) != [] ==> Ring([old(queue)[0]]) && !old(queue)[0].owner.suspended
    {
      hide Invariant, Ring, Linked, AllSuspended, WaitList.Tids;
      StepKeeps(Abstract(), Release, prio);
      assert |waiters| == |queue|;
      var empty := IsEmpty(list, [list] + queue);
      if !empty {
        assert queue[0] in queue;
        ResumeFirst(prio);
        r := Ok;
      } else if value < RT_SEM_VALUE_MAX {
        value := value + 1;
        r := Ok;
      } else {
        r := Failed(-RT_EFULL);
      }
    }

    /** The timer of the waiter at place `k` fires. */
    method TimeOutSection(tlist: Node, ghost k: nat, ghost prio: Tid -> nat)
      requires Valid(prio) && k < |queue| && queue[k] == tlist
      modifies this, list, queue, tlist.owner`error, tlist.owner`suspended
      ensures Valid(prio) && Abstract() == After(old(Abstract()), Label.TimeOut(k), prio)
      ensures tlist.owner.error == -RT_ETIMEOUT && !tlist.owner.suspended && Ring([tlist])
    {
      hide Invariant, Ring, Linked;
      StepKeeps(Abstract(), Label.TimeOut(k), prio);
      WaitList.TimeOut(list, tlist, k, queue, waiters, prio);
      queue, waiters := Remove(queue, k), Remove(waiters, k);
    }

    /** rt_sem_control with RT_IPC_CMD_RESET; the new value is truncated to 16 bits. */
    method ResetSection(arg: nat, ghost prio: Tid -> nat)
      requires Valid(prio)
      modifies this, list, queue, set n | n in queue :: n.owner
      ensures Valid(prio) && Abstract() == After(old(Abstract()), Reset(arg), prio)
      ensures queue == [] && forall n :: n in old(queue) ==> Detached(n)
    {
      hide Invariant, Ring, Linked, Detached;
      StepKeeps(Abstract(), Reset(arg), prio);
      WaitList.ResumeAll(list, queue, waiters, prio);
      queue, waiters := [], [];
      value := arg % 0x10000;
    }
  }
}
