/**
 Recursive mutexes with priority inheritance. One step per interrupt-disabled section; priorities are numbers, smaller
 is more urgent, and only this mutex changes them.
 */
module Mutex {
  import opened Bytes
  import opened Distinct
  import opened IntrusiveList
  import opened WaitQueue
  import opened WaitChannel
  import opened WaitHistory

  const RT_MUTEX_HOLD_MAX := 0xFF
  const RT_MUTEX_VALUE_MAX := 0xFFFF
  const NO_PRIORITY := 0xFF

  /**
   `prio` and `base` are the current and the own priorities of the threads. `granted` are the threads resumed with the
   mutex that have not returned yet.
   */
  datatype State = State(value: nat, owner: Option<Tid>, hold: nat, original: nat, waiters: seq<Tid>,
                         prio: map<Tid, nat>, base: map<Tid, nat>, granted: set<Tid>)

  datatype Label = Take(t: Tid, wait: bool) | Return(t: Tid) | Release(t: Tid) | TimeOut(k: nat)

  function Priority(s: State, t: Tid): nat {
    if t in s.prio then s.prio[t] else 0
  }

  function WaitPrios(s: State): (ps: seq<nat>)
    ensures |ps| == |s.waiters|
    ensures forall i :: 0 <= i < |ps| ==> ps[i] == Priority(s, s.waiters[i])
  {
    seq(|s.waiters|, i requires 0 <= i < |s.waiters| => Priority(s, s.waiters[i]))
  }

  predicate Enabled(s: State, l: Label) {
    match l
    case Take(t, _) => t in s.prio && t !in s.waiters && t !in s.granted
    case Release(t) => t in s.prio && t !in s.waiters && t !in s.granted
    case Return(t) => t in s.granted
    case TimeOut(k) => k < |s.waiters|
  }

  function Acquire(s: State, t: Tid): State {
    s.(value := if s.value > 0 then s.value - 1 else 0, owner := Some(t), original := Priority(s, t), hold := s.hold + 1)
  }

  /** A waiter queues up behind its equals, and an owner of lower priority inherits the waiter's. */
  function Wait(s: State, t: Tid, o: Tid): State {
    s.(prio := if Priority(s, t) < Priority(s, o) then s.prio[o := Priority(s, t)] else s.prio,
       waiters := Insert(s.waiters, PrioPos(WaitPrios(s), Priority(s, t)), t))
  }

  function AfterTake(s: State, t: Tid, wait: bool): State {
    if s.owner == Some(t) then
      if s.hold < RT_MUTEX_HOLD_MAX then s.(hold := s.hold + 1) else s
    else if s.value > 0 then Acquire(s, t)
    else if wait && s.owner.Some? then Wait(s, t, s.owner.value)
    else s
  }

  /** One take less; the last one also gives the owner its own priority back. */
  function Drop(s: State, t: Tid): State {
    var s1 := s.(hold := if s.hold > 0 then s.hold - 1 else 0);
    if s1.hold > 0 then s1 else s1.(prio := s1.prio[t := s1.original])
  }

  function Free(s: State): State {
    s.(value := s.value + 1, owner := None, original := NO_PRIORITY)
  }

  /** The first waiter becomes the owner before it runs. */
  function HandOff(s: State, w: Tid): State
    requires s.waiters != []
  {
    s.(owner := Some(w), original := Priority(s, w), hold := s.hold + 1, waiters := s.waiters[1..],
       granted := s.granted + {w})
  }

  function AfterRelease(s: State, t: Tid): State {
    if s.owner != Some(t) then s
    else
      var s1 := Drop(s, t);
      if s1.hold > 0 then s1 else if s1.waiters == [] then Free(s1) else HandOff(s1, s1.waiters[0])
  }

  function After(s: State, l: Label): State {
    match l
    case Take(t, wait) => AfterTake(s, t, wait)
    case Release(t) => AfterRelease(s, t)
    case Return(t) => s.(granted := s.granted - {t})
    case TimeOut(k) => if k < |s.waiters| then s.(waiters := Remove(s.waiters, k)) else s
  }

  // ----- the invariant -----

  /** Who holds the mutex, and how often. */
  ghost predicate Ownership(s: State) {
    && (s.value == 1 <==> s.owner == None) && (s.hold == 0 <==> s.owner == None)
    && s.value <= 1 && s.hold <= RT_MUTEX_HOLD_MAX
    && (forall t :: t in s.granted ==> s.owner == Some(t))
    && (s.owner.Some? ==> s.owner.value in s.prio)
  }

  ghost predicate Queueing(s: State) {
    && (s.waiters != [] ==> s.owner.Some?)
    && NoDuplicates(s.waiters) && Sorted(WaitPrios(s))
    && forall t :: t in s.waiters ==> t in s.prio && s.owner != Some(t)
  }

  /** Only the owner's priority may differ from its own, and then it is at least as urgent as everybody who waits. */
  ghost predicate Inheritance(s: State) {
    && s.prio.Keys == s.base.Keys
    && (forall t :: t in s.prio && s.owner != Some(t) ==> s.prio[t] == s.base[t])
    && (s.owner == None ==> s.original == NO_PRIORITY)
    && (s.owner.Some? ==>
          var o := s.owner.value;
          o in s.prio && s.original == s.base[o] && s.prio[o] <= s.original
          && forall t :: t in s.waiters ==> s.prio[o] <= Priority(s, t))
  }

  ghost predicate Invariant(s: State) {
    Ownership(s) && Queueing(s) && Inheritance(s)
  }

  lemma AcquireKeeps(s: State, t: Tid)
    requires Invariant(s) && t in s.prio && s.owner == None
    ensures Invariant(Acquire(s, t))
  {
    var s' := Acquire(s, t);
    assert WaitPrios(s') == WaitPrios(s);
  }

  lemma AgainKeeps(s: State, t: Tid)
    requires Invariant(s) && s.owner == Some(t) && s.hold < RT_MUTEX_HOLD_MAX
    ensures Invariant(s.(hold := s.hold + 1))
  {
    var s' := s.(hold := s.hold + 1);
    assert WaitPrios(s') == WaitPrios(s);
  }

  lemma WaitKeeps(s: State, t: Tid, o: Tid)
    requires Invariant(s) && s.owner == Some(o) && t in s.prio && t != o && t !in s.waiters
    ensures Invariant(Wait(s, t, o))
  {
    WaitQueueing(s, t, o);
    WaitInheritance(s, t, o);
  }

  lemma WaitQueueing(s: State, t: Tid, o: Tid)
    requires Queueing(s) && s.owner == Some(o) && t in s.prio && t != o && t !in s.waiters
    ensures Queueing(Wait(s, t, o))
  {
    hide WaitPrios, PrioPos, Sorted;
    var s' := Wait(s, t, o);
    PrioSorted(WaitPrios(s), Priority(s, t));
    WaitedPrios(s, t, o);
    InsertDistinct(s.waiters, PrioPos(WaitPrios(s), Priority(s, t)), t);
    InsertMembers(s.waiters, PrioPos(WaitPrios(s), Priority(s, t)), t);
  }

  lemma WaitedPrios(s: State, t: Tid, o: Tid)
    requires Queueing(s) && s.owner == Some(o) && t != o
    ensures WaitPrios(Wait(s, t, o)) == Insert(WaitPrios(s), PrioPos(WaitPrios(s), Priority(s, t)), Priority(s, t))
  {
    hide Sorted, PrioPos;
    var s', k := Wait(s, t, o), PrioPos(WaitPrios(s), Priority(s, t));
    forall i | 0 <= i < |s'.waiters|
      ensures Priority(s', s'.waiters[i]) == if i == k then Priority(s, t) else Priority(s, s'.waiters[i])
    {
      if i != k {
        assert s'.waiters[i] == s.waiters[if i < k then i else i - 1];
        assert s'.waiters[i] in s.waiters;
      }
    }
  }

  /** Inheritance: the owner ends up at least as urgent as the newcomer, and no more urgent than it has to be. */
  lemma WaitInheritance(s: State, t: Tid, o: Tid)
    requires Inheritance(s) && s.owner == Some(o) && t in s.prio && t != o
    ensures Inheritance(Wait(s, t, o))
    ensures Wait(s, t, o).prio == s.prio[o := Min(Priority(s, t), s.prio[o])]
  {
    hide WaitPrios, PrioPos;
    var s', p := Wait(s, t, o), Priority(s, t);
    InsertMembers(s.waiters, PrioPos(WaitPrios(s), p), t);
    forall u | u in s'.waiters
      ensures s'.prio[o] <= Priority(s', u)
    {
      assert u == t || s.prio[o] <= Priority(s, u);
    }
  }

  /** A waiter that times out leaves an owner that is still at least as urgent as the rest. */
  lemma TimeOutKeeps(s: State, k: nat)
    requires Invariant(s) && k < |s.waiters|
    ensures Invariant(s.(waiters := Remove(s.waiters, k)))
  {
    hide WaitPrios, Sorted, Ownership;
    RemoveSorted(WaitPrios(s), k);
    RemovedPrios(s, k);
    RemoveDistinct(s.waiters, k);
    TimeOutOwnership(s, k);
  }

  lemma TimeOutOwnership(s: State, k: nat)
    requires Ownership(s) && k < |s.waiters|
    ensures Ownership(s.(waiters := Remove(s.waiters, k)))
  {
  }

  lemma RemovedPrios(s: State, k: nat)
    requires k < |s.waiters|
    ensures WaitPrios(s.(waiters := Remove(s.waiters, k))) == Remove(WaitPrios(s), k)
  {
  }

  /** Hand-off: the new owner is the most urgent waiter, so it needs no inheritance for those that remain. */
  lemma HandOffKeeps(s: State, t: Tid)
    requires Invariant(s) && s.owner == Some(t) && s.hold == 1 && t !in s.granted && s.waiters != []
    ensures Invariant(HandOff(Drop(s, t), s.waiters[0]))
  {
    assert s.waiters[0] in s.waiters;
    HandOffOwnership(s, t);
    HandOffQueueing(s, t);
    HandOffInheritance(s, t);
  }

  lemma HandOffOwnership(s: State, t: Tid)
    requires Ownership(s) && s.owner == Some(t) && s.hold == 1 && t !in s.granted && s.waiters != []
    requires s.waiters[0] in s.prio && s.waiters[0] != t
    ensures Ownership(HandOff(Drop(s, t), s.waiters[0]))
  {
  }

  lemma HandOffQueueing(s: State, t: Tid)
    requires Invariant(s) && s.owner == Some(t) && s.hold == 1 && s.waiters != []
    ensures Queueing(HandOff(Drop(s, t), s.waiters[0]))
  {
    hide WaitPrios, Sorted;
    RemoveSorted(WaitPrios(s), 0);
    HandOffPrios(s, t);
    RemoveDistinct(s.waiters, 0);
  }

  lemma HandOffInheritance(s: State, t: Tid)
    requires Invariant(s) && s.owner == Some(t) && s.hold == 1 && s.waiters != []
    ensures Inheritance(HandOff(Drop(s, t), s.waiters[0]))
  {
    hide Ownership;
    var w := s.waiters[0];
    var s' := HandOff(Drop(s, t), w);
    RemoveDistinct(s.waiters, 0);
    forall u | u in s'.waiters
      ensures Priority(s, w) <= Priority(s, u) && u != t
    {
      var i :| 0 < i < |s.waiters| && s.waiters[i] == u;
      assert WaitPrios(s)[0] <= WaitPrios(s)[i];
    }
    assert w in s.waiters;
  }

  lemma HandOffPrios(s: State, t: Tid)
    requires Invariant(s) && s.owner == Some(t) && s.hold == 1 && s.waiters != []
    ensures WaitPrios(HandOff(Drop(s, t), s.waiters[0])) == Remove(WaitPrios(s), 0)
  {
    var s' := HandOff(Drop(s, t), s.waiters[0]);
    forall i | 0 <= i < |s'.waiters|
      ensures WaitPrios(s')[i] == Remove(WaitPrios(s), 0)[i]
    {
      assert s'.waiters[i] == s.waiters[i + 1] && s.waiters[i + 1] in s.waiters;
    }
  }

  lemma FreeKeeps(s: State, t: Tid)
    requires Invariant(s) && s.owner == Some(t) && s.hold == 1 && t !in s.granted && s.waiters == []
    ensures Invariant(Free(Drop(s, t)))
  {
    assert WaitPrios(Free(Drop(s, t))) == [];
  }

  lemma DropKeeps(s: State, t: Tid)
    requires Invariant(s) && s.owner == Some(t) && s.hold > 1
    ensures Invariant(Drop(s, t))
  {
    assert WaitPrios(Drop(s, t)) == WaitPrios(s);
  }

  lemma ReleaseKeeps(s: State, t: Tid)
    requires Invariant(s) && s.owner == Some(t) && t !in s.granted
    ensures Invariant(AfterRelease(s, t))
  {
    if s.hold > 1 {
      DropKeeps(s, t);
    } else if s.waiters == [] {
      FreeKeeps(s, t);
    } else {
      HandOffKeeps(s, t);
    }
  }

  /** Every section keeps ownership, queueing and inheritance. */
  lemma StepKeeps(s: State, l: Label)
    requires Invariant(s) && Enabled(s, l)
    ensures Invariant(After(s, l))
  {
    match l {
      case Take(t, wait) =>
        if s.owner == Some(t) {
          if s.hold < RT_MUTEX_HOLD_MAX {
            AgainKeeps(s, t);
          }
        } else if s.value > 0 {
          AcquireKeeps(s, t);
        } else if wait {
          WaitKeeps(s, t, s.owner.value);
        }
      case Release(t) =>
        if s.owner == Some(t) {
          ReleaseKeeps(s, t);
        }
      case TimeOut(k) =>
        TimeOutKeeps(s, k);
      case Return(t) =>
        assert WaitPrios(After(s, l)) == WaitPrios(s);
    }
  }

  // ----- whole runs -----

  ghost predicate Initial(s: State) {
    && s.value == 1 && s.owner == None && s.hold == 0 && s.original == NO_PRIORITY && s.waiters == []
    && s.prio == s.base && s.granted == {}
  }

  ghost predicate Run(states: seq<State>, labels: seq<Label>) {
    && |states| == |labels| + 1 && Initial(states[0])
    && forall i :: 0 <= i < |labels| ==> Enabled(states[i], labels[i]) && states[i + 1] == After(states[i], labels[i])
  }

  lemma {:induction false} RunKeeps(states: seq<State>, labels: seq<Label>, k: nat)
    requires Run(states, labels) && k < |states|
    ensures Invariant(states[k])
  {
    hide After, Enabled;
    if k == 0 {
      assert WaitPrios(states[0]) == [];
    } else {
      RunKeeps(states, labels, k - 1);
      StepKeeps(states[k - 1], labels[k - 1]);
      assert states[k] == states[k - 1 + 1];
    }
  }

  /** No inversion: while threads wait there is an owner at least as urgent as each of them; everybody else runs at its own priority. */
  lemma NoInversion(states: seq<State>, labels: seq<Label>, k: nat, t: Tid)
    requires Run(states, labels) && k < |states| && t in states[k].prio
    ensures var s := states[k];
            (t in s.waiters ==> s.owner.Some? && s.owner.value in s.prio && s.prio[s.owner.value] <= s.prio[t])
            && (s.owner != Some(t) ==> t in s.base && s.prio[t] == s.base[t])
  {
    RunKeeps(states, labels, k);
  }

  /** What the section returns to its caller. */
  function Result(s: State, l: Label): Outcome {
    match l
    case Take(t, wait) =>
      if s.owner == Some(t) then if s.hold < RT_MUTEX_HOLD_MAX then Ok else Failed(-RT_EFULL)
      else if s.value > 0 then Ok
      else if wait then Blocked
      else Failed(-RT_ETIMEOUT)
    case Release(t) => if s.owner == Some(t) then Ok else Failed(-RT_ERROR)
    case Return(_) => Ok
    case TimeOut(_) => Failed(-RT_ETIMEOUT)
  }

  // ----- what the callers see -----

  /** The section hands the mutex over to `t`: a release takes it out of the queue. */
  predicate Handed(s: State, l: Label, s': State, t: Tid) {
    l.Release? && t in s.waiters && t !in s'.waiters
  }

  /** What a section adds to the takes of `t`: a take that succeeds or is granted by a release, less a release. */
  function Gain(s: State, l: Label, s': State, t: Tid): int {
    (if l.Take? && l.t == t && Result(s, l) == Ok then 1 else 0)
    + (if Handed(s, l, s', t) then 1 else 0)
    - (if l.Release? && l.t == t && Result(s, l) == Ok then 1 else 0)
  }

  /** The takes of `t` in the first `k` sections that it has not released. */
  function NetTakes(states: seq<State>, labels: seq<Label>, k: nat, t: Tid): int
    requires k <= |labels| < |states|
  {
    if k == 0 then 0 else NetTakes(states, labels, k - 1, t) + Gain(states[k - 1], labels[k - 1], states[k], t)
  }

  function HeldBy(s: State, t: Tid): nat {
    if s.owner == Some(t) then s.hold else 0
  }

  lemma ReleaseGains(s: State, t: Tid, u: Tid)
    requires Invariant(s) && s.owner == Some(t)
    ensures HeldBy(AfterRelease(s, t), u) == HeldBy(s, u) + Gain(s, Release(t), AfterRelease(s, t), u)
  {
    var s' := AfterRelease(s, t);
    if s.hold == 1 && s.waiters != [] {
      var w := s.waiters[0];
      assert w in s.waiters;
      RemoveDistinct(s.waiters, 0);
      assert s'.waiters == s.waiters[1..] && w !in s'.waiters;
      assert u in s.waiters ==> u == w || u in s'.waiters;
    } else {
      assert s'.waiters == s.waiters;
    }
  }

  lemma StepGains(s: State, l: Label, u: Tid)
    requires Invariant(s) && Enabled(s, l)
    ensures HeldBy(After(s, l), u) == HeldBy(s, u) + Gain(s, l, After(s, l), u)
  {
    if l.Release? && s.owner == Some(l.t) {
      ReleaseGains(s, l.t, u);
    }
  }

  /** In every run the hold counter is the number of the owner's takes, and no other thread has any. */
  lemma {:induction false} NetTakesHeld(states: seq<State>, labels: seq<Label>, k: nat, t: Tid)
    requires Run(states, labels) && k < |states|
    ensures NetTakes(states, labels, k, t) == if states[k].owner == Some(t) then states[k].hold else 0
  {
    hide After, Enabled, Gain, Invariant;
    if k > 0 {
      RunKeeps(states, labels, k - 1);
      NetTakesHeld(states, labels, k - 1, t);
      assert states[k] == states[k - 1 + 1];
      StepGains(states[k - 1], labels[k - 1], t);
    }
  }

  /** Mutual exclusion: at most one thread has taken the mutex, at once or by a release, and not yet released it. */
  lemma MutualExclusion(states: seq<State>, labels: seq<Label>, k: nat, t: Tid, u: Tid)
    requires Run(states, labels) && k < |states|
    requires NetTakes(states, labels, k, t) > 0 && NetTakes(states, labels, k, u) > 0
    ensures t == u && states[k].owner == Some(t) && states[k].hold == NetTakes(states, labels, k, t)
  {
    NetTakesHeld(states, labels, k, t);
    NetTakesHeld(states, labels, k, u);
  }

  /** Nobody is kept out without a reason: a take succeeds at once exactly if no other thread has taken the mutex. */
  lemma TakeTells(states: seq<State>, labels: seq<Label>, k: nat)
    requires Run(states, labels) && k < |labels| && labels[k].Take?
    ensures Result(states[k], labels[k]) == Ok
       <==> NetTakes(states, labels, k, labels[k].t) < RT_MUTEX_HOLD_MAX
            && forall u: Tid :: u != labels[k].t ==> NetTakes(states, labels, k, u) == 0
  {
    hide NetTakes;
    RunKeeps(states, labels, k);
    var s, t := states[k], labels[k].t;
    forall u: Tid
      ensures NetTakes(states, labels, k, u) == if s.owner == Some(u) then s.hold else 0
    {
      NetTakesHeld(states, labels, k, u);
    }
    assert s.owner.Some? ==> NetTakes(states, labels, k, s.owner.value) > 0;
  }

  /** And a release succeeds exactly if its caller has taken the mutex. */
  lemma ReleaseTells(states: seq<State>, labels: seq<Label>, k: nat)
    requires Run(states, labels) && k < |labels| && labels[k].Release?
    ensures Result(states[k], labels[k]) == Ok <==> NetTakes(states, labels, k, labels[k].t) > 0
  {
    RunKeeps(states, labels, k);
    NetTakesHeld(states, labels, k, labels[k].t);
  }

  /** A take that returns success, at once or after waiting, leaves its caller alone with the mutex. */
  lemma TakeMeansOwner(states: seq<State>, labels: seq<Label>, k: nat, u: Tid)
    requires Run(states, labels) && k < |labels|
    requires (labels[k].Take? || labels[k].Return?) && Result(states[k], labels[k]) == Ok
    ensures states[k + 1].owner == Some(labels[k].t)
    ensures NetTakes(states, labels, k + 1, u) > 0 <==> u == labels[k].t
  {
    RunKeeps(states, labels, k);
    RunKeeps(states, labels, k + 1);
    NetTakesHeld(states, labels, k + 1, u);
  }

  /** The threads that a release handed the mutex to and that have not returned with it. */
  function Returning(states: seq<State>, labels: seq<Label>, k: nat): set<Tid>
    requires k <= |labels| < |states|
  {
    if k == 0 then {}
    else
      var s, l, s' := states[k - 1], labels[k - 1], states[k];
      Returning(states, labels, k - 1) + (set t | t in s.waiters && Handed(s, l, s', t))
      - (if l.Return? then {l.t} else {})
  }

  /** Only they return with success after waiting. */
  lemma {:induction false} ReturningGranted(states: seq<State>, labels: seq<Label>, k: nat)
    requires Run(states, labels) && k < |states|
    ensures states[k].granted == Returning(states, labels, k)
  {
    hide Invariant;
    if k > 0 {
      RunKeeps(states, labels, k - 1);
      ReturningGranted(states, labels, k - 1);
      var s, l := states[k - 1], labels[k - 1];
      assert states[k] == states[k - 1 + 1];
      GrantedNext(s, l);
    }
  }

  lemma GrantedNext(s: State, l: Label)
    requires Invariant(s) && Enabled(s, l)
    ensures var s' := After(s, l);
            s'.granted == s.granted + (set t | t in s.waiters && Handed(s, l, s', t)) - (if l.Return? then {l.t} else {})
  {
    var s' := After(s, l);
    if l.Release? && s'.waiters != s.waiters {
      var w := s.waiters[0];
      RemoveDistinct(s.waiters, 0);
      assert s'.waiters == s.waiters[1..] && w in s.waiters && w !in s'.waiters;
      assert forall t :: t in s.waiters && t != w ==> t in s'.waiters;
    }
  }

  function OwnPriority(s: State): Tid -> nat {
    t => if t in s.base then s.base[t] else 0
  }

  lemma WaitsAs(s: State, t: Tid, o: Tid)
    requires Invariant(s) && s.owner == Some(o) && t != o && t in s.prio
    ensures Wait(s, t, o).waiters == Enqueue(s.waiters, t, Prio, OwnPriority(s))
  {
    assert PriosOf(s.waiters, OwnPriority(s)) == WaitPrios(s);
  }

  /** What a section means to the queue: a release that changes the owner resumes a waiter, if there is one. */
  function ActOf(s: State, l: Label, s': State): Act {
    match l
    case Take(t, _) => Looks(t, Result(s, l) == Blocked)
    case Release(_) => if s'.owner != s.owner then Wakes else Idle
    case TimeOut(k) => TimesOut(k)
    case Return(_) => Idle
  }

  function Acts(states: seq<State>, labels: seq<Label>): (acts: seq<Act>)
    requires |labels| < |states|
    ensures |acts| == |labels| && forall i :: 0 <= i < |acts| ==> acts[i] == ActOf(states[i], labels[i], states[i + 1])
  {
    seq(|labels|, i requires 0 <= i < |labels| => ActOf(states[i], labels[i], states[i + 1]))
  }

  function Queues(states: seq<State>): (queues: seq<seq<Tid>>)
    ensures |queues| == |states| && forall i :: 0 <= i < |queues| ==> queues[i] == states[i].waiters
  {
    seq(|states|, i requires 0 <= i < |states| => states[i].waiters)
  }

  lemma QueueMoves(s: State, l: Label)
    requires Invariant(s) && Enabled(s, l)
    ensures var s' := After(s, l);
            && s'.base == s.base && May(s.waiters, ActOf(s, l, s'))
            && s'.waiters == Moved(s.waiters, ActOf(s, l, s'), Queued(Prio), OwnPriority(s))
  {
    hide Enqueue, Remove, PrioPos, WaitPrios, Sorted, OwnPriority;
    if l.Take? && s.owner.Some? && s.owner.value != l.t {
      WaitsAs(s, l.t, s.owner.value);
    }
    if l.Release? && s.waiters != [] {
      assert s.waiters[0] in s.waiters;
    }
  }

  lemma {:induction false} BaseKept(states: seq<State>, labels: seq<Label>, k: nat)
    requires Run(states, labels) && k < |states|
    ensures states[k].base == states[0].base
  {
    hide After, Enabled, Moved, ActOf;
    if k > 0 {
      BaseKept(states, labels, k - 1);
      RunKeeps(states, labels, k - 1);
      QueueMoves(states[k - 1], labels[k - 1]);
      assert states[k] == states[k - 1 + 1];
    }
  }

  function OwnPriorities(s: State, n: nat): (prios: seq<Tid -> nat>)
    ensures |prios| == n && forall i :: 0 <= i < n ==> prios[i] == OwnPriority(s)
  {
    if n == 0 then [] else OwnPriorities(s, n - 1) + [OwnPriority(s)]
  }

  lemma Traced(states: seq<State>, labels: seq<Label>)
    requires Run(states, labels)
    ensures Trace(Queues(states), Acts(states, labels), Queued(Prio), OwnPriorities(states[0], |labels|))
  {
    hide After, Enabled, Moved, ActOf, Invariant, OwnPriority, OwnPriorities, May;
    var queues, acts, prios := Queues(states), Acts(states, labels), OwnPriorities(states[0], |labels|);
    forall i | 0 <= i < |acts|
      ensures May(queues[i], acts[i]) && queues[i + 1] == Moved(queues[i], acts[i], Queued(Prio), prios[i])
    {
      RunKeeps(states, labels, i);
      BaseKept(states, labels, i);
      QueueMoves(states[i], labels[i]);
      SameOwn(states[i], states[0]);
    }
  }

  /**
   In every run a thread waits exactly from a take that blocked until it gets the mutex or its timer fires; the waiters
   stand by their own priorities, and equals in the order in which they came.
   */
  lemma WaitsInTurn(states: seq<State>, labels: seq<Label>, k: nat, t: Tid)
    requires Run(states, labels) && k < |states|
    ensures t in states[k].waiters <==> Waits(Queues(states), Acts(states, labels), k, t)
    ensures Ordered(states[k].waiters, Prio, OwnPriority(states[0]), Arrival(Acts(states, labels), k))
  {
    hide After, Enabled, Waits, Ordered, Arrival, OwnPriority, OwnPriorities, Trace;
    var queues, acts, prios := Queues(states), Acts(states, labels), OwnPriorities(states[0], |labels|);
    Traced(states, labels);
    WaitersExactly(queues, acts, Queued(Prio), prios, k, t);
    assert |acts| == |labels|;
    InOrder(queues, acts, Prio, prios, k, OwnPriority(states[0]));
  }

  lemma SameOwn(s: State, s0: State)
    requires s.base == s0.base
    ensures OwnPriority(s) == OwnPriority(s0)
  {
  }

  /** A last release hands the mutex to the waiter that all the others come after. */
  lemma HandedToFirst(states: seq<State>, labels: seq<Label>, k: nat, t: Tid, u: Tid)
    requires Run(states, labels) && k < |labels| && labels[k] == Release(t)
    requires NetTakes(states, labels, k, t) == 1 && u in states[k].waiters
    ensures states[k + 1].owner.Some? && states[k + 1].owner.value in states[k].waiters
    ensures u != states[k + 1].owner.value ==>
              Before(states[k + 1].owner.value, u, Prio, OwnPriority(states[0]), Arrival(Acts(states, labels), k))
  {
    hide Before, OwnPriority, Arrival, NetTakes, Waits;
    RunKeeps(states, labels, k);
    NetTakesHeld(states, labels, k, t);
    WaitsInTurn(states, labels, k, u);
    var q := states[k].waiters;
    assert states[k + 1].owner == Some(q[0]);
    var j :| 0 <= j < |q| && q[j] == u;
    assert q[0] in q;
  }

  /** The priorities of the threads that queued up since the present owner got the mutex. */
  function Asked(states: seq<State>, labels: seq<Label>, k: nat): set<nat>
    requires k <= |labels| < |states|
  {
    if k == 0 || states[k].owner != states[k - 1].owner then {}
    else
      var s, l := states[k - 1], labels[k - 1];
      Asked(states, labels, k - 1) + if l.Take? && Result(s, l) == Blocked then {Priority(s, l.t)} else {}
  }

  /** `p` is the smallest of `q` and the members of `asked`. */
  ghost predicate IsMin(p: nat, q: nat, asked: set<nat>) {
    && p <= q && (forall a :: a in asked ==> p <= a)
    && (p == q || p in asked)
  }

  /** In every run the owner is exactly as urgent as the most urgent of itself and those that asked while it owned. */
  lemma {:induction false} InheritsExactly(states: seq<State>, labels: seq<Label>, k: nat, o: Tid)
    requires Run(states, labels) && k < |states| && states[k].owner == Some(o)
    ensures o in states[k].prio && o in states[k].base
    ensures IsMin(states[k].prio[o], states[k].base[o], Asked(states, labels, k))
  {
    hide Invariant;
    RunKeeps(states, labels, k);
    OwnerKnown(states[k], o);
    if k > 0 {
      RunKeeps(states, labels, k - 1);
      var s, l := states[k - 1], labels[k - 1];
      assert states[k] == states[k - 1 + 1];
      if s.owner == Some(o) {
        InheritsExactly(states, labels, k - 1, o);
        PriorityNext(s, l, o);
      } else {
        FreshOwner(s, l, o);
      }
    }
  }

  lemma OwnerKnown(s: State, o: Tid)
    requires Invariant(s) && s.owner == Some(o)
    ensures o in s.prio && o in s.base
  {
  }

  lemma PriorityNext(s: State, l: Label, o: Tid)
    requires Invariant(s) && Enabled(s, l) && s.owner == Some(o) && After(s, l).owner == Some(o)
    ensures o in s.prio && o in After(s, l).prio && After(s, l).base == s.base
    ensures After(s, l).prio[o] == if l.Take? && Result(s, l) == Blocked then Min(Priority(s, l.t), s.prio[o]) else s.prio[o]
  {
  }

  /** Who gets the mutex begins with its own priority. */
  lemma FreshOwner(s: State, l: Label, o: Tid)
    requires Invariant(s) && Enabled(s, l) && s.owner != Some(o) && After(s, l).owner == Some(o)
    ensures o in After(s, l).prio && o in After(s, l).base && After(s, l).prio[o] == After(s, l).base[o]
  {
    if l.Release? {
      assert s.waiters[0] in s.waiters;
    }
  }

  lemma Facts(s: State)
    requires Invariant(s)
    ensures forall u :: u in s.waiters ==> u in s.prio && s.owner != Some(u)
    ensures s.owner.Some? ==> s.owner.value in s.prio && s.hold > 0 && s.value == 0
    ensures s.owner == None ==> s.value == 1 && s.hold == 0 && s.waiters == []
    ensures s.hold <= RT_MUTEX_HOLD_MAX
  {
  }

  class MutexObject {
    var value: nat
    var owner: Option<Tid>
    var hold: nat
    var originalPriority: nat
    var waiters: seq<Tid>
    var currentPriority: map<Tid, nat>  // the threads' current_priority fields
    ghost var base: map<Tid, nat>
    ghost var granted: set<Tid>

    ghost function Abstract(): State
      reads this
    {
      State(value, owner, hold, originalPriority, waiters, currentPriority, base, granted)
    }

    ghost predicate Valid()
      reads this
    {
      Invariant(Abstract())
    }

    constructor (priorities: map<Tid, nat>)
      ensures Valid() && Initial(Abstract()) && currentPriority == priorities
    {
      value, owner, hold, originalPriority := 1, None, 0, NO_PRIORITY;
      waiters := [];
      currentPriority, base, granted := priorities, priorities, {};
      new;
      assert WaitPrios(Abstract()) == [];
    }

    method CountTake()
      requires hold < RT_MUTEX_HOLD_MAX
      modifies this`hold
      ensures hold == old(hold) + 1
    {
      if hold < RT_MUTEX_HOLD_MAX {
        hold := hold + 1;
      } else {
        assert false;
      }
    }

    /** The arm of rt_mutex_take for a free mutex. */
    method TakeFree(t: Tid)
      requires value > 0 && hold < RT_MUTEX_HOLD_MAX && t in currentPriority
      modifies this
      ensures Abstract() == Acquire(old(Abstract()), t)
    {
      value := value - 1;
      owner := Some(t);
      originalPriority := currentPriority[t];
      CountTake();
    }

    /** First section of rt_mutex_take. */
    method TakeSection(t: Tid, timeout: int) returns (r: Outcome)
      requires Valid() && Enabled(Abstract(), Take(t, timeout != 0))
      modifies this
      ensures Valid() && Abstract() == After(old(Abstract()), Take(t, timeout != 0))
      ensures r == Result(old(Abstract()), Take(t, timeout != 0))
    {
      hide Invariant, WaitPrios, PrioPos, Acquire, Wait;
      Facts(Abstract());
      StepKeeps(Abstract(), Take(t, timeout != 0));
      if owner == Some(t) {
        if hold < RT_MUTEX_HOLD_MAX {
          CountTake();
          r := Ok;
        } else {
          r := Failed(-RT_EFULL);
        }
      } else if value > 0 {
        TakeFree(t);
        r := Ok;
      } else if timeout == 0 {
        r := Failed(-RT_ETIMEOUT);
      } else {
        QueueUp(t, owner.value);
        r := Blocked;
      }
    }

    /** The caller lends the owner its priority if that is more urgent, and waits behind its equals. */
    method QueueUp(t: Tid, o: Tid)
      requires t in currentPriority && o in currentPriority && forall u :: u in waiters ==> u in currentPriority
      modifies this
      ensures Abstract() == Wait(old(Abstract()), t, o)
    {
      hide PrioPos, WaitPrios;
      var k := Place(t);
      waiters := Insert(waiters, k, t);
      if currentPriority[t] < currentPriority[o] {
        currentPriority := currentPriority[o := currentPriority[t]];
      }
    }

    /** The position _ipc_list_suspend finds for `t` among the waiters. */
    method Place(t: Tid) returns (k: nat)
      requires t in currentPriority && forall u :: u in waiters ==> u in currentPriority
      ensures k == PrioPos(WaitPrios(Abstract()), currentPriority[t])
    {
      k := 0;
      while k < |waiters|
        invariant k <= |waiters|
        invariant forall j :: 0 <= j < k ==> currentPriority[waiters[j]] <= currentPriority[t]
      {
        if currentPriority[t] < currentPriority[waiters[k]] {
          break;
        }
        k := k + 1;
      }
      PrioPosIs(WaitPrios(Abstract()), currentPriority[t], k);
    }

    /** rt_mutex_release. */
    method ReleaseSection(t: Tid) returns (r: Outcome)
      requires Valid() && Enabled(Abstract(), Release(t))
      modifies this
      ensures Valid() && Abstract() == After(old(Abstract()), Release(t))
      ensures r == Result(old(Abstract()), Release(t))
    {
      hide Invariant, WaitPrios, PrioPos, HandOff, Free;
      Facts(Abstract());
      StepKeeps(Abstract(), Release(t));
      if owner != Some(t) {
        return Failed(-RT_ERROR);
      }
      hold := hold - 1;
      r := Ok;
      if hold == 0 {
        if originalPriority != currentPriority[t] {
          currentPriority := currentPriority[t := originalPriority];
        }
        assert currentPriority == old(currentPriority)[t := originalPriority];
        PassOn();
      }
    }

    /** The end of a last release: hand the mutex over, or leave it free. */
    method PassOn()
      requires hold == 0 && value == 0 && forall u :: u in waiters ==> u in currentPriority
      modifies this
      ensures Abstract() == if old(waiters) == [] then Free(old(Abstract())) else HandOff(old(Abstract()), old(waiters)[0])
    {
      if waiters != [] {
        var w := waiters[0];
        assert w in waiters;
        owner := Some(w);
        originalPriority := currentPriority[w];
        CountTake();
        waiters := waiters[1..];
        granted := granted + {w};
      } else {
        if value < RT_MUTEX_VALUE_MAX {
          value := value + 1;
        } else {
          assert false;
        }
        owner := None;
        originalPriority := NO_PRIORITY;
      }
    }
  }
}
