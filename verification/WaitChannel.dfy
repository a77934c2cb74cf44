/**
 The blocking protocol shared by mailbox, message queue and memory pool: threads wait for units of something
 (mails, free slots, free blocks), a unit put in resumes one waiter, and a resumed thread looks again when it runs.
 */
module WaitChannel {
  import opened Distinct
  import opened IntrusiveList
  import opened WaitQueue

  type Tid = nat

  /** `avail` units are there; `waiting` threads are suspended; `woken` ones are resumed and have not run yet. */
  datatype Chan = Chan(avail: nat, waiting: seq<Tid>, woken: set<Tid>)

  /** One direction of an object whose units are counted elsewhere. */
  datatype Side = Side(waiting: seq<Tid>, woken: set<Tid>)

  /** While threads are suspended, enough resumed threads are about to run to take every available unit. */
  ghost predicate NoLostWakeup(c: Chan) {
    c.waiting != [] ==> |c.woken| >= c.avail
  }

  ghost predicate Inv(c: Chan) {
    && NoLostWakeup(c)
    && NoDuplicates(c.waiting)
    && forall t :: t in c.waiting ==> t !in c.woken
  }

  function PriosOf(q: seq<Tid>, prio: Tid -> nat): (ps: seq<nat>)
    ensures |ps| == |q| && forall i :: 0 <= i < |q| ==> ps[i] == prio(q[i])
  {
    seq(|q|, i requires 0 <= i < |q| => prio(q[i]))
  }

  function Enqueue(q: seq<Tid>, t: Tid, flag: Flag, prio: Tid -> nat): seq<Tid> {
    Insert(q, EntryPos(PriosOf(q, prio), prio(t), flag), t)
  }

  lemma EnqueueDistinct(q: seq<Tid>, t: Tid, flag: Flag, prio: Tid -> nat)
    requires NoDuplicates(q) && t !in q
    ensures NoDuplicates(Enqueue(q, t, flag, prio))
  {
    hide Insert, NoDuplicates, PriosOf, EntryPos;
    InsertDistinct(q, EntryPos(PriosOf(q, prio), prio(t), flag), t);
  }

  /** A unit arrives and the first waiter, if any, is resumed. */
  function Arrive(c: Chan): Chan {
    if c.waiting == [] then c.(avail := c.avail + 1)
    else Chan(c.avail + 1, c.waiting[1..], c.woken + {c.waiting[0]})
  }

  /** Running thread `t` takes a unit, whether it was resumed for it or came by. */
  function Take(c: Chan, t: Tid): Chan
    requires c.avail > 0
  {
    c.(avail := c.avail - 1, woken := c.woken - {t})
  }

  /** A unit goes to a caller that never waits here. */
  function Steal(c: Chan): Chan
    requires c.avail > 0
  {
    c.(avail := c.avail - 1)
  }

  /** Running thread `t` found nothing and queues up in place `q`. */
  function Suspend(c: Chan, t: Tid, q: seq<Tid>): Chan {
    c.(waiting := q, woken := c.woken - {t})
  }

  /** Running thread `t` found nothing and has no time left. */
  function GiveUp(c: Chan, t: Tid): Chan {
    c.(woken := c.woken - {t})
  }

  /** The timer of waiter number `k` fires. */
  function TimeOut(c: Chan, k: nat): Chan
    requires k < |c.waiting|
  {
    c.(waiting := Remove(c.waiting, k))
  }

  /** Every waiter is resumed with an error, and the number of units is set anew. */
  function Drain(c: Chan, avail: nat): Chan {
    c.(avail := avail, waiting := [])
  }

  /** A unit put in resumes a waiter for it. */
  lemma ArriveKeeps(c: Chan)
    requires Inv(c)
    ensures Inv(Arrive(c))
  {
    if c.waiting != [] {
      var t := c.waiting[0];
      assert t !in c.waiting[1..];
      assert t !in c.woken;
      assert |c.woken + {t}| == |c.woken| + 1;
      assert forall u :: u in c.waiting[1..] ==> u in c.waiting;
    }
  }

  /** Every unit a thread takes lowers both sides of the balance at most together. */
  lemma TakeKeeps(c: Chan, t: Tid)
    requires Inv(c) && c.avail > 0
    ensures Inv(Take(c, t))
  {
  }

  /** Wherever it queues up. */
  lemma SuspendAt(c: Chan, t: Tid, k: nat)
    requires Inv(c) && c.avail == 0 && t !in c.waiting && k <= |c.waiting|
    ensures Inv(Suspend(c, t, Insert(c.waiting, k, t)))
  {
    var q := Insert(c.waiting, k, t);
    assert forall u :: u in q ==> u == t || u in c.waiting;
  }

  /** A thread queues up only when nothing is available, so its suspension strands no unit. */
  lemma SuspendKeeps(c: Chan, t: Tid, flag: Flag, prio: Tid -> nat)
    requires Inv(c) && c.avail == 0 && t !in c.waiting
    ensures Inv(Suspend(c, t, Enqueue(c.waiting, t, flag, prio)))
  {
    SuspendAt(c, t, EntryPos(PriosOf(c.waiting, prio), prio(t), flag));
  }

  lemma TimeOutKeeps(c: Chan, k: nat)
    requires Inv(c) && k < |c.waiting|
    ensures Inv(TimeOut(c, k))
  {
    assert forall u :: u in Remove(c.waiting, k) ==> u in c.waiting;
  }

  lemma GiveUpKeeps(c: Chan, t: Tid)
    requires Inv(c) && c.avail == 0
    ensures Inv(GiveUp(c, t))
  {
  }

  lemma DrainKeeps(c: Chan, avail: nat)
    requires Inv(c)
    ensures Inv(Drain(c, avail))
  {
  }

  /** Hence a waiter is never left behind while a unit is there and nobody is on the way to take it. */
  lemma SomeoneIsComing(c: Chan)
    requires Inv(c) && c.waiting != [] && c.avail > 0
    ensures c.woken != {}
  {
  }
}
