/**
 What a run does to a wait queue, told by what its sections ended with: who waits, in which order, and who has been
 resumed and not run since. Every object that threads wait for is held against it.
 */
module WaitHistory {
  import opened Distinct
  import opened IntrusiveList
  import opened WaitQueue
  import opened WaitChannel

  /** Where a thread that blocks is put: by the flag of the object, or in front. */
  datatype How = Queued(flag: Flag) | Front

  /**
   What a section means to a queue: thread `t` looks for a unit, and blocks or not; the first waiter is resumed; the
   timer of a waiter fires; all waiters are sent away; or nothing.
   */
  datatype Act = Looks(t: Tid, blocks: bool) | Wakes | TimesOut(k: nat) | Clears | Idle

  function Joined(q: seq<Tid>, t: Tid, how: How, prio: Tid -> nat): seq<Tid> {
    match how
    case Queued(flag) => Enqueue(q, t, flag, prio)
    case Front => [t] + q
  }

  function Moved(q: seq<Tid>, a: Act, how: How, prio: Tid -> nat): seq<Tid> {
    match a
    case Looks(t, blocks) => if blocks then Joined(q, t, how, prio) else q
    case Wakes => if q == [] then [] else q[1..]
    case TimesOut(k) => if k < |q| then Remove(q, k) else q
    case Clears => []
    case Idle => q
  }

  predicate May(q: seq<Tid>, a: Act) {
    match a
    case Looks(t, _) => t !in q
    case TimesOut(k) => k < |q|
    case _ => true
  }

  /** `queues` are the states of a queue in a run whose sections did `acts` to it. */
  ghost predicate Trace(queues: seq<seq<Tid>>, acts: seq<Act>, how: How, prios: seq<Tid -> nat>) {
    && |queues| == |acts| + 1 == |prios| + 1 && queues[0] == []
    && forall i :: 0 <= i < |acts| ==>
         May(queues[i], acts[i]) && queues[i + 1] == Moved(queues[i], acts[i], how, prios[i])
  }

  /** A thread waits from a look that blocked until its timer fires, all are sent away, or it is resumed as the first. */
  predicate Waits(queues: seq<seq<Tid>>, acts: seq<Act>, k: nat, t: Tid)
    requires k <= |acts| < |queues|
  {
    k > 0 &&
    var q := queues[k - 1];
    match acts[k - 1]
    case Looks(u, blocks) => if u == t then blocks else Waits(queues, acts, k - 1, t)
    case Wakes => Waits(queues, acts, k - 1, t) && !(q != [] && q[0] == t)
    case TimesOut(n) => Waits(queues, acts, k - 1, t) && !(n < |q| && q[n] == t)
    case Clears => false
    case Idle => Waits(queues, acts, k - 1, t)
  }

  function ComingNext(coming: set<Tid>, q: seq<Tid>, a: Act): set<Tid> {
    match a
    case Looks(t, _) => coming - {t}
    case Wakes => if q == [] then coming else coming + {q[0]}
    case _ => coming
  }

  /** The threads resumed that have not looked again since. */
  function Coming(queues: seq<seq<Tid>>, acts: seq<Act>, k: nat): set<Tid>
    requires k <= |acts| < |queues|
  {
    if k == 0 then {} else ComingNext(Coming(queues, acts, k - 1), queues[k - 1], acts[k - 1])
  }

  lemma RemoveLeaves(q: seq<Tid>, k: nat, t: Tid)
    requires k < |q| && NoDuplicates(q)
    ensures t in Remove(q, k) <==> t in q && t != q[k]
  {
    if t in q && t != q[k] {
      var j :| 0 <= j < |q| && q[j] == t;
      assert t == if j < k then Remove(q, k)[j] else Remove(q, k)[j - 1];
    }
  }

  lemma RemoveFirst(q: seq<Tid>)
    requires q != []
    ensures Remove(q, 0) == q[1..]
  {
  }

  lemma JoinedMembers(q: seq<Tid>, t: Tid, how: How, prio: Tid -> nat, u: Tid)
    ensures u in Joined(q, t, how, prio) <==> u == t || u in q
    ensures NoDuplicates(q) && t !in q ==> NoDuplicates(Joined(q, t, how, prio))
  {
    hide Insert, EntryPos, PriosOf;
    match how {
      case Queued(flag) =>
        InsertMembers(q, EntryPos(PriosOf(q, prio), prio(t), flag), t);
        if NoDuplicates(q) && t !in q {
          EnqueueDistinct(q, t, flag, prio);
        }
      case Front =>
    }
  }

  lemma MovedMembers(q: seq<Tid>, a: Act, how: How, prio: Tid -> nat, u: Tid)
    requires NoDuplicates(q) && May(q, a)
    ensures NoDuplicates(Moved(q, a, how, prio))
    ensures u in Moved(q, a, how, prio) <==>
              match a
              case Looks(t, blocks) => u in q || (blocks && u == t)
              case Wakes => u in q && u != q[0]
              case TimesOut(k) => u in q && u != q[k]
              case Clears => false
              case Idle => u in q
  {
    hide Joined, Remove;
    match a {
      case Looks(t, _) => JoinedMembers(q, t, how, prio, u);
      case Wakes =>
        if q != [] {
          RemoveFirst(q);
          RemoveLeaves(q, 0, u);
          RemoveDistinct(q, 0);
        }
      case TimesOut(k) =>
        RemoveLeaves(q, k, u);
        RemoveDistinct(q, k);
      case _ =>
    }
  }

  /** No waiter is lost, none is left behind, and none waits twice. */
  lemma {:induction false} WaitersExactly(queues: seq<seq<Tid>>, acts: seq<Act>, how: How, prios: seq<Tid -> nat>, k: nat,
                                          t: Tid)
    requires Trace(queues, acts, how, prios) && k < |queues|
    ensures NoDuplicates(queues[k]) && (t in queues[k] <==> Waits(queues, acts, k, t))
  {
    hide Moved, NoDuplicates;
    if k == 0 {
      NobodyTwice();
    } else {
      WaitersExactly(queues, acts, how, prios, k - 1, t);
      assert queues[k] == queues[k - 1 + 1];
      MovedMembers(queues[k - 1], acts[k - 1], how, prios[k - 1], t);
    }
  }

  lemma NobodyTwice()
    ensures NoDuplicates<Tid>([])
  {
  }

  /** The number of the section at which `t` looked last, among the first `k`: for a waiter, when it came. */
  function Came(acts: seq<Act>, k: nat, t: Tid): (n: nat)
    requires k <= |acts|
    ensures n <= k
  {
    if k == 0 then 0 else if acts[k - 1].Looks? && acts[k - 1].t == t then k else Came(acts, k - 1, t)
  }

  function Arrival(acts: seq<Act>, k: nat): Tid -> nat
    requires k <= |acts|
  {
    t => Came(acts, k, t)
  }

  lemma CameNext(acts: seq<Act>, k: nat)
    requires 0 < k <= |acts|
    ensures forall t :: Came(acts, k, t) == if acts[k - 1].Looks? && acts[k - 1].t == t then k else Came(acts, k - 1, t)
  {
  }

  /** Who is to go first: in a PRIO queue the more urgent one, otherwise the one whose stamp is older. */
  predicate Before(t: Tid, u: Tid, flag: Flag, prio: Tid -> nat, stamp: Tid -> nat) {
    if flag == Prio && prio(t) != prio(u) then prio(t) < prio(u) else stamp(t) < stamp(u)
  }

  predicate Ordered(q: seq<Tid>, flag: Flag, prio: Tid -> nat, stamp: Tid -> nat) {
    forall i, j :: 0 <= i < j < |q| ==> Before(q[i], q[j], flag, prio, stamp)
  }

  /** A queue in order stays in order when a thread with a newer stamp enters, whatever the flag. */
  lemma EnqueueOrdered(q: seq<Tid>, t: Tid, flag: Flag, prio: Tid -> nat, stamp: Tid -> nat)
    requires Ordered(q, flag, prio, stamp) && forall u :: u in q ==> stamp(u) < stamp(t)
    ensures Ordered(Enqueue(q, t, flag, prio), flag, prio, stamp)
  {
    var ps := PriosOf(q, prio);
    if flag == Prio {
      forall i, j | 0 <= i < j < |ps|
        ensures ps[i] <= ps[j]
      {
        assert Before(q[i], q[j], flag, prio, stamp);
      }
    }
    var k, r := EntryPos(ps, prio(t), flag), Enqueue(q, t, flag, prio);
    forall i, j | 0 <= i < j < |r|
      ensures Before(r[i], r[j], flag, prio, stamp)
    {
      if j == k {
        EntryPosTells(ps, prio(t), flag, i);
        assert q[i] in q;
      } else if i == k {
        EntryPosTells(ps, prio(t), flag, j - 1);
      }
    }
  }

  /** The order a queue has by one priority function it has by another, if only the flag does not ask for it. */
  lemma OrderedAlike(q: seq<Tid>, flag: Flag, p: Tid -> nat, p': Tid -> nat, stamp: Tid -> nat, stamp': Tid -> nat)
    requires Ordered(q, flag, p, stamp) && (flag == Prio ==> p == p') && forall t :: t in q ==> stamp(t) == stamp'(t)
    ensures Ordered(q, flag, p', stamp')
  {
    forall i, j | 0 <= i < j < |q|
      ensures Before(q[i], q[j], flag, p', stamp')
    {
      assert Before(q[i], q[j], flag, p, stamp);
    }
  }

  lemma RemoveOrdered(q: seq<Tid>, k: nat, flag: Flag, prio: Tid -> nat, stamp: Tid -> nat)
    requires Ordered(q, flag, prio, stamp) && k < |q|
    ensures Ordered(Remove(q, k), flag, prio, stamp)
  {
  }

  lemma MovedOrdered(q: seq<Tid>, a: Act, flag: Flag, prio: Tid -> nat, stamp: Tid -> nat)
    requires May(q, a) && Ordered(q, flag, prio, stamp)
    requires a.Looks? ==> forall t :: t in q ==> stamp(t) < stamp(a.t)
    ensures Ordered(Moved(q, a, Queued(flag), prio), flag, prio, stamp)
  {
    hide Before, Enqueue, Remove;
    match a {
      case Looks(t, _) => EnqueueOrdered(q, t, flag, prio, stamp);
      case Wakes =>
        if q != [] {
          RemoveFirst(q);
          RemoveOrdered(q, 0, flag, prio, stamp);
        }
      case TimesOut(k) => RemoveOrdered(q, k, flag, prio, stamp);
      case _ =>
    }
  }

  /** A FIFO queue, or priorities that did not change in the first `k` sections. */
  ghost predicate Steady(flag: Flag, prios: seq<Tid -> nat>, k: nat, prio: Tid -> nat)
    requires k <= |prios|
  {
    flag == Prio ==> forall i :: 0 <= i < k ==> prios[i] == prio
  }

  /**
   First come, first served: whatever happened before, the threads of a FIFO queue wait in the order in which they came,
   and those of a PRIO queue by priority and among equals as they came.
   */
  lemma {:induction false} InOrder(queues: seq<seq<Tid>>, acts: seq<Act>, flag: Flag, prios: seq<Tid -> nat>, k: nat,
                                   prio: Tid -> nat)
    requires Trace(queues, acts, Queued(flag), prios) && k < |queues| && Steady(flag, prios, k, prio)
    ensures Ordered(queues[k], flag, prio, Arrival(acts, k))
  {
    hide Before, Moved, Came;
    if k > 0 {
      InOrder(queues, acts, flag, prios, k - 1, prio);
      var q, a, p := queues[k - 1], acts[k - 1], prios[k - 1];
      assert queues[k - 1 + 1] == Moved(q, a, Queued(flag), p) && May(q, a);
      var stamp := Arrival(acts, k);
      CameNext(acts, k);
      OrderedAlike(q, flag, prio, p, Arrival(acts, k - 1), stamp);
      MovedOrdered(q, a, flag, p, stamp);
      OrderedAlike(queues[k], flag, p, prio, stamp, stamp);
    }
  }

  /** Who is resumed is the one all the others come after. */
  lemma FirstServed(queues: seq<seq<Tid>>, acts: seq<Act>, flag: Flag, prios: seq<Tid -> nat>, k: nat, prio: Tid -> nat)
    returns (w: Tid)
    requires Trace(queues, acts, Queued(flag), prios) && k < |acts| && acts[k].Wakes? && queues[k] != []
    requires Steady(flag, prios, k, prio)
    ensures w in queues[k] && w !in queues[k + 1]
    ensures forall t :: t in queues[k] && t != w ==>
              t in queues[k + 1] && Before(w, t, flag, prio, Arrival(acts, k))
  {
    hide Before, Arrival;
    InOrder(queues, acts, flag, prios, k, prio);
    var q := queues[k];
    w := q[0];
    WaitersExactly(queues, acts, Queued(flag), prios, k, w);
    assert queues[k + 1] == q[1..];
    forall t | t in q && t != w
      ensures t in q[1..] && Before(w, t, flag, prio, Arrival(acts, k))
    {
      var j :| 0 < j < |q| && q[j] == t;
      assert q[1..][j - 1] == t;
    }
  }

  /** The order of a queue that is entered in front. */
  predicate LastFirst(q: seq<Tid>, stamp: Tid -> nat) {
    forall i, j :: 0 <= i < j < |q| ==> stamp(q[j]) < stamp(q[i])
  }

  lemma MovedLastFirst(q: seq<Tid>, a: Act, prio: Tid -> nat, stamp: Tid -> nat, stamp': Tid -> nat)
    requires LastFirst(q, stamp) && forall t :: t in q ==> stamp'(t) == stamp(t)
    requires a.Looks? ==> forall t :: t in q ==> stamp'(t) < stamp'(a.t)
    ensures LastFirst(Moved(q, a, Front, prio), stamp')
  {
    var r := Moved(q, a, Front, prio);
    forall i, j | 0 <= i < j < |r|
      ensures stamp'(r[j]) < stamp'(r[i])
    {
      assert r[j] in q && (r[i] in q || (a.Looks? && r[i] == a.t));
    }
  }

  /** There the last to come stands first. */
  lemma {:induction false} InFrontOrder(queues: seq<seq<Tid>>, acts: seq<Act>, prios: seq<Tid -> nat>, k: nat)
    requires Trace(queues, acts, Front, prios) && k < |queues|
    ensures LastFirst(queues[k], Arrival(acts, k))
  {
    hide Came, Moved, LastFirst;
    if k == 0 {
      NobodyFirst(Arrival(acts, k));
    } else {
      InFrontOrder(queues, acts, prios, k - 1);
      var q, a := queues[k - 1], acts[k - 1];
      assert queues[k - 1 + 1] == Moved(q, a, Front, prios[k - 1]) && May(q, a);
      CameNext(acts, k);
      MovedLastFirst(q, a, prios[k - 1], Arrival(acts, k - 1), Arrival(acts, k));
    }
  }

  lemma NobodyFirst(stamp: Tid -> nat)
    ensures LastFirst([], stamp)
  {
  }
}
