/**
 Wait queues: where _ipc_list_suspend puts a thread, and the list code that puts it there.
 A smaller priority number is a higher priority.
 */
module WaitQueue {
  import opened IntrusiveList

  datatype Flag = Fifo | Prio

  const RT_EOK := 0
  const RT_ERROR := 1
  const RT_ETIMEOUT := 2
  const RT_EFULL := 3

  /** How a section ends: done, refused with an error code, or suspended until another thread or a timer acts. */
  datatype Outcome = Ok | Failed(error: int) | Blocked

  /** The position of the first waiter with a strictly lower priority than `p`, or the end. */
  function PrioPos(ps: seq<nat>, p: nat): (k: nat)
    ensures k <= |ps| && (k < |ps| ==> p < ps[k])
    ensures forall j :: 0 <= j < k ==> ps[j] <= p
  {
    if ps == [] || p < ps[0] then 0 else 1 + PrioPos(ps[1..], p)
  }

  function EntryPos(ps: seq<nat>, p: nat, flag: Flag): (k: nat)
    ensures k <= |ps|
  {
    if flag == Fifo then |ps| else PrioPos(ps, p)
  }

  predicate Sorted(ps: seq<nat>) {
    forall i, j :: 0 <= i < j < |ps| ==> ps[i] <= ps[j]
  }

  /** A newcomer waits behind exactly those of its own priority or higher: arrival order among equals. */
  lemma PrioStable(ps: seq<nat>, p: nat, j: nat)
    requires Sorted(ps) && j < |ps|
    ensures j < PrioPos(ps, p) <==> ps[j] <= p
  {
    var k := PrioPos(ps, p);
    assert k < j ==> ps[k] <= ps[j];
  }

  /** What the flag of an object means: FIFO lets everybody who is there go first, PRIO those as urgent or more so. */
  lemma EntryPosTells(ps: seq<nat>, p: nat, flag: Flag, j: nat)
    requires (flag == Prio ==> Sorted(ps)) && j < |ps|
    ensures j < EntryPos(ps, p, flag) <==> flag == Fifo || ps[j] <= p
  {
    if flag == Prio {
      PrioStable(ps, p, j);
    }
  }

  /** A priority queue stays sorted. */
  lemma PrioSorted(ps: seq<nat>, p: nat)
    requires Sorted(ps)
    ensures Sorted(Insert(ps, PrioPos(ps, p), p))
  {
    var k := PrioPos(ps, p);
    var r := Insert(ps, k, p);
    assert forall i :: 0 <= i < |r| ==> r[i] == if i < k then ps[i] else if i == k then p else ps[i - 1];
    forall i, j | 0 <= i < j < |r|
      ensures r[i] <= r[j]
    {
      if j > k {
        PrioStable(ps, p, j - 1);
      }
    }
  }

  /** Removing a waiter keeps a priority queue sorted. */
  lemma RemoveSorted(ps: seq<nat>, k: nat)
    requires Sorted(ps) && k < |ps|
    ensures Sorted(Remove(ps, k))
  {
  }

  /** The members of the list, as the threads they are embedded in. */
  ghost predicate Queue(list: Node, q: seq<Node>)
    reads list, q
  {
    && Ring([list] + q)
    && forall n :: n in q ==> n.owner != null
  }

  function Prios(q: seq<Node>): (ps: seq<nat>)
    requires forall n :: n in q ==> n.owner != null
    reads set n | n in q :: n.owner
    ensures |ps| == |q|
    ensures forall j :: 0 <= j < |q| ==> ps[j] == q[j].owner.currentPriority
  {
    seq(|q|, j requires 0 <= j < |q| reads set n | n in q :: n.owner => q[j].owner.currentPriority)
  }

  /** The loop of _ipc_list_suspend: the first waiter of lower priority, or the list head. */
  method FindPlace(list: Node, priority: nat, ghost q: seq<Node>) returns (n: Node)
    requires Queue(list, q)
    ensures n == ([list] + q)[Wrap(PrioPos(Prios(q), priority) + 1, |q| + 1)]
  {
    ghost var s := [list] + q;
    ghost var k := 0;
    assert Linked(s, 0);
    n := list.next;
    while n != list
      invariant k <= |q| && n == s[Wrap(k + 1, |s|)]
      invariant forall j :: 0 <= j < k ==> q[j].owner.currentPriority <= priority
      decreases |q| - k
    {
      assert n == q[k] && n in q;
      if priority < n.owner.currentPriority {
        break;
      }
      assert Linked(s, k + 1);
      n := n.next;
      k := k + 1;
    }
    PrioPosIs(Prios(q), priority, k);
  }

  lemma PrevInRing(s: seq<Node>, k: nat)
    requires Ring(s) && k < |s|
    ensures s[k].prev != null && s[k].prev in s
  {
    assert Linked(s, k);
  }

  lemma QueueInsert(list: Node, q: seq<Node>, k: nat, n: Node)
    requires k <= |q| && Ring(Insert([list] + q, k + 1, n))
    requires n.owner != null && forall m :: m in q ==> m.owner != null
    ensures Queue(list, Insert(q, k, n))
  {
    assert Insert([list] + q, k + 1, n) == [list] + Insert(q, k, n);
  }

  /** The node a suspending thread goes in front of. */
  method ChoosePlace(list: Node, priority: nat, flag: Flag, ghost q: seq<Node>) returns (n: Node)
    requires Queue(list, q)
    ensures n == ([list] + q)[Wrap(EntryPos(Prios(q), priority, flag) + 1, |q| + 1)]
  {
    if flag == Fifo {
      n := list;
    } else {
      n := FindPlace(list, priority, q);
    }
  }

  method IpcListSuspend(list: Node, tlist: Node, flag: Flag, ghost q: seq<Node>)
    requires Queue(list, q)
    requires tlist !in [list] + q && tlist.owner != null
    modifies list, q, tlist, tlist.owner`suspended
    ensures Queue(list, Insert(q, old(EntryPos(Prios(q), tlist.owner.currentPriority, flag)), tlist))
    ensures tlist.owner.suspended
  {
    hide Ring, Linked, Prios, EntryPos;
    ghost var k := EntryPos(Prios(q), tlist.owner.currentPriority, flag);
    var place := ChoosePlace(list, tlist.owner.currentPriority, flag, q);
    tlist.owner.suspended := true;  // rt_thread_suspend
    ghost var s := [list] + q;
    ghost var at := Wrap(k + 1, |s|);
    PrevInRing(s, at);
    InsertBefore(place, tlist, s, at);
    QueueInsert(list, q, k, tlist);
  }

  lemma PrioPosIs(ps: seq<nat>, p: nat, k: nat)
    requires k <= |ps| && (k < |ps| ==> p < ps[k])
    requires forall j :: 0 <= j < k ==> ps[j] <= p
    ensures PrioPos(ps, p) == k
  {
  }

  /** rt_thread_resume: a suspended thread leaves its list; any other thread is refused. */
  method ThreadResume(tlist: Node, ghost s: seq<Node>, ghost k: nat) returns (err: int)
    requires Ring(s) && |s| > 1 && k < |s| && s[k] == tlist && tlist.owner != null
    modifies s, tlist.owner`suspended
    ensures err == if old(tlist.owner.suspended) then RT_EOK else -RT_ERROR
    ensures old(tlist.owner.suspended) ==> Ring(Remove(s, k)) && Ring([tlist]) && !tlist.owner.suspended
    ensures !old(tlist.owner.suspended) ==> Ring(s)
  {
    if !tlist.owner.suspended {
      return -RT_ERROR;
    }
    assert Linked(s, k) && s[Pred(k, |s|)] in s && s[Succ(k, |s|)] in s;
    ListRemove(tlist, s, k);
    tlist.owner.suspended := false;
    err := RT_EOK;
  }

  /** Every member's thread is suspended, and no thread waits twice. */
  ghost predicate AllSuspended(q: seq<Node>)
    requires forall n :: n in q ==> n.owner != null
    reads set n | n in q :: n.owner
  {
    && (forall j :: 0 <= j < |q| ==> q[j].owner.suspended)
    && (forall i, j :: 0 <= i < j < |q| ==> q[i].owner != q[j].owner)
  }

  /** _ipc_list_resume: the first waiter leaves the queue. */
  method IpcListResume(list: Node, ghost q: seq<Node>) returns (thread: Node)
    requires Queue(list, q) && AllSuspended(q) && |q| > 0
    modifies list, q, q[0].owner`suspended
    ensures thread == q[0]
    ensures Queue(list, q[1..]) && AllSuspended(q[1..])
    ensures Ring([thread]) && !thread.owner.suspended
  {
    ghost var s := [list] + q;
    assert Linked(s, 0);
    thread := list.next;
    assert thread == q[0] && thread in q;
    var err := ThreadResume(thread, s, 1);
    assert Remove(s, 1) == [list] + q[1..];
    assert forall n :: n in q[1..] ==> n in q;
  }

  method ResumeWithError(list: Node, ghost q: seq<Node>)
    requires Queue(list, q) && AllSuspended(q) && |q| > 0
    modifies list, q, q[0].owner
    ensures Queue(list, q[1..]) && AllSuspended(q[1..]) && Detached(q[0])
  {
    assert Linked([list] + q, 0);
    var thread := list.next;
    assert thread == q[0] && thread in q;
    thread.owner.error := -RT_ERROR;
    thread := IpcListResume(list, q);
  }

  lemma Apart(list: Node, q: seq<Node>)
    requires Queue(list, q) && AllSuspended(q)
    ensures forall i, j :: 0 <= i < j < |q| ==> q[i] != q[j] && q[i].owner != q[j].owner
    ensures forall j :: 0 <= j < |q| ==> q[j] != list
  {
    var s := [list] + q;
    assert s[0] == list && forall i :: 0 <= i < |q| ==> s[i + 1] == q[i];
  }

  /** The loop ends, with an empty list, every waiter detached and told RT_ERROR. */
  method IpcListResumeAll(list: Node, ghost q0: seq<Node>)
    requires Queue(list, q0) && AllSuspended(q0)
    modifies list, q0, set n | n in q0 :: n.owner
    ensures Ring([list])
    ensures forall j :: 0 <= j < |q0| ==> Detached(q0[j])
  {
    Apart(list, q0);
    hide Ring, Linked, AllSuspended, Detached;
    ghost var q, done := q0, 0;
    while true
      invariant done <= |q0| && q == q0[done..]
      invariant Queue(list, q) && AllSuspended(q)
      invariant forall j :: 0 <= j < done ==> Detached(q0[j])
      decreases |q0| - done
    {
      var empty := IsEmpty(list, [list] + q);
      if empty {
        break;
      }
      assert q[0] == q0[done];
      ResumeWithError(list, q);
      q, done := q[1..], done + 1;
    }
    assert [list] + q == [list];
  }

  ghost predicate Detached(n: Node)
    reads n, n.owner
  {
    Ring([n]) && n.owner != null && n.owner.error == -RT_ERROR && !n.owner.suspended
  }
}
