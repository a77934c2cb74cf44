/**
 The wait lists of the IPC objects, as pointers and as the sequences of thread numbers their machines use: every list
 operation of the kernel does to the ring what the machines do to the sequence.
 */
module WaitList {
  import opened Distinct
  import opened IntrusiveList
  import opened WaitQueue
  import opened WaitChannel

  function Tids(q: seq<Node>): (ts: seq<Tid>)
    requires forall n :: n in q ==> n.owner != null
    ensures |ts| == |q| && forall i :: 0 <= i < |q| ==> ts[i] == q[i].owner.id
  {
    seq(|q|, i requires 0 <= i < |q| => (assert q[i] in q; q[i].owner.id))
  }

  /** The ring at `list` holds the threads `waiting`, all suspended, and `prio` tells their priorities. */
  ghost predicate Shows(list: Node, q: seq<Node>, waiting: seq<Tid>, prio: Tid -> nat)
    reads list, q, set n | n in q :: n.owner
  {
    && Queue(list, q) && AllSuspended(q) && Tids(q) == waiting
    && forall n :: n in q ==> n.owner.currentPriority == prio(n.owner.id)
  }

  lemma Owners(q: seq<Node>, k: nat, n: Node)
    requires k <= |q| && n.owner != null && forall m :: m in q ==> m.owner != null
    ensures forall m :: m in Insert(q, k, n) ==> m.owner != null
  {
    InsertMembers(q, k, n);
  }

  lemma TidsInsert(q: seq<Node>, k: nat, n: Node)
    requires k <= |q| && n.owner != null && forall m :: m in q ==> m.owner != null
    requires forall m :: m in Insert(q, k, n) ==> m.owner != null
    ensures Tids(Insert(q, k, n)) == Insert(Tids(q), k, n.owner.id)
  {
    var r := Insert(q, k, n);
    forall j | 0 <= j < |r|
      ensures Tids(r)[j] == Insert(Tids(q), k, n.owner.id)[j]
    {
      assert r[j] == if j < k then q[j] else if j == k then n else q[j - 1];
    }
  }

  lemma OwnersLeft(q: seq<Node>, k: nat)
    requires k < |q| && forall m :: m in q ==> m.owner != null
    ensures forall m :: m in Remove(q, k) ==> m in q && m.owner != null
  {
  }

  lemma TidsRemove(q: seq<Node>, k: nat)
    requires k < |q| && forall m :: m in q ==> m.owner != null
    requires forall m :: m in Remove(q, k) ==> m.owner != null
    ensures Tids(Remove(q, k)) == Remove(Tids(q), k)
  {
    var r := Remove(q, k);
    forall j | 0 <= j < |r|
      ensures Tids(r)[j] == Remove(Tids(q), k)[j]
    {
      assert r[j] == q[if j < k then j else j + 1];
    }
  }

  /** The priorities in the ring are those of the thread numbers. */
  lemma SamePriorities(q: seq<Node>, prio: Tid -> nat)
    requires forall n :: n in q ==> n.owner != null && n.owner.currentPriority == prio(n.owner.id)
    ensures Prios(q) == PriosOf(Tids(q), prio)
  {
    forall i | 0 <= i < |q|
      ensures Prios(q)[i] == PriosOf(Tids(q), prio)[i]
    {
      assert q[i] in q;
    }
  }

  /** A thread that may go to sleep here: it is in no list and runs. */
  ghost predicate MayWait(list: Node, q: seq<Node>, tlist: Node, prio: Tid -> nat)
    requires forall n :: n in q ==> n.owner != null
    reads tlist, tlist.owner
  {
    && tlist !in [list] + q && tlist.owner != null && tlist.owner.currentPriority == prio(tlist.owner.id)
    && forall n :: n in q ==> n.owner != tlist.owner
  }

  lemma StillSuspended(q: seq<Node>, k: nat, n: Node)
    requires k <= |q| && n.owner != null && forall m :: m in q ==> m.owner != null
    requires AllSuspended(q) && n.owner.suspended && forall m :: m in q ==> m.owner != n.owner
    ensures forall m :: m in Insert(q, k, n) ==> m.owner != null
    ensures AllSuspended(Insert(q, k, n))
  {
    InsertMembers(q, k, n);
    var r := Insert(q, k, n);
    forall j | 0 <= j < |r|
      ensures r[j].owner.suspended && (j != k ==> r[j] == q[if j < k then j else j - 1] && r[j] in q)
    {
      assert r[j] == if j < k then q[j] else if j == k then n else q[j - 1];
    }
    forall i, j | 0 <= i < j < |r|
      ensures r[i].owner != r[j].owner
    {
    }
  }

  lemma SamePlace(q: seq<Node>, waiting: seq<Tid>, n: Node, flag: Flag, prio: Tid -> nat)
    requires forall m :: m in q ==> m.owner != null && m.owner.currentPriority == prio(m.owner.id)
    requires Tids(q) == waiting && n.owner != null && n.owner.currentPriority == prio(n.owner.id)
    requires forall m :: m in Insert(q, EntryPos(Prios(q), n.owner.currentPriority, flag), n) ==> m.owner != null
    ensures Tids(Insert(q, EntryPos(Prios(q), n.owner.currentPriority, flag), n)) == Enqueue(waiting, n.owner.id, flag, prio)
  {
    hide EntryPos, Insert;
    SamePriorities(q, prio);
    TidsInsert(q, EntryPos(Prios(q), n.owner.currentPriority, flag), n);
  }

  /** _ipc_list_suspend is Enqueue. */
  method Suspend(list: Node, tlist: Node, flag: Flag, ghost q: seq<Node>, ghost waiting: seq<Tid>, ghost prio: Tid -> nat)
    returns (ghost q': seq<Node>)
    requires Shows(list, q, waiting, prio) && MayWait(list, q, tlist, prio)
    modifies list, q, tlist, tlist.owner`suspended
    ensures Shows(list, q', Enqueue(waiting, tlist.owner.id, flag, prio), prio)
    ensures forall n :: n in q' <==> n in q || n == tlist
  {
    hide Ring, Linked, EntryPos, Tids, Insert, Prios, Enqueue;
    ghost var k := EntryPos(Prios(q), tlist.owner.currentPriority, flag);
    Owners(q, k, tlist);
    SamePlace(q, waiting, tlist, flag, prio);
    q' := Insert(q, k, tlist);
    IpcListSuspend(list, tlist, flag, q);
    InsertMembers(q, k, tlist);
    assert forall n :: n in q ==> n.owner.currentPriority == old(n.owner.currentPriority);
    StillSuspended(q, k, tlist);
    assert Queue(list, q');
    assert AllSuspended(q');
    assert Tids(q') == Enqueue(waiting, tlist.owner.id, flag, prio);
    assert forall n :: n in q' ==> n.owner.currentPriority == prio(n.owner.id);
  }

  /** _ipc_list_resume takes the first thread number. */
  method Resume(list: Node, ghost q: seq<Node>, ghost waiting: seq<Tid>, ghost prio: Tid -> nat) returns (thread: Node)
    requires Shows(list, q, waiting, prio) && waiting != []
    modifies list, q, q[0].owner`suspended
    ensures thread == q[0] && thread.owner.id == waiting[0] && !thread.owner.suspended && Ring([thread])
    ensures Shows(list, q[1..], waiting[1..], prio)
  {
    OwnersLeft(q, 0);
    TidsRemove(q, 0);
    assert Remove(q, 0) == q[1..] && Remove(waiting, 0) == waiting[1..];
    assert q[0] in q;
    hide Ring, Linked, Tids;
    thread := IpcListResume(list, q);
  }

  /** _ipc_list_resume_all leaves none. */
  method ResumeAll(list: Node, ghost q: seq<Node>, ghost waiting: seq<Tid>, ghost prio: Tid -> nat)
    requires Shows(list, q, waiting, prio)
    modifies list, q, set n | n in q :: n.owner
    ensures Shows(list, [], [], prio)
    ensures forall j :: 0 <= j < |q| ==> Detached(q[j])
  {
    IpcListResumeAll(list, q);
    assert [list] + [] == [list];
  }

  /** rt_mp_alloc puts a thread at the front. */
  method SuspendFirst(list: Node, tlist: Node, ghost q: seq<Node>, ghost waiting: seq<Tid>, ghost prio: Tid -> nat)
    returns (ghost q': seq<Node>)
    requires Shows(list, q, waiting, prio) && MayWait(list, q, tlist, prio)
    modifies list, q, tlist, tlist.owner`suspended
    ensures Shows(list, q', Insert(waiting, 0, tlist.owner.id), prio)
    ensures forall n :: n in q' <==> n in q || n == tlist
  {
    hide Ring, Linked, Tids, Insert;
    Owners(q, 0, tlist);
    TidsInsert(q, 0, tlist);
    q' := Insert(q, 0, tlist);
    tlist.owner.suspended := true;  // rt_thread_suspend
    PrevInRing([list] + q, 0);
    NextInRing([list] + q, 0);
    InsertAfter(list, tlist, [list] + q, 0);
    QueueInsert(list, q, 0, tlist);
    InsertMembers(q, 0, tlist);
    assert forall n :: n in q ==> n.owner.currentPriority == old(n.owner.currentPriority);
    StillSuspended(q, 0, tlist);
    assert Queue(list, q') && AllSuspended(q');
    assert forall n :: n in q' ==> n.owner.currentPriority == prio(n.owner.id);
  }

  lemma NextInRing(s: seq<Node>, k: nat)
    requires Ring(s) && k < |s|
    ensures s[k].next != null && s[k].next in s
  {
    assert Linked(s, k);
  }

  lemma LeftSuspended(q: seq<Node>, k: nat)
    requires k < |q| && forall m :: m in q ==> m.owner != null
    requires forall j :: 0 <= j < |q| && j != k ==> q[j].owner.suspended
    requires forall i, j :: 0 <= i < j < |q| ==> q[i].owner != q[j].owner
    requires forall m :: m in Remove(q, k) ==> m.owner != null
    ensures AllSuspended(Remove(q, k))
  {
    var r := Remove(q, k);
    forall i, j | 0 <= i < j < |r|
      ensures r[i].owner != r[j].owner
    {
      assert r[i] == q[if i < k then i else i + 1] && r[j] == q[if j < k then j else j + 1];
    }
    forall j | 0 <= j < |r|
      ensures r[j].owner.suspended
    {
      assert r[j] == q[if j < k then j else j + 1];
    }
  }

  method Unlink(list: Node, tlist: Node, ghost k: nat, ghost q: seq<Node>)
    requires Queue(list, q) && k < |q| && q[k] == tlist
    modifies list, q
    ensures forall n :: n in Remove(q, k) ==> n in q
    ensures Queue(list, Remove(q, k)) && Ring([tlist])
  {
    hide Ring, Linked;
    ghost var s := [list] + q;
    OwnersLeft(q, k);
    assert s[k + 1] == tlist && tlist in q;
    PrevInRing(s, k + 1);
    NextInRing(s, k + 1);
    ListRemove(tlist, s, k + 1);
    assert Remove(s, k + 1) == [list] + Remove(q, k);
    OwnersLeft(q, k);
  }

  /** The timer of the waiter at place `k` fires: it leaves the list with the error code of a timeout. */
  method TimeOut(list: Node, tlist: Node, ghost k: nat, ghost q: seq<Node>, ghost waiting: seq<Tid>,
                 ghost prio: Tid -> nat)
    requires Shows(list, q, waiting, prio) && k < |q| && q[k] == tlist
    modifies list, q, tlist.owner`error, tlist.owner`suspended
    ensures Shows(list, Remove(q, k), Remove(waiting, k), prio)
    ensures Ring([tlist]) && !tlist.owner.suspended && tlist.owner.error == -RT_ETIMEOUT
  {
    hide Ring, Linked, Tids;
    OwnersLeft(q, k);
    TidsRemove(q, k);
    tlist.owner.error := -RT_ETIMEOUT;
    Unlink(list, tlist, k, q);
    tlist.owner.suspended := false;
    LeftSuspended(q, k);
  }
}
