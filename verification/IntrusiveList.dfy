/**
 The circular, doubly linked, intrusive lists behind every wait queue. A list is its head node followed by its
 members; the sequence `s` names them in ring order.
 */
module IntrusiveList {
  import opened Distinct

  class Node {
    var next: Node?
    var prev: Node?
    const owner: Thread?  // what rt_list_entry computes from the node's address; null for a list head

    constructor (owner: Thread?)
      ensures this.owner == owner
    {
      next, prev := null, null;
      this.owner := owner;
    }
  }

  class Thread {
    const id: nat
    var currentPriority: nat
    var suspended: bool
    var error: int

    constructor (id: nat, priority: nat)
      ensures this.id == id && currentPriority == priority && !suspended && error == 0
    {
      this.id, currentPriority, suspended, error := id, priority, false, 0;
    }
  }

  function Succ(i: nat, n: nat): nat {
    if i + 1 == n then 0 else i + 1
  }

  function Pred(i: nat, n: nat): int {
    if i == 0 then n - 1 else i - 1
  }

  ghost predicate Linked(s: seq<Node>, i: nat)
    requires i < |s|
    reads s
  {
    s[i].next == s[Succ(i, |s|)] && s[i].prev == s[Pred(i, |s|)]
  }

  ghost predicate Ring(s: seq<Node>)
    reads s
  {
    && |s| > 0 && NoDuplicates(s)
    && forall i :: 0 <= i < |s| ==> Linked(s, i)
  }

  function Insert<T>(s: seq<T>, k: nat, n: T): seq<T>
    requires k <= |s|
  {
    s[..k] + [n] + s[k..]
  }

  function Remove<T>(s: seq<T>, k: nat): seq<T>
    requires k < |s|
  {
    s[..k] + s[k + 1..]
  }

  lemma InsertMembers<T>(s: seq<T>, k: nat, n: T)
    requires k <= |s|
    ensures forall x :: x in Insert(s, k, n) <==> x == n || x in s
  {
  }

  lemma InsertFacts<T>(s: seq<T>, k: nat, n: T, i: nat)
    requires 0 < k <= |s| && i < |s|
    ensures var r := Insert(s, k, n);
            var i' := if i < k then i else i + 1;
            && r[k] == n && r[i'] == s[i]
            && r[Succ(i', |r|)] == (if i == k - 1 then n else s[Succ(i, |s|)])
            && r[Pred(i', |r|)] == (if i == (if k == |s| then 0 else k) then n else s[Pred(i, |s|)])
            && r[Succ(k, |r|)] == s[if k == |s| then 0 else k] && r[Pred(k, |r|)] == s[k - 1]
  {
  }

  lemma RemoveFacts<T>(s: seq<T>, k: nat, i: nat)
    requires k < |s| && i < |s| && i != k
    ensures var r := Remove(s, k);
            var i' := if i < k then i else i - 1;
            && r[i'] == s[i]
            && r[Succ(i', |r|)] == (if Succ(i, |s|) == k then s[Succ(k, |s|)] else s[Succ(i, |s|)])
            && r[Pred(i', |r|)] == (if Pred(i, |s|) == k then s[Pred(k, |s|)] else s[Pred(i, |s|)])
  {
  }

  lemma InsertDistinct<T>(s: seq<T>, k: nat, n: T)
    requires NoDuplicates(s) && k <= |s| && n !in s
    ensures NoDuplicates(Insert(s, k, n))
  {
  }

  lemma RemoveDistinct<T>(s: seq<T>, k: nat)
    requires NoDuplicates(s) && k < |s|
    ensures NoDuplicates(Remove(s, k)) && forall x :: x in Remove(s, k) ==> x in s && x != s[k]
  {
  }

  method ListInit(l: Node)
    modifies l
    ensures Ring([l])
  {
    l.next := l;
    l.prev := l;
  }

  function Wrap(k: nat, n: nat): nat {
    if k == n then 0 else k
  }

  /** The links of `s` once `n` has been put in front of position `k`, |s| standing for the end. */
  ghost predicate Opened(s: seq<Node>, k: nat, n: Node, j: nat)
    requires 0 < k <= |s| && j < |s|
    reads s
  {
    && s[j].next == (if j == k - 1 then n else s[Succ(j, |s|)])
    && s[j].prev == (if j == Wrap(k, |s|) then n else s[Pred(j, |s|)])
  }

  lemma CloseInsert(s: seq<Node>, k: nat, n: Node)
    requires 0 < k <= |s| && NoDuplicates(s) && n !in s
    requires forall j :: 0 <= j < |s| ==> Opened(s, k, n, j)
    requires n.next == s[Wrap(k, |s|)] && n.prev == s[k - 1]
    ensures Ring(Insert(s, k, n))
  {
    var r := Insert(s, k, n);
    InsertDistinct(s, k, n);
    forall i | 0 <= i < |r|
      ensures Linked(r, i)
    {
      var j := if i == k then 0 else if i < k then i else i - 1;
      assert Opened(s, k, n, j);
      InsertFacts(s, k, n, j);
    }
  }

  method InsertAfter(l: Node, n: Node, ghost s: seq<Node>, ghost k: nat)
    requires Ring(s) && k < |s| && s[k] == l && n !in s
    modifies l, l.next, n
    ensures Ring(Insert(s, k + 1, n))
  {
    assert Linked(s, k);
    l.next.prev := n;
    n.next := l.next;
    l.next := n;
    n.prev := l;
    ghost var at := k + 1;
    forall j | 0 <= j < |s|
      ensures Opened(s, at, n, j)
    {
      assert old(Linked(s, j));
    }
    CloseInsert(s, at, n);
  }

  /** Inserting before the head (k = 0) appends to the list. */
  method InsertBefore(l: Node, n: Node, ghost s: seq<Node>, ghost k: nat)
    requires Ring(s) && k < |s| && s[k] == l && n !in s
    modifies l, l.prev, n
    ensures Ring(Insert(s, if k == 0 then |s| else k, n))
  {
    assert Linked(s, k);
    l.prev.next := n;
    n.prev := l.prev;
    l.prev := n;
    n.next := l;
    ghost var at := if k == 0 then |s| else k;
    forall j | 0 <= j < |s|
      ensures Opened(s, at, n, j)
    {
      assert old(Linked(s, j));
    }
    CloseInsert(s, at, n);
  }

  /** A node alone in its ring stays alone. */
  method ListRemove(n: Node, ghost s: seq<Node>, ghost k: nat)
    requires Ring(s) && k < |s| && s[k] == n
    modifies n, n.next, n.prev
    ensures Ring([n]) && (|s| > 1 ==> Ring(Remove(s, k)))
  {
    assert Linked(s, k);
    n.next.prev := n.prev;
    n.prev.next := n.next;
    n.next := n;
    n.prev := n;
    ghost var r := Remove(s, k);
    RemoveDistinct(s, k);
    forall i | 0 <= i < |r|
      ensures Linked(r, i)
    {
      ghost var i' := if i < k then i else i + 1;
      assert old(Linked(s, i'));
      RemoveFacts(s, k, i');
    }
  }

  method IsEmpty(l: Node, ghost s: seq<Node>) returns (empty: bool)
    requires Ring(s) && s[0] == l
    ensures empty <==> |s| == 1
  {
    assert Linked(s, 0);
    empty := l.next == l;
  }

  method Len(l: Node, ghost s: seq<Node>) returns (len: nat)
    requires Ring(s) && s[0] == l
    ensures len == |s| - 1
  {
    len := 0;
    var p := l;
    assert Linked(s, 0);
    while p.next != l
      invariant len < |s| && p == s[len]
      invariant Linked(s, len)
      decreases |s| - len
    {
      p := p.next;
      len := len + 1;
      assert Linked(s, len);
    }
  }
}
