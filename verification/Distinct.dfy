/** Sequences of numbers, most of them without duplicates: the free lists and wait lists of the kernel objects. */
module Distinct {
  ghost predicate NoDuplicates<T>(q: seq<T>) {
    forall i, j :: 0 <= i < j < |q| ==> q[i] != q[j]
  }

  lemma Uncons(q: seq<nat>)
    requires q != []
    ensures forall x :: x in q <==> x == q[0] || x in q[1..]
    ensures NoDuplicates(q) ==> NoDuplicates(q[1..]) && q[0] !in q[1..]
  {
  }

  lemma ConcatDistinct(a: seq<nat>, b: seq<nat>)
    requires NoDuplicates(a) && NoDuplicates(b) && forall x :: x in a ==> x !in b
    ensures NoDuplicates(a + b)
  {
    var c := a + b;
    forall i, j | 0 <= i < j < |c|
      ensures c[i] != c[j]
    {
      assert c[i] == if i < |a| then a[i] else b[i - |a|];
      assert c[j] == if j < |a| then a[j] else b[j - |a|];
      assert i < |a| ==> c[i] in a;
      assert j >= |a| ==> c[j] in b;
    }
  }

  function Reversed<T(!new)>(q: seq<T>): (r: seq<T>)
    ensures |r| == |q|
    ensures forall k :: 0 <= k < |q| ==> r[k] == q[|q| - 1 - k]
    ensures forall x :: x in r <==> x in q
  {
    if q == [] then [] else Reversed(q[1..]) + [q[0]]
  }

  function Countdown(n: nat): (q: seq<nat>)
    ensures |q| == n && forall x: nat :: x in q <==> x < n
  {
    if n == 0 then [] else [n - 1] + Countdown(n - 1)
  }

  lemma {:induction false} CountdownDistinct(n: nat)
    ensures NoDuplicates(Countdown(n))
  {
    if n > 0 {
      CountdownDistinct(n - 1);
      ConcatDistinct([n - 1], Countdown(n - 1));
    }
  }

  function Members(q: seq<nat>): set<nat> {
    set x | x in q
  }

  lemma {:induction false} MembersCount(q: seq<nat>)
    requires NoDuplicates(q)
    ensures |Members(q)| == |q|
  {
    if q != [] {
      Uncons(q);
      MembersCount(q[1..]);
      assert Members(q) == Members(q[1..]) + {q[0]};
    }
  }
}
