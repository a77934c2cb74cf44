/** What goes into a container, comes out of it and is left in it over a run. */
module Histories {
  /** What the sections j..k yield, one after the other. */
  function Flat<T>(steps: seq<seq<T>>, j: nat, k: nat): seq<T>
    requires j <= k <= |steps|
  {
    if j == k then [] else Flat(steps, j, k - 1) + steps[k - 1]
  }

  /** Contents before and after each section, and what the section puts in and takes out. */
  ghost predicate Recorded<T>(contents: seq<seq<T>>, ins: seq<seq<T>>, outs: seq<seq<T>>) {
    |contents| == |ins| + 1 == |outs| + 1
  }

  lemma Chain<T>(r: seq<T>, o: seq<T>, m': seq<T>, m: seq<T>, i: seq<T>)
    requires o + m' == m + i
    ensures (r + o) + m' == (r + m) + i
  {
    assert (r + o) + m' == r + (o + m') == r + (m + i) == (r + m) + i;
  }

  /** First in, first out, section by section, is first in, first out over all of them. */
  lemma {:induction false} FlatInOrder<T>(contents: seq<seq<T>>, ins: seq<seq<T>>, outs: seq<seq<T>>, j: nat, k: nat)
    requires Recorded(contents, ins, outs) && j <= k < |contents|
    requires forall i :: j <= i < k ==> outs[i] + contents[i + 1] == contents[i] + ins[i]
    ensures Flat(outs, j, k) + contents[k] == contents[j] + Flat(ins, j, k)
  {
    if j < k {
      FlatInOrder(contents, ins, outs, j, k - 1);
      assert outs[k - 1] + contents[k - 1 + 1] == contents[k - 1] + ins[k - 1];
      Chain(Flat(outs, j, k - 1), outs[k - 1], contents[k], contents[k - 1], ins[k - 1]);
      var c, f, i := contents[j], Flat(ins, j, k - 1), ins[k - 1];
      assert (c + f) + i == c + (f + i);
    } else {
      assert [] + contents[k] == contents[j] + [];
    }
  }

  lemma Exchange<T>(r: multiset<T>, o: multiset<T>, m': multiset<T>, d: multiset<T>, l: multiset<T>, m: multiset<T>,
                    i: multiset<T>, q: multiset<T>)
    requires o + m' + l == m + i && r + m + d == q
    ensures (r + o) + m' + (d + l) == q + i
  {
    assert (r + o) + m' + (d + l) == (r + d) + (o + m' + l);
    assert (r + d) + (m + i) == (r + m + d) + i;
  }

  /** Conserved section by section, in any order and with losses, is conserved over all of them. */
  lemma {:induction false} FlatConserved<T>(contents: seq<seq<T>>, ins: seq<seq<T>>, outs: seq<seq<T>>, lost: seq<seq<T>>,
                                        k: nat)
    requires Recorded(contents, ins, outs) && |lost| == |ins| && k < |contents| && contents[0] == []
    requires forall i :: 0 <= i < k ==>
               multiset(outs[i]) + multiset(contents[i + 1]) + multiset(lost[i]) == multiset(contents[i]) + multiset(ins[i])
    ensures multiset(Flat(outs, 0, k)) + multiset(contents[k]) + multiset(Flat(lost, 0, k)) == multiset(Flat(ins, 0, k))
  {
    if k > 0 {
      FlatConserved(contents, ins, outs, lost, k - 1);
      var r, q, d := Flat(outs, 0, k - 1), Flat(ins, 0, k - 1), Flat(lost, 0, k - 1);
      var o, i, l := outs[k - 1], ins[k - 1], lost[k - 1];
      assert contents[k] == contents[k - 1 + 1];
      Exchange(multiset(r), multiset(o), multiset(contents[k]), multiset(d), multiset(l), multiset(contents[k - 1]),
               multiset(i), multiset(q));
      assert multiset(r + o) == multiset(r) + multiset(o);
      assert multiset(q + i) == multiset(q) + multiset(i);
      assert multiset(d + l) == multiset(d) + multiset(l);
    }
  }
}
