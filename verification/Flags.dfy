/** The 32-bit words that event flags live in: their operators, named, and the laws of them the event set relies on. */
module Flags {
  function And(a: bv32, b: bv32): bv32 {
    a & b
  }

  function Or(a: bv32, b: bv32): bv32 {
    a | b
  }

  /** a & ~b */
  function Without(a: bv32, b: bv32): bv32 {
    And(a, !b)
  }

  /** Every bit of `a` is in `b`. */
  predicate Sub(a: bv32, b: bv32) {
    And(a, b) == a
  }

  predicate Disjoint(a: bv32, b: bv32) {
    And(a, b) == 0
  }

  lemma SubSelf(a: bv32)
    ensures Sub(a, a)
  {
  }

  lemma SubTrans(a: bv32, b: bv32, c: bv32)
    ensures Sub(a, b) && Sub(b, c) ==> Sub(a, c)
  {
  }

  lemma MeetsMore(a: bv32, few: bv32, many: bv32)
    ensures Sub(few, many) && Disjoint(a, many) ==> Disjoint(a, few)
  {
  }

  lemma AndSub(a: bv32, b: bv32)
    ensures Sub(And(a, b), a) && Sub(And(a, b), b)
  {
  }

  lemma AndCommutes(a: bv32, b: bv32)
    ensures And(a, b) == And(b, a)
  {
  }

  lemma WithoutSub(a: bv32, b: bv32)
    ensures Sub(Without(a, b), a)
  {
    hide And, Sub;
    AndSub(a, !b);
  }

  /** Bits taken out of a word are in no part of what is left. */
  lemma WithoutGone(a: bv32, b: bv32, part: bv32)
    ensures Sub(part, Without(a, b)) ==> Disjoint(b, part)
  {
  }

  lemma WithoutRestored(a: bv32, b: bv32)
    ensures Sub(b, a) ==> Or(Without(a, b), b) == a
  {
  }

  lemma OrNothing(a: bv32)
    ensures Or(a, 0) == a
  {
  }

  lemma NothingSub(a: bv32)
    ensures Sub(0, a)
  {
  }

  lemma OrSub(a: bv32, b: bv32, c: bv32)
    ensures Sub(a, c) && Sub(b, c) ==> Sub(Or(a, b), c)
  {
  }

  /** Taking bits out leaves none of them, and the others as they were. */
  lemma WithoutExactly(a: bv32, b: bv32)
    ensures Disjoint(Without(a, b), b) && Without(Without(a, b), b) == Without(a, b)
  {
  }

  lemma WithoutTwice(a: bv32, b: bv32, c: bv32)
    ensures Without(Without(a, b), c) == Without(a, Or(b, c))
  {
  }

  lemma WithoutNothing(a: bv32)
    ensures Without(a, 0) == a
  {
  }

  lemma WithoutMeet(a: bv32, b: bv32)
    ensures Without(a, And(a, b)) == Without(a, b)
  {
  }

  lemma ApartMeet(a: bv32, b: bv32)
    ensures Disjoint(a, b) ==> Sub(And(a, b), 0)
  {
  }

  /** What `g` shares with `x` is new if `x` consists of bits that share only new ones with `g`, and of new ones. */
  lemma SharesNew(g: bv32, b: bv32, n: bv32, x: bv32, s: bv32)
    ensures Sub(And(g, b), s) && Sub(x, Or(b, n)) ==> Sub(And(g, x), Or(s, n))
  {
  }
}
