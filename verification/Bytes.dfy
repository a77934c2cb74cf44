/** Memory as bytes, with the 32-bit little-endian words the kernel stores in it. */
module Bytes {
  const WORD_LIMIT := 0x1_0000_0000

  type byte = x: int | 0 <= x < 256
  type u32 = x: int | 0 <= x < WORD_LIMIT

  datatype Option<+T> = None | Some(value: T)

  /** RT_ALIGN(size, 4) in 32-bit arithmetic: adding 3 may wrap. */
  function Align(size: u32): (r: u32)
    ensures Aligned(r)
  {
    (size + 3) % WORD_LIMIT / 4 * 4
  }

  /** RT_ALIGN_DOWN(x, 4). */
  function AlignDown(x: nat): nat {
    x / 4 * 4
  }

  function Min(a: int, b: int): int {
    if a < b then a else b
  }

  function Max(a: int, b: int): int {
    if a < b then b else a
  }

  predicate Aligned(n: int) {
    n % 4 == 0
  }

  lemma AlignedSum(a: int, b: int)
    requires Aligned(a) && Aligned(b)
    ensures Aligned(a + b)
  {
  }

  lemma AlignAgain(size: u32)
    ensures Align(Align(size)) == Align(size)
  {
    var a := Align(size);
    assert a <= 0xFFFF_FFFC && (a + 3) % WORD_LIMIT == a + 3;
  }

  /** RT_ALIGN rounds up to the next multiple of four exactly when it does not wrap. */
  lemma AlignRoundsUp(size: u32)
    ensures size <= Align(size) < size + 4 <==> size <= 0xFFFF_FFFC
    ensures Align(size) == 0 <==> size == 0 || size > 0xFFFF_FFFC
  {
  }

  lemma NonNegative(a: nat, b: nat)
    ensures 0 <= a * b
  {
  }

  lemma DivFacts(a: nat, d: nat)
    requires d > 0
    ensures a / d >= 1 <==> a >= d
    ensures a / d * d <= a
  {
  }

  lemma NextMultiple(a: nat, d: nat)
    requires d > 0
    ensures a < (a / d + 1) * d
  {
    assert a == d * (a / d) + a % d;
  }

  function Combine(b0: byte, b1: byte, b2: byte, b3: byte): u32 {
    (b0 as int) + 0x100 * (b1 as int) + 0x1_0000 * (b2 as int) + 0x100_0000 * (b3 as int)
  }

  /** The word stored at offset `o`. */
  function Word(m: seq<byte>, o: nat): u32
    requires o + 4 <= |m|
  {
    Combine(m[o], m[o + 1], m[o + 2], m[o + 3])
  }

  function Low0(v: u32): byte { v % 256 }

  function Low1(v: u32): byte { v / 256 % 256 }

  function Low2(v: u32): byte { v / 256 / 256 % 256 }

  function Low3(v: u32): byte { v / 256 / 256 / 256 }

  /** The memory after storing word `v` at offset `o`. */
  function Put(m: seq<byte>, o: nat, v: u32): (r: seq<byte>)
    requires o + 4 <= |m|
    ensures |r| == |m|
    ensures forall k :: 0 <= k < |m| && !(o <= k < o + 4) ==> r[k] == m[k]
  {
    m[o := Low0(v)][o + 1 := Low1(v)][o + 2 := Low2(v)][o + 3 := Low3(v)]
  }

  lemma SplitWord(v: u32)
    ensures v == Combine(Low0(v), Low1(v), Low2(v), Low3(v))
  {
    var q1 := v / 256;
    var q2 := q1 / 256;
    var q3 := q2 / 256;
    Positional(v % 256, q1 % 256, q2 % 256, q3, v, q1, q2);
  }

  lemma Positional(b0: byte, b1: byte, b2: byte, b3: int, v: u32, q1: int, q2: int)
    requires v == 256 * q1 + b0 && q1 == 256 * q2 + b1 && q2 == 256 * b3 + b2
    ensures 0 <= b3 < 256
    ensures v == Combine(b0, b1, b2, b3)
  {
  }

  /** Reading back a stored word yields it; every disjoint word is untouched. */
  lemma PutWord(m: seq<byte>, o: nat, v: u32)
    requires o + 4 <= |m|
    ensures Word(Put(m, o, v), o) == v
    ensures forall p: nat {:trigger Word(Put(m, o, v), p)} ::
              p + 4 <= |m| && (p + 4 <= o || o + 4 <= p) ==> Word(Put(m, o, v), p) == Word(m, p)
  {
    SplitWord(v);
  }

  /** Two memories that agree on four bytes agree on the word they form. */
  lemma SameWord(m: seq<byte>, m': seq<byte>, o: nat)
    requires o + 4 <= |m| == |m'|
    requires forall k :: o <= k < o + 4 ==> m[k] == m'[k]
    ensures Word(m, o) == Word(m', o)
  {
  }

  method Load(a: array<byte>, o: nat) returns (v: u32)
    requires o + 4 <= a.Length
    ensures v == Word(a[..], o)
  {
    v := Combine(a[o], a[o + 1], a[o + 2], a[o + 3]);
  }

  method Store(a: array<byte>, o: nat, v: u32)
    requires o + 4 <= a.Length
    modifies a
    ensures a[..] == Put(old(a[..]), o, v)
    ensures Word(a[..], o) == v
    ensures forall p: nat {:trigger Word(a[..], p)} ::
              p + 4 <= a.Length && (p + 4 <= o || o + 4 <= p) ==> Word(a[..], p) == old(Word(a[..], p))
    ensures forall k :: 0 <= k < a.Length && !(o <= k < o + 4) ==> a[k] == old(a[k])
  {
    a[o], a[o + 1], a[o + 2], a[o + 3] := Low0(v), Low1(v), Low2(v), Low3(v);
    PutWord(old(a[..]), o, v);
    assert a[..] == Put(old(a[..]), o, v);
  }

  /** The memory after copying `count` bytes from `src` to `dst`. */
  ghost predicate Copied(m: seq<byte>, m': seq<byte>, dst: nat, src: nat, count: nat) {
    && |m'| == |m| && dst + count <= |m| && src + count <= |m|
    && (forall p {:trigger m'[p]} :: dst <= p < dst + count ==> m'[p] == m[p - dst + src])
    && (forall p {:trigger m'[p]} :: 0 <= p < |m| && !(dst <= p < dst + count) ==> m'[p] == m[p])
  }

  lemma CopiedOn(m: seq<byte>, m1: seq<byte>, m2: seq<byte>, dst: nat, src: nat, done: nat, more: nat)
    requires dst + done + more <= src || src + done + more <= dst
    requires Copied(m, m1, dst, src, done) && Copied(m1, m2, dst + done, src + done, more)
    ensures Copied(m, m2, dst, src, done + more)
  {
    forall p | dst <= p < dst + done + more
      ensures m2[p] == m[p - dst + src]
    {
      if dst + done <= p {
        assert m2[p] == m1[p - dst + src];
      } else {
        assert m2[p] == m1[p];
      }
    }
  }

  /** Copies `more` bytes after the `done` already copied. */
  method CopyBytes(ghost m: seq<byte>, a: array<byte>, dst: nat, src: nat, done: nat, more: nat)
    requires dst + done + more <= a.Length && src + done + more <= a.Length
    requires dst + done + more <= src || src + done + more <= dst
    requires Copied(m, a[..], dst, src, done)
    modifies a
    ensures Copied(m, a[..], dst, src, done + more)
  {
    ghost var m1 := a[..];
    for i := 0 to more
      invariant Copied(m1, a[..], dst + done, src + done, i)
    {
      ghost var m2 := a[..];
      assert m2[src + done + i] == m1[src + done + i];
      a[dst + done + i] := a[src + done + i];
      assert a[..] == m2[dst + done + i := m2[src + done + i]];
    }
    CopiedOn(m, m1, a[..], dst, src, done, more);
  }

  /** rt_memcpy on disjoint ranges: sixteen bytes at a time, then words, then the rest. */
  method Memcpy(a: array<byte>, dst: nat, src: nat, count: nat)
    requires dst + count <= a.Length && src + count <= a.Length
    requires dst + count <= src || src + count <= dst
    modifies a
    ensures Copied(old(a[..]), a[..], dst, src, count)
  {
    assert Copied(a[..], a[..], dst, src, 0);
    hide Copied;
    var done := 0;
    if count >= 16 && dst % 4 == 0 && src % 4 == 0 {
      while count - done >= 16
        invariant done <= count && Copied(old(a[..]), a[..], dst, src, done)
      {
        CopyBytes(old(a[..]), a, dst, src, done, 16);
        done := done + 16;
      }
      while count - done >= 4
        invariant done <= count && Copied(old(a[..]), a[..], dst, src, done)
      {
        CopyBytes(old(a[..]), a, dst, src, done, 4);
        done := done + 4;
      }
    }
    CopyBytes(old(a[..]), a, dst, src, done, count - done);
  }
}
