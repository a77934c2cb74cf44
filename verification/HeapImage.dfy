/** How a chain of blocks is laid out in the bytes of the heap region, headers and payload together. */
module HeapImage {
  import opened Bytes
  import opened HeapChain

  ghost predicate HeaderAt(m: seq<byte>, x: Block, prev: nat, tag: u32) {
    && x.off + HEADER <= |m|
    && Word(m, x.off) == tag + (if x.used then 1 else 0)
    && Word(m, x.off + 4) == x.next
    && Word(m, x.off + 8) == prev
  }

  /** The `prev` of the block at position `i`: the first block names itself, at offset 0. */
  function PrevOff(b: seq<Block>, i: nat): nat
    requires i <= |b|
  {
    if i == 0 then 0 else b[i - 1].off
  }

  ghost predicate Shows(m: seq<byte>, b: seq<Block>, i: nat, tag: u32)
    requires i < |b|
  {
    HeaderAt(m, b[i], PrevOff(b, i), tag)
  }

  /**
   Every header is in place: `next` leads to the following block and from the last one to heap_end, `prev`
   inverts it, and each item carries this pool's tag. The `prev` of heap_end is left out: it goes stale.
   */
  ghost predicate Image(m: seq<byte>, b: seq<Block>, total: nat, tag: u32) {
    && |m| == total + 2 * HEADER
    && Tiles(b, 0, total + HEADER)
    && (forall i :: 0 <= i < |b| ==> Shows(m, b, i, tag))
    && Word(m, total + HEADER) == tag + 1
    && Word(m, total + HEADER + 4) == total + HEADER
  }

  /** `m'` differs from `m` only inside [lo, hi) and in the `prev` word of the item at `hi`. */
  ghost predicate OnlyTouches(m: seq<byte>, m': seq<byte>, lo: nat, hi: nat) {
    && |m| == |m'|
    && forall k :: 0 <= k < |m| && !(lo <= k < hi) && !(hi + 8 <= k < hi + HEADER) ==> m'[k] == m[k]
  }

  ghost predicate SamePayload(m: seq<byte>, m': seq<byte>, x: Block) {
    && x.off + HEADER <= x.next <= |m| == |m'|
    && m'[x.off + HEADER..x.next] == m[x.off + HEADER..x.next]
  }

  /** Every live block other than the one at offset `but` keeps its payload. */
  ghost predicate KeepsPayloads(m: seq<byte>, m': seq<byte>, b: seq<Block>, but: int) {
    forall x :: x in b && x.used && x.off != but ==> SamePayload(m, m', x)
  }

  ghost predicate PrevAt(m: seq<byte>, o: nat, prev: nat) {
    o + HEADER <= |m| && Word(m, o + 8) == prev
  }

  ghost predicate ShowsMid(m: seq<byte>, mid: seq<Block>, k: nat, before: nat, tag: u32)
    requires k < |mid|
  {
    HeaderAt(m, mid[k], if k == 0 then before else mid[k - 1].off, tag)
  }

  /**
   Rewriting the headers of blocks i..j as those of `mid`, over the same bytes, and the `prev` of the block
   that follows, turns the image of `b` into the image of the chain with `mid` in their place.
   */
  lemma Splice(m: seq<byte>, m': seq<byte>, b: seq<Block>, i: nat, j: nat, mid: seq<Block>, total: nat, tag: u32)
    requires Image(m, b, total, tag)
    requires i < j <= |b| && Tiles(mid, b[i].off, b[j - 1].next)
    requires OnlyTouches(m, m', b[i].off, b[j - 1].next)
    requires forall k :: 0 <= k < |mid| ==> ShowsMid(m', mid, k, PrevOff(b, i), tag)
    requires j < |b| ==> PrevAt(m', b[j].off, mid[|mid| - 1].off)
    ensures Image(m', Replace(b, i, j, mid), total, tag)
  {
    hide Word;
    TilesReplace(b, 0, total + HEADER, i, j, mid);
    EndKept(m, m', b, i, j, total, tag);
    forall k | 0 <= k < |Replace(b, i, j, mid)|
      ensures Shows(m', Replace(b, i, j, mid), k, tag)
    {
      SpliceShows(m, m', b, i, j, mid, total, tag, k);
    }
  }

  lemma EndKept(m: seq<byte>, m': seq<byte>, b: seq<Block>, i: nat, j: nat, total: nat, tag: u32)
    requires Image(m, b, total, tag) && i < j <= |b|
    requires OnlyTouches(m, m', b[i].off, b[j - 1].next)
    ensures Word(m', total + HEADER) == tag + 1 && Word(m', total + HEADER + 4) == total + HEADER
  {
    hide Word;
    Within(b, 0, total + HEADER, j - 1);
    if j < |b| {
      Within(b, 0, total + HEADER, j);
      assert Joined(b, j - 1);
    }
    SameWord(m, m', total + HEADER);
    SameWord(m, m', total + HEADER + 4);
  }

  lemma SpliceShows(m: seq<byte>, m': seq<byte>, b: seq<Block>, i: nat, j: nat, mid: seq<Block>, total: nat,
                    tag: u32, k: nat)
    requires Image(m, b, total, tag)
    requires i < j <= |b| && |mid| > 0 && k < |Replace(b, i, j, mid)|
    requires OnlyTouches(m, m', b[i].off, b[j - 1].next)
    requires forall k :: 0 <= k < |mid| ==> ShowsMid(m', mid, k, PrevOff(b, i), tag)
    requires j < |b| ==> PrevAt(m', b[j].off, mid[|mid| - 1].off)
    ensures Shows(m', Replace(b, i, j, mid), k, tag)
  {
    hide Word;
    var r := Replace(b, i, j, mid);
    if k < i {
      KeptOutside(m, m', b, i, j, PrevOff(b, k), total, tag, k);
      assert r[k] == b[k] && PrevOff(r, k) == PrevOff(b, k);
    } else if k < i + |mid| {
      assert ShowsMid(m', mid, k - i, PrevOff(b, i), tag);
      assert r[k] == mid[k - i];
    } else {
      var k' := k - i - |mid| + j;
      assert r[k] == b[k'];
      var prev := if k' == j then mid[|mid| - 1].off else PrevOff(b, k');
      assert PrevOff(r, k) == prev;
      KeptOutside(m, m', b, i, j, prev, total, tag, k');
    }
  }

  lemma KeptOutside(m: seq<byte>, m': seq<byte>, b: seq<Block>, i: nat, j: nat, prev: nat, total: nat, tag: u32,
                    k: nat)
    requires Image(m, b, total, tag) && i < j <= |b| && k < |b| && !(i <= k < j)
    requires OnlyTouches(m, m', b[i].off, b[j - 1].next)
    requires if k == j then PrevAt(m', b[k].off, prev) else prev == PrevOff(b, k)
    ensures HeaderAt(m', b[k], prev, tag)
  {
    hide Word;
    assert Shows(m, b, k, tag);
    assert j == k ==> Joined(b, j - 1);
    Apart(b, 0, total + HEADER, i, j, k);
    HeaderKept(m, m', b[i].off, b[j - 1].next, b[k], PrevOff(b, k), tag);
  }

  lemma HeaderKept(m: seq<byte>, m': seq<byte>, lo: nat, hi: nat, x: Block, prev: nat, tag: u32)
    requires OnlyTouches(m, m', lo, hi) && lo + HEADER <= hi
    requires x.off + HEADER <= lo || x.off == hi || hi + HEADER <= x.off
    requires HeaderAt(m, x, prev, tag)
    ensures HeaderAt(m', x, if x.off == hi then Word(m', hi + 8) else prev, tag)
  {
    hide Word;
    SameWord(m, m', x.off);
    SameWord(m, m', x.off + 4);
    if x.off != hi {
      SameWord(m, m', x.off + 8);
    }
  }

  /** Such a rewriting leaves the payload of every block outside i..j alone. */
  lemma SplicePayload(m: seq<byte>, m': seq<byte>, b: seq<Block>, i: nat, j: nat, total: nat, k: nat)
    requires Tiles(b, 0, total + HEADER) && |m| == total + 2 * HEADER
    requires i < j <= |b| && k < |b| && !(i <= k < j)
    requires OnlyTouches(m, m', b[i].off, b[j - 1].next)
    ensures SamePayload(m, m', b[k])
  {
    Apart(b, 0, total + HEADER, i, j, k);
    Within(b, 0, total + HEADER, k);
    if k == j {
      assert Joined(b, j - 1);
    }
  }

  /** When the run i..j holds no live block but the one at `but`, every other live block keeps its payload. */
  lemma SplicePayloads(m: seq<byte>, m': seq<byte>, b: seq<Block>, i: nat, j: nat, total: nat, but: int)
    requires Tiles(b, 0, total + HEADER) && |m| == total + 2 * HEADER
    requires i < j <= |b|
    requires forall k :: i <= k < j ==> !b[k].used || b[k].off == but
    requires OnlyTouches(m, m', b[i].off, b[j - 1].next)
    ensures KeepsPayloads(m, m', b, but)
  {
    forall x | x in b && x.used && x.off != but
      ensures SamePayload(m, m', x)
    {
      var k :| 0 <= k < |b| && b[k] == x;
      SplicePayload(m, m', b, i, j, total, k);
    }
  }

  /** Changing only payload bytes of a live block leaves every header, and every other payload, in place. */
  lemma PayloadWrite(m: seq<byte>, m': seq<byte>, b: seq<Block>, k: nat, total: nat, tag: u32)
    requires Image(m, b, total, tag) && k < |b| && b[k].used
    requires |m'| == |m|
    requires forall p :: 0 <= p < |m| && !(b[k].off + HEADER <= p < b[k].next) ==> m'[p] == m[p]
    ensures Image(m', b, total, tag)
    ensures KeepsPayloads(m, m', b, b[k].off)
  {
    hide Word;
    HeadersKept(m, m', b, k, total, tag);
    assert Joined(b, k) && Joined([b[k]], 0);
    assert Replace(b, k, k + 1, [b[k]]) == b;
    Splice(m, m', b, k, k + 1, [b[k]], total, tag);
    SplicePayloads(m, m', b, k, k + 1, total, b[k].off);
  }

  lemma HeadersKept(m: seq<byte>, m': seq<byte>, b: seq<Block>, k: nat, total: nat, tag: u32)
    requires Image(m, b, total, tag) && k < |b| && |m'| == |m|
    requires forall p :: 0 <= p < |m| && !(b[k].off + HEADER <= p < b[k].next) ==> m'[p] == m[p]
    ensures ShowsMid(m', [b[k]], 0, PrevOff(b, k), tag)
    ensures k + 1 < |b| ==> PrevAt(m', b[k + 1].off, b[k].off)
  {
    hide Word;
    var x := b[k];
    assert Joined(b, k) && Shows(m, b, k, tag);
    SameWord(m, m', x.off);
    SameWord(m, m', x.off + 4);
    SameWord(m, m', x.off + 8);
    if k + 1 < |b| {
      assert Shows(m, b, k + 1, tag);
      SameWord(m, m', b[k + 1].off + 8);
    }
  }

  /** Rewriting only the tag word of block `i` changes only its used flag. */
  lemma MarkImage(m: seq<byte>, m': seq<byte>, b: seq<Block>, i: nat, used: bool, total: nat, tag: u32)
    requires Image(m, b, total, tag) && i < |b|
    requires b[i].off + HEADER <= |m|
    requires |m'| == |m| && Word(m', b[i].off) == tag + (if used then 1 else 0)
    requires forall k :: 0 <= k < |m| && !(b[i].off <= k < b[i].off + 4) ==> m'[k] == m[k]
    ensures Image(m', b[i := b[i].(used := used)], total, tag)
    ensures KeepsPayloads(m, m', b, b[i].off)
  {
    hide Word;
    var x := b[i].(used := used);
    assert Joined(b, i) && Joined([x], 0) && Shows(m, b, i, tag);
    SameWord(m, m', x.off + 4);
    SameWord(m, m', x.off + 8);
    if i + 1 < |b| {
      assert Shows(m, b, i + 1, tag);
      SameWord(m, m', b[i + 1].off + 8);
    }
    assert Replace(b, i, i + 1, [x]) == b[i := x];
    assert ShowsMid(m', [x], 0, PrevOff(b, i), tag);
    Splice(m, m', b, i, i + 1, [x], total, tag);
    SplicePayloads(m, m', b, i, i + 1, total, x.off);
  }

  lemma InitialImage(m: seq<byte>, total: nat, tag: u32)
    requires |m| == total + 2 * HEADER && Aligned(total)
    requires Word(m, 0) == tag && Word(m, 4) == total + HEADER && Word(m, 8) == 0
    requires Word(m, total + HEADER) == tag + 1 && Word(m, total + HEADER + 4) == total + HEADER
    ensures Image(m, [Block(0, total + HEADER, false)], total, tag)
  {
    hide Word;
    var b := [Block(0, total + HEADER, false)];
    AlignedSum(total, HEADER);
    assert Joined(b, 0) && Shows(m, b, 0, tag);
  }

  /** Writes the three header words of the item at `o`. */
  method StoreItem(a: array<byte>, o: nat, pool: u32, next: u32, prev: u32)
    requires o + HEADER <= a.Length
    modifies a
    ensures Word(a[..], o) == pool && Word(a[..], o + 4) == next && Word(a[..], o + 8) == prev
    ensures forall p: nat {:trigger Word(a[..], p)} ::
              p + 4 <= a.Length && (p + 4 <= o || o + HEADER <= p) ==> Word(a[..], p) == old(Word(a[..], p))
    ensures forall k :: 0 <= k < a.Length && !(o <= k < o + HEADER) ==> a[k] == old(a[k])
  {
    hide Word;
    Store(a, o, pool);
    Store(a, o + 4, next);
    Store(a, o + 8, prev);
  }

  /** Takes the item at `second` out of the chain: its tag is cleared, `first` and its successor are linked. */
  method Bypass(a: array<byte>, first: nat, second: nat) returns (next: nat)
    requires first + HEADER <= second && second + HEADER <= a.Length
    requires second + HEADER <= Word(a[..], second + 4) && Word(a[..], second + 4) + HEADER <= a.Length
    modifies a
    ensures next == old(Word(a[..], second + 4))
    ensures OnlyTouches(old(a[..]), a[..], first, next)
    ensures Word(a[..], first) == old(Word(a[..], first)) && Word(a[..], first + 8) == old(Word(a[..], first + 8))
    ensures Word(a[..], first + 4) == next && Word(a[..], next + 8) == first
  {
    hide Word;
    Store(a, second, 0);
    next := Load(a, second + 4);
    Store(a, first + 4, next);
    Store(a, next + 8, first);
  }

  /** Only the `next` of `ptr`, the header at `ptr2` and the `prev` of the item at `next` may change. */
  ghost predicate OnlyInserts(m: seq<byte>, m': seq<byte>, ptr: nat, ptr2: nat, next: nat) {
    && |m'| == |m|
    && forall k {:trigger m'[k]} :: 0 <= k < |m| ==>
         ptr + 4 <= k < ptr + 8 || ptr2 <= k < ptr2 + HEADER || next + 8 <= k < next + HEADER || m'[k] == m[k]
  }

  /** Inserts the free item `ptr2` between `ptr` and its successor, as both alloc and realloc do. */
  method InsertItem(a: array<byte>, ptr: nat, ptr2: nat, tag: u32, end: nat) returns (next: nat)
    requires ptr + HEADER <= ptr2 && ptr2 + HEADER <= end && end + HEADER == a.Length < WORD_LIMIT
    requires ptr2 + HEADER <= Word(a[..], ptr + 4) <= end
    modifies a
    ensures next == old(Word(a[..], ptr + 4))
    ensures Word(a[..], ptr) == old(Word(a[..], ptr)) && Word(a[..], ptr + 8) == old(Word(a[..], ptr + 8))
    ensures Word(a[..], ptr + 4) == ptr2
    ensures Word(a[..], ptr2) == tag && Word(a[..], ptr2 + 4) == next && Word(a[..], ptr2 + 8) == ptr
    ensures next != end ==> Word(a[..], next + 8) == ptr2
    ensures OnlyInserts(old(a[..]), a[..], ptr, ptr2, next)
  {
    hide Word;
    next := Load(a, ptr + 4);
    StoreItem(a, ptr2, tag, next, ptr);
    Store(a, ptr + 4, ptr2);
    if next != end {
      Store(a, next + 8, ptr2);
    }
  }

  /** The memory after InsertItem shows block `i` split in two; the first half keeps its old used flag. */
  lemma SplitImage(m: seq<byte>, m': seq<byte>, b: seq<Block>, i: nat, x: Block, y: Block, total: nat, tag: u32)
    requires Image(m, b, total, tag) && i < |b|
    requires x.off == b[i].off && x.next == y.off && y.next == b[i].next && x.used == b[i].used && !y.used
    requires Tiles([x, y], b[i].off, b[i].next)
    requires HeaderAt(m', x, PrevOff(b, i), tag) && HeaderAt(m', y, x.off, tag)
    requires i + 1 < |b| ==> PrevAt(m', b[i + 1].off, y.off)
    requires OnlyInserts(m, m', x.off, y.off, b[i].next)
    ensures Image(m', Replace(b, i, i + 1, [x, y]), total, tag)
    ensures KeepsPayloads(m, m', b, if b[i].used then b[i].off else -1)
    ensures SamePayload(m, m', x)
  {
    hide Word;
    assert Joined([x, y], 0) && Joined([x, y], 1);
    Within(b, 0, total + HEADER, i);
    assert ShowsMid(m', [x, y], 0, PrevOff(b, i), tag) && ShowsMid(m', [x, y], 1, PrevOff(b, i), tag);
    Splice(m, m', b, i, i + 1, [x, y], total, tag);
    SplicePayloads(m, m', b, i, i + 1, total, if b[i].used then b[i].off else -1);
  }
}
