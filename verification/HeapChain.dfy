/**
 The item chain of the small-memory heap as a value: the blocks met by following `next` from offset 0,
 heap_end excluded, and what allocation, release and shrinking do to that sequence.
 */
module HeapChain {
  import opened Bytes

  const HEADER := 12    // SIZEOF_STRUCT_MEM on a 32-bit target
  const MIN_SIZE := 12  // MIN_SIZE_ALIGNED

  datatype Block = Block(off: nat, next: nat, used: bool)

  /** MEM_SIZE: the payload bytes of a block. */
  function Cap(x: Block): int {
    x.next - x.off - HEADER
  }

  predicate Fits(x: Block, n: nat) {
    !x.used && Cap(x) >= n
  }

  ghost predicate Joined(b: seq<Block>, i: nat)
    requires i < |b|
  {
    && Aligned(b[i].off) && Aligned(b[i].next)
    && b[i].off + HEADER <= b[i].next
    && (i + 1 < |b| ==> b[i].next == b[i + 1].off)
  }

  /** The blocks cover [lo, hi) without gap or overlap, in increasing order. */
  ghost predicate Tiles(b: seq<Block>, lo: nat, hi: nat) {
    && |b| > 0 && b[0].off == lo && b[|b| - 1].next == hi
    && forall i :: 0 <= i < |b| ==> Joined(b, i)
  }

  ghost predicate Divided(b: seq<Block>, i: nat)
    requires i + 1 < |b|
  {
    b[i].used || b[i + 1].used
  }

  /** No two neighbours are both free, leaving out the neighbourhood of block `but`. */
  ghost predicate SettledBut(b: seq<Block>, but: int) {
    forall i :: 0 <= i < |b| - 1 && i != but && i + 1 != but ==> Divided(b, i)
  }

  ghost predicate Settled(b: seq<Block>) {
    SettledBut(b, -1)
  }

  ghost predicate WellFormed(b: seq<Block>, total: nat) {
    Tiles(b, 0, total + HEADER) && Settled(b)
  }

  function FirstFit(b: seq<Block>, n: nat): (k: nat)
    ensures k <= |b| && (k < |b| ==> Fits(b[k], n))
    ensures forall j :: 0 <= j < k ==> !Fits(b[j], n)
  {
    if b == [] || Fits(b[0], n) then 0 else 1 + FirstFit(b[1..], n)
  }

  function FirstFree(b: seq<Block>): (k: nat)
    ensures k <= |b| && (k < |b| ==> !b[k].used)
    ensures forall j :: 0 <= j < k ==> b[j].used
  {
    if b == [] || !b[0].used then 0 else 1 + FirstFree(b[1..])
  }

  /** The offset of block `k`, or of heap_end when `k` is past the last block. */
  function OffAt(b: seq<Block>, k: nat, end: nat): nat {
    if k < |b| then b[k].off else end
  }

  function Span(x: Block): int {
    x.next - x.off
  }

  /** The bytes, headers included, of the blocks lo..hi whose used flag is `used`. */
  function SpanSum(b: seq<Block>, lo: nat, hi: nat, used: bool): int
    requires lo <= hi <= |b|
    decreases hi
  {
    if lo == hi then 0 else SpanSum(b, lo, hi - 1, used) + (if b[hi - 1].used == used then Span(b[hi - 1]) else 0)
  }

  function UsedBytes(b: seq<Block>): int {
    SpanSum(b, 0, |b|, true)
  }

  function FreeBytes(b: seq<Block>): int {
    SpanSum(b, 0, |b|, false)
  }

  /** A used block of `n` payload bytes followed by a free block taking the rest of `x`. */
  function Halves(x: Block, n: nat): seq<Block> {
    [Block(x.off, x.off + HEADER + n, true), Block(x.off + HEADER + n, x.next, false)]
  }

  function Replace(b: seq<Block>, i: nat, j: nat, mid: seq<Block>): seq<Block>
    requires i <= j <= |b|
  {
    b[..i] + mid + b[j..]
  }

  /** Allocation of `n` bytes from free block `i`. */
  function Carve(b: seq<Block>, i: nat, n: nat): seq<Block>
    requires i < |b|
  {
    if Cap(b[i]) >= n + HEADER + MIN_SIZE
    then Replace(b, i, i + 1, Halves(b[i], n))
    else Replace(b, i, i + 1, [b[i].(used := true)])
  }

  function MergeFrom(b: seq<Block>, i: nat): (lo: nat)
    requires i < |b|
    ensures lo <= i
  {
    if i > 0 && !b[i - 1].used then i - 1 else i
  }

  function MergeTo(b: seq<Block>, i: nat): (hi: nat)
    requires i < |b|
    ensures i <= hi < |b|
  {
    if i + 1 < |b| && !b[i + 1].used then i + 1 else i
  }

  /** Free block `i` united with its free neighbours. */
  function Coalesce(b: seq<Block>, i: nat): seq<Block>
    requires i < |b|
  {
    var lo, hi := MergeFrom(b, i), MergeTo(b, i);
    Replace(b, lo, hi + 1, [Block(b[lo].off, b[hi].next, false)])
  }

  function Release(b: seq<Block>, i: nat): seq<Block>
    requires i < |b|
  {
    Coalesce(b[i := b[i].(used := false)], i)
  }

  /** Block `i` cut down to `n` bytes in place. */
  function Shrink(b: seq<Block>, i: nat, n: nat): seq<Block>
    requires i < |b|
  {
    Coalesce(Replace(b, i, i + 1, Halves(b[i], n)), i + 1)
  }

  /** Free blocks `k` and `k + 1` made one. */
  function Unite(b: seq<Block>, k: nat): seq<Block>
    requires k + 1 < |b|
  {
    Replace(b, k, k + 2, [Block(b[k].off, b[k + 1].next, false)])
  }

  lemma FirstFitIs(b: seq<Block>, n: nat, k: nat)
    requires k <= |b| && (k < |b| ==> Fits(b[k], n))
    requires forall j :: 0 <= j < k ==> !Fits(b[j], n)
    ensures FirstFit(b, n) == k
  {
  }

  // ----- order -----

  lemma {:induction false} Ordered(b: seq<Block>, lo: nat, hi: nat, i: nat, j: nat)
    requires Tiles(b, lo, hi)
    requires i < j < |b|
    ensures b[i].next <= b[j].off
    decreases j
  {
    assert Joined(b, i);
    if i + 1 < j {
      Ordered(b, lo, hi, i, j - 1);
      assert Joined(b, j - 1);
    }
  }

  lemma Within(b: seq<Block>, lo: nat, hi: nat, i: nat)
    requires Tiles(b, lo, hi)
    requires i < |b|
    ensures lo <= b[i].off && b[i].off + HEADER <= b[i].next <= hi
  {
    assert Joined(b, i);
    if i > 0 {
      assert Joined(b, 0);
      Ordered(b, lo, hi, 0, i);
    }
    if i < |b| - 1 {
      assert Joined(b, |b| - 1);
      Ordered(b, lo, hi, i, |b| - 1);
    }
  }

  /** A block outside the run i..j lies wholly before or wholly after it. */
  lemma Apart(b: seq<Block>, lo: nat, hi: nat, i: nat, j: nat, k: nat)
    requires Tiles(b, lo, hi)
    requires i < j <= |b| && k < |b| && !(i <= k < j)
    ensures b[i].off + HEADER <= b[j - 1].next
    ensures b[k].off + HEADER <= b[k].next
    ensures if k < i then b[k].next <= b[i].off
            else b[j - 1].next <= b[k].off && (j < k ==> b[j - 1].next + HEADER <= b[k].off)
  {
    assert Joined(b, i) && Joined(b, j - 1) && Joined(b, k);
    if i < j - 1 {
      Ordered(b, lo, hi, i, j - 1);
    }
    if k < i {
      Ordered(b, lo, hi, k, i);
    } else if j < k {
      assert Joined(b, j);
      Ordered(b, lo, hi, j, k);
    }
  }

  /** Offsets determine blocks. */
  lemma OffsetsDistinct(b: seq<Block>, lo: nat, hi: nat, i: nat, j: nat)
    requires Tiles(b, lo, hi)
    requires i < |b| && j < |b| && b[i].off == b[j].off
    ensures i == j
  {
    assert Joined(b, i) && Joined(b, j);
    if i < j {
      Ordered(b, lo, hi, i, j);
    } else if j < i {
      Ordered(b, lo, hi, j, i);
    }
  }

  // ----- replacing a run of blocks by another one over the same bytes -----

  lemma TilesReplace(b: seq<Block>, lo: nat, hi: nat, i: nat, j: nat, mid: seq<Block>)
    requires Tiles(b, lo, hi)
    requires i < j <= |b| && Tiles(mid, b[i].off, b[j - 1].next)
    ensures Tiles(Replace(b, i, j, mid), lo, hi)
  {
    var r := Replace(b, i, j, mid);
    forall k | 0 <= k < |r|
      ensures Joined(r, k)
    {
      if k < i {
        assert Joined(b, k);
      } else if k < i + |mid| {
        assert Joined(mid, k - i);
        assert Joined(b, j - 1);
      } else {
        assert Joined(b, k - i - |mid| + j);
      }
    }
    assert j < |b| ==> r[|r| - 1] == b[|b| - 1];
  }

  lemma {:induction false} SumShift(b: seq<Block>, lo: nat, hi: nat, c: seq<Block>, lo': nat, hi': nat)
    requires lo <= hi <= |b| && lo' <= hi' <= |c| && hi - lo == hi' - lo'
    requires forall k :: lo <= k < hi ==> b[k] == c[k - lo + lo']
    ensures SpanSum(b, lo, hi, true) == SpanSum(c, lo', hi', true)
    decreases hi
  {
    if lo < hi {
      SumShift(b, lo, hi - 1, c, lo', hi' - 1);
    }
  }

  lemma {:induction false} SumSplit(b: seq<Block>, lo: nat, mid: nat, hi: nat)
    requires lo <= mid <= hi <= |b|
    ensures SpanSum(b, lo, hi, true) == SpanSum(b, lo, mid, true) + SpanSum(b, mid, hi, true)
    decreases hi
  {
    if mid < hi {
      SumSplit(b, lo, mid, hi - 1);
    }
  }

  lemma SumOne(b: seq<Block>, i: nat)
    requires i < |b|
    ensures SpanSum(b, i, i + 1, true) == if b[i].used then Span(b[i]) else 0
  {
  }

  lemma SumTwo(b: seq<Block>, i: nat)
    requires i + 1 < |b|
    ensures SpanSum(b, i, i + 2, true) == SpanSum(b, i, i + 1, true) + SpanSum(b, i + 1, i + 2, true)
  {
  }

  lemma {:induction false} SumFree(b: seq<Block>, lo: nat, hi: nat)
    requires lo <= hi <= |b|
    requires forall k :: lo <= k < hi ==> !b[k].used
    ensures SpanSum(b, lo, hi, true) == 0
    decreases hi
  {
    if lo < hi {
      SumFree(b, lo, hi - 1);
    }
  }

  lemma UsedReplace(b: seq<Block>, i: nat, j: nat, mid: seq<Block>, r: seq<Block>)
    requires i <= j <= |b| && r == Replace(b, i, j, mid)
    ensures UsedBytes(r) == UsedBytes(b) - SpanSum(b, i, j, true) + UsedBytes(mid)
  {
    var j' := i + |mid|;
    SumSplit(b, 0, i, |b|);
    SumSplit(b, i, j, |b|);
    SumSplit(r, 0, i, |r|);
    SumSplit(r, i, j', |r|);
    SumShift(r, 0, i, b, 0, i);
    SumShift(r, i, j', mid, 0, |mid|);
    SumShift(r, j', |r|, b, j, |b|);
  }

  /** Used and free spans together are the whole region, headers included. */
  lemma Conservation(b: seq<Block>, lo: nat, hi: nat)
    requires Tiles(b, lo, hi)
    ensures UsedBytes(b) + FreeBytes(b) == hi - lo
  {
    ConservedTo(b, lo, hi, |b|);
  }

  lemma {:induction false} ConservedTo(b: seq<Block>, lo: nat, hi: nat, k: nat)
    requires Tiles(b, lo, hi) && 0 < k <= |b|
    ensures SpanSum(b, 0, k, true) + SpanSum(b, 0, k, false) == b[k - 1].next - lo
    decreases k
  {
    if k > 1 {
      ConservedTo(b, lo, hi, k - 1);
      assert Joined(b, k - 2);
    }
  }

  lemma {:induction false} UsedNonNegative(b: seq<Block>, lo: nat, hi: nat, k: nat)
    requires Tiles(b, lo, hi) && k <= |b|
    ensures 0 <= SpanSum(b, 0, k, true)
    ensures forall i :: 0 <= i < k && b[i].used ==> Span(b[i]) <= SpanSum(b, 0, k, true)
    decreases k
  {
    if k > 0 {
      assert Joined(b, k - 1);
      UsedNonNegative(b, lo, hi, k - 1);
    }
  }

  lemma FirstFreeIs(b: seq<Block>, k: nat)
    requires k <= |b| && (k < |b| ==> !b[k].used)
    requires forall j :: 0 <= j < k ==> b[j].used
    ensures FirstFree(b) == k
  {
  }

  /** After block `i` is freed the lowest free item is the lower of it and the old one. */
  lemma FreedFirstFree(b: seq<Block>, lo: nat, hi: nat, i: nat)
    requires Tiles(b, lo, hi) && i < |b| && b[i].used
    ensures var f := b[i := b[i].(used := false)];
            var before := OffAt(b, FirstFree(b), hi);
            OffAt(f, FirstFree(f), hi) == if b[i].off < before then b[i].off else before
  {
    var f := b[i := b[i].(used := false)];
    var k := FirstFree(b);
    if k < i {
      FirstFreeIs(f, k);
      Ordered(b, lo, hi, k, i);
      assert Joined(b, k);
    } else {
      FirstFreeIs(f, i);
      Within(b, lo, hi, i);
      if k < |b| {
        Ordered(b, lo, hi, i, k);
      }
    }
  }

  /** Cutting used block `i` adds a free item at `mem2`; the lowest free item is the lower of it and the old one. */
  lemma CutFirstFree(b: seq<Block>, lo: nat, hi: nat, i: nat, n: nat)
    requires Tiles(b, lo, hi) && i < |b| && b[i].used && n + HEADER <= Cap(b[i])
    ensures var r := Replace(b, i, i + 1, Halves(b[i], n));
            var mem2 := b[i].off + HEADER + n;
            var before := OffAt(b, FirstFree(b), hi);
            OffAt(r, FirstFree(r), hi) == if mem2 < before then mem2 else before
  {
    var r := Replace(b, i, i + 1, Halves(b[i], n));
    var k := FirstFree(b);
    assert forall j :: 0 <= j < i ==> r[j] == b[j];
    assert r[i].used && !r[i + 1].used && r[i + 1].off == b[i].off + HEADER + n;
    if k < i {
      FirstFreeIs(r, k);
      Ordered(b, lo, hi, k, i);
      assert Joined(b, k);
    } else {
      FirstFreeIs(r, i + 1);
      Within(b, lo, hi, i);
      if k < |b| {
        Ordered(b, lo, hi, i, k);
      }
    }
  }

  /** Past `hi - HEADER - n` no block is large enough: the early end of the search loses nothing. */
  lemma NoFitBeyond(b: seq<Block>, total: nat, n: nat, k: nat)
    requires Tiles(b, 0, total + HEADER) && n <= total && k <= |b|
    requires OffAt(b, k, total + HEADER) > total - n
    ensures forall j :: k <= j < |b| ==> !Fits(b[j], n)
  {
    forall j | k <= j < |b|
      ensures !Fits(b[j], n)
    {
      Within(b, 0, total + HEADER, j);
      if k < j {
        Ordered(b, 0, total + HEADER, k, j);
        assert Joined(b, k);
      }
    }
  }

  /** No free block lies below `lfree`. */
  lemma FirstFreeBelow(b: seq<Block>, lo: nat, hi: nat, k: nat)
    requires Tiles(b, lo, hi) && k < |b| && !b[k].used
    ensures FirstFree(b) <= k && OffAt(b, FirstFree(b), hi) <= b[k].off
  {
    var f := FirstFree(b);
    if f < k {
      Ordered(b, lo, hi, f, k);
      assert Joined(b, f);
    }
  }

  // ----- what each operation keeps -----

  lemma HalvesTile(x: Block, n: nat)
    requires Joined([x], 0) && Aligned(n) && Cap(x) >= n + HEADER
    ensures Tiles(Halves(x, n), x.off, x.next)
  {
    AlignedSum(x.off, HEADER);
    AlignedSum(x.off + HEADER, n);
    assert Joined(Halves(x, n), 0) && Joined(Halves(x, n), 1);
  }

  lemma CarveTiles(b: seq<Block>, lo: nat, hi: nat, i: nat, n: nat)
    requires Tiles(b, lo, hi)
    requires i < |b| && Fits(b[i], n) && Aligned(n)
    ensures Tiles(Carve(b, i, n), lo, hi)
  {
    assert Joined(b, i);
    assert Joined([b[i]], 0);
    if Cap(b[i]) >= n + HEADER + MIN_SIZE {
      HalvesTile(b[i], n);
      TilesReplace(b, lo, hi, i, i + 1, Halves(b[i], n));
    } else {
      assert Joined([b[i].(used := true)], 0);
      TilesReplace(b, lo, hi, i, i + 1, [b[i].(used := true)]);
    }
  }

  /** A split seen as two steps: insert a free item, then mark the first half used. */
  lemma CarveInSteps(b: seq<Block>, lo: nat, hi: nat, k: nat, n: nat)
    requires Tiles(b, lo, hi) && k < |b| && Fits(b[k], n) && Aligned(n)
    requires Cap(b[k]) >= n + HEADER + MIN_SIZE
    ensures var x, y := Block(b[k].off, b[k].off + HEADER + n, false), Block(b[k].off + HEADER + n, b[k].next, false);
            var c := Replace(b, k, k + 1, [x, y]);
            Tiles([x, y], b[k].off, b[k].next) && c[k] == x && c[k := x.(used := true)] == Carve(b, k, n)
  {
    assert Joined(b, k);
    assert Joined([b[k]], 0);
    HalvesTile(b[k], n);
    var x, y := Block(b[k].off, b[k].off + HEADER + n, false), Block(b[k].off + HEADER + n, b[k].next, false);
    assert Joined(Halves(b[k], n), 0) && Joined(Halves(b[k], n), 1);
    assert Joined([x, y], 0) && Joined([x, y], 1);
  }

  lemma SplitAligned(b: seq<Block>, lo: nat, hi: nat, k: nat, n: nat)
    requires Tiles(b, lo, hi) && k < |b| && Aligned(n)
    ensures Aligned(b[k].off + HEADER + n)
  {
    assert Joined(b, k);
    AlignedSum(b[k].off, HEADER);
    AlignedSum(b[k].off + HEADER, n);
  }

  lemma CarveSettles(b: seq<Block>, i: nat, n: nat)
    requires Settled(b) && i < |b| && !b[i].used
    ensures Settled(Carve(b, i, n))
  {
    var r := Carve(b, i, n);
    var d := |r| - |b|;
    assert r[i].used;
    assert forall k :: 0 <= k < i ==> r[k] == b[k];
    assert forall k :: i + d < k < |r| ==> r[k] == b[k - d];
    forall k | 0 <= k < |r| - 1
      ensures Divided(r, k)
    {
      if k + 1 < i {
        assert Divided(b, k);
      } else if k >= i + d {
        assert Divided(b, k - d);
      }
    }
  }

  /** The lowest free item moves only when the carved block was it, and then moves up. */
  lemma CarveFirstFree(b: seq<Block>, lo: nat, hi: nat, k: nat, n: nat)
    requires Tiles(b, lo, hi) && k < |b| && Fits(b[k], n) && Aligned(n)
    ensures FirstFree(b) < k ==>
              b[FirstFree(b)].off < b[k].off && OffAt(Carve(b, k, n), FirstFree(Carve(b, k, n)), hi) == b[FirstFree(b)].off
    ensures FirstFree(b) >= k ==>
              FirstFree(b) == k && forall j :: 0 <= j <= k ==> Carve(b, k, n)[j].used
  {
    var r, f := Carve(b, k, n), FirstFree(b);
    assert forall j :: 0 <= j < k ==> r[j] == b[j];
    if f < k {
      FirstFreeIs(r, f);
      Ordered(b, lo, hi, f, k);
      assert Joined(b, f);
    }
  }

  /** Allocation keeps the chain well formed and takes exactly the new block's span. */
  lemma CarveKeeps(b: seq<Block>, total: nat, i: nat, n: nat)
    requires WellFormed(b, total)
    requires i < |b| && Fits(b[i], n) && Aligned(n)
    ensures WellFormed(Carve(b, i, n), total)
    ensures i < |Carve(b, i, n)|
    ensures Carve(b, i, n)[i].used && Carve(b, i, n)[i].off == b[i].off
    ensures n <= Cap(Carve(b, i, n)[i]) < n + HEADER + MIN_SIZE
    ensures UsedBytes(Carve(b, i, n)) == UsedBytes(b) + Span(Carve(b, i, n)[i])
  {
    CarveTiles(b, 0, total + HEADER, i, n);
    CarveSettles(b, i, n);
    var mid := if Cap(b[i]) >= n + HEADER + MIN_SIZE then Halves(b[i], n) else [b[i].(used := true)];
    UsedReplace(b, i, i + 1, mid, Carve(b, i, n));
    SumOne(b, i);
    SumOne(mid, 0);
    if |mid| == 2 {
      SumTwo(mid, 0);
      SumOne(mid, 1);
    }
  }

  lemma CoalesceTiles(b: seq<Block>, lo: nat, hi: nat, i: nat)
    requires Tiles(b, lo, hi) && i < |b|
    ensures Tiles(Coalesce(b, i), lo, hi)
  {
    var first, last := MergeFrom(b, i), MergeTo(b, i);
    assert Joined(b, first) && Joined(b, i) && Joined(b, last);
    var x := Block(b[first].off, b[last].next, false);
    assert Joined([x], 0);
    TilesReplace(b, lo, hi, first, last + 1, [x]);
  }

  lemma CoalesceSettles(b: seq<Block>, i: nat)
    requires i < |b| && !b[i].used && SettledBut(b, i)
    ensures Settled(Coalesce(b, i))
  {
    var lo, hi := MergeFrom(b, i), MergeTo(b, i);
    var r := Coalesce(b, i);
    assert forall k :: 0 <= k < lo ==> r[k] == b[k];
    assert forall k :: lo < k < |r| ==> r[k] == b[k + hi - lo];
    forall k | 0 <= k < |r| - 1
      ensures Divided(r, k)
    {
      if k + 1 < i && k < lo {
        assert Divided(b, k);
      } else if k + hi - lo > i {
        assert Divided(b, k + hi - lo);
      }
    }
  }

  lemma CoalesceUsed(b: seq<Block>, i: nat)
    requires i < |b| && !b[i].used
    ensures UsedBytes(Coalesce(b, i)) == UsedBytes(b)
  {
    var lo, hi := MergeFrom(b, i), MergeTo(b, i);
    UsedReplace(b, lo, hi + 1, [Block(b[lo].off, b[hi].next, false)], Coalesce(b, i));
    SumOne([Block(b[lo].off, b[hi].next, false)], 0);
    SumFree(b, lo, hi + 1);
  }

  /** Uniting a freed block with its free neighbours settles the chain and keeps the accounting. */
  lemma CoalesceKeeps(b: seq<Block>, total: nat, i: nat)
    requires Tiles(b, 0, total + HEADER) && i < |b| && !b[i].used && SettledBut(b, i)
    ensures WellFormed(Coalesce(b, i), total)
    ensures UsedBytes(Coalesce(b, i)) == UsedBytes(b)
  {
    CoalesceTiles(b, 0, total + HEADER, i);
    CoalesceSettles(b, i);
    CoalesceUsed(b, i);
  }

  lemma FreedTiles(b: seq<Block>, total: nat, i: nat)
    requires WellFormed(b, total) && i < |b| && b[i].used
    ensures Tiles(b[i := b[i].(used := false)], 0, total + HEADER)
    ensures SettledBut(b[i := b[i].(used := false)], i)
    ensures UsedBytes(b[i := b[i].(used := false)]) == UsedBytes(b) - Span(b[i]) >= 0
  {
    UsedNonNegative(b, 0, total + HEADER, |b|);
    var x := b[i].(used := false);
    var r := b[i := x];
    assert r == Replace(b, i, i + 1, [x]);
    assert Joined(b, i);
    assert Joined([x], 0);
    TilesReplace(b, 0, total + HEADER, i, i + 1, [x]);
    UsedReplace(b, i, i + 1, [x], r);
    SumOne(b, i);
    SumOne([x], 0);
    forall k | 0 <= k < |r| - 1 && k != i && k + 1 != i
      ensures Divided(r, k)
    {
      assert Divided(b, k);
    }
  }

  /** Release keeps the chain well formed and returns exactly the block's span. */
  lemma ReleaseKeeps(b: seq<Block>, total: nat, i: nat)
    requires WellFormed(b, total) && i < |b| && b[i].used
    ensures WellFormed(Release(b, i), total)
    ensures UsedBytes(Release(b, i)) == UsedBytes(b) - Span(b[i])
  {
    FreedTiles(b, total, i);
    CoalesceKeeps(b[i := b[i].(used := false)], total, i);
  }

  lemma CutTiles(b: seq<Block>, total: nat, i: nat, n: nat)
    requires WellFormed(b, total) && i < |b| && b[i].used
    requires Aligned(n) && n + HEADER <= Cap(b[i])
    ensures Tiles(Replace(b, i, i + 1, Halves(b[i], n)), 0, total + HEADER)
    ensures SettledBut(Replace(b, i, i + 1, Halves(b[i], n)), i + 1)
    ensures UsedBytes(Replace(b, i, i + 1, Halves(b[i], n))) == UsedBytes(b) - (Cap(b[i]) - n) >= 0
  {
    UsedNonNegative(b, 0, total + HEADER, |b|);
    var mid := Halves(b[i], n);
    var r := Replace(b, i, i + 1, mid);
    assert Joined(b, i);
    assert Joined([b[i]], 0);
    HalvesTile(b[i], n);
    TilesReplace(b, 0, total + HEADER, i, i + 1, mid);
    UsedReplace(b, i, i + 1, mid, r);
    SumOne(b, i);
    SumTwo(mid, 0);
    SumOne(mid, 0);
    SumOne(mid, 1);
    forall k | 0 <= k < |r| - 1 && k != i + 1 && k + 1 != i + 1
      ensures Divided(r, k)
    {
      if k < i {
        assert Divided(b, k);
      } else {
        assert Divided(b, k - 1);
      }
    }
  }

  /** Shrinking keeps the chain well formed and returns exactly the bytes cut off. */
  lemma ShrinkKeeps(b: seq<Block>, total: nat, i: nat, n: nat)
    requires WellFormed(b, total) && i < |b| && b[i].used
    requires Aligned(n) && n + HEADER <= Cap(b[i])
    ensures WellFormed(Shrink(b, i, n), total)
    ensures UsedBytes(Shrink(b, i, n)) == UsedBytes(b) - (Cap(b[i]) - n)
  {
    CutTiles(b, total, i, n);
    CoalesceKeeps(Replace(b, i, i + 1, Halves(b[i], n)), total, i + 1);
  }

  // ----- plug_holes in its two steps -----

  lemma UniteKeeps(b: seq<Block>, lo: nat, hi: nat, k: nat)
    requires Tiles(b, lo, hi) && k + 1 < |b| && !b[k].used && !b[k + 1].used
    ensures Tiles([Block(b[k].off, b[k + 1].next, false)], b[k].off, b[k + 1].next)
    ensures Tiles(Unite(b, k), lo, hi)
    ensures UsedBytes(Unite(b, k)) == UsedBytes(b)
    ensures OffAt(Unite(b, k), FirstFree(Unite(b, k)), hi) == OffAt(b, FirstFree(b), hi)
    ensures forall x :: x in b && x.used ==> x in Unite(b, k)
  {
    var x := Block(b[k].off, b[k + 1].next, false);
    assert Joined(b, k) && Joined(b, k + 1);
    assert Joined([x], 0);
    TilesReplace(b, lo, hi, k, k + 2, [x]);
    UsedReplace(b, k, k + 2, [x], Unite(b, k));
    SumOne([x], 0);
    SumFree(b, k, k + 2);
    UniteFirstFree(b, k);
    UniteLive(b, k);
  }

  lemma UniteFirstFree(b: seq<Block>, k: nat)
    requires k + 1 < |b| && !b[k].used && !b[k + 1].used
    ensures FirstFree(Unite(b, k)) == FirstFree(b) <= k
    ensures Unite(b, k)[FirstFree(b)].off == b[FirstFree(b)].off
  {
    var r := Unite(b, k);
    assert forall j :: 0 <= j < k ==> r[j] == b[j];
    FirstFreeIs(r, FirstFree(b));
  }

  lemma UniteLive(b: seq<Block>, k: nat)
    requires k + 1 < |b| && !b[k].used && !b[k + 1].used
    ensures forall x :: x in b && x.used ==> x in Unite(b, k)
  {
  }

  lemma CoalesceInSteps(b: seq<Block>, i: nat)
    requires i < |b| && !b[i].used
    ensures var forward := if i + 1 < |b| && !b[i + 1].used then Unite(b, i) else b;
            Coalesce(b, i) == if i > 0 && !b[i - 1].used then Unite(forward, i - 1) else forward
  {
    if i + 1 < |b| && !b[i + 1].used {
      var f := Unite(b, i);
      assert f[..i] == b[..i] && f[i + 1..] == b[i + 2..];
      if i > 0 && !b[i - 1].used {
        assert f[..i - 1] == b[..i - 1];
      }
    } else {
      assert b == Replace(b, i, i + 1, [b[i]]);
    }
  }

  // ----- round trips -----

  /** Freeing a just-allocated block restores the exact chain, hence `lfree` and `used` too. */
  lemma ReleaseUndoesCarve(b: seq<Block>, total: nat, i: nat, n: nat)
    requires WellFormed(b, total)
    requires i < |b| && Fits(b[i], n) && Aligned(n)
    ensures Release(Carve(b, i, n), i) == b
  {
    assert Joined(b, i);
    assert i > 0 ==> Divided(b, i - 1);
    assert i + 1 < |b| ==> Divided(b, i);
    if Cap(b[i]) >= n + HEADER + MIN_SIZE {
      MergeBack(b, i, Halves(b[i], n), Carve(b, i, n));
    } else {
      MergeBack(b, i, [b[i].(used := true)], Carve(b, i, n));
    }
  }

  lemma RestoreAt(b: seq<Block>, i: nat, f: seq<Block>, d: nat)
    requires i < |b| && |f| == |b| + d
    requires f[..i] == b[..i] && f[i + d + 1..] == b[i + 1..]
    ensures Replace(f, i, i + d + 1, [b[i]]) == b
  {
    assert b == b[..i] + [b[i]] + b[i + 1..];
  }

  lemma MergeBack(b: seq<Block>, i: nat, mid: seq<Block>, c: seq<Block>)
    requires i < |b| && !b[i].used
    requires (i > 0 ==> b[i - 1].used) && (i + 1 < |b| ==> b[i + 1].used)
    requires 1 <= |mid| <= 2 && mid[0].off == b[i].off && mid[|mid| - 1].next == b[i].next
    requires |mid| == 2 ==> !mid[1].used
    requires c == Replace(b, i, i + 1, mid)
    ensures Release(c, i) == b
  {
    var f := c[i := c[i].(used := false)];
    var d := |mid| - 1;
    assert |f| == |b| + d;
    assert f[i + d].next == b[i].next && f[i].off == b[i].off;
    assert i > 0 ==> f[i - 1] == b[i - 1];
    assert i + 1 < |b| ==> f[i + d + 1] == b[i + 1];
    assert MergeFrom(f, i) == i;
    assert MergeTo(f, i) == i + d;
    RestoreAt(b, i, f, d);
  }

  /** Allocation leaves every live block as it was, apart from the new one. */
  lemma CarveLive(b: seq<Block>, total: nat, k: nat, n: nat)
    requires WellFormed(b, total) && k < |b| && Fits(b[k], n) && Aligned(n)
    ensures forall x :: x in b && x.used ==> x in Carve(b, k, n) && x.off in Live(Carve(b, k, n)) && x.off != b[k].off
    ensures forall x :: x in Carve(b, k, n) && x.used && x.off != b[k].off ==> x in b
  {
    var c := Carve(b, k, n);
    var d := |c| - |b|;
    forall x | x in b && x.used
      ensures x in c && x.off in Live(c) && x.off != b[k].off
    {
      var j :| 0 <= j < |b| && b[j] == x;
      assert c[if j < k then j else j + d] == x;
      if x.off == b[k].off {
        OffsetsDistinct(b, 0, total + HEADER, j, k);
      }
    }
    forall x | x in c && x.used && x.off != b[k].off
      ensures x in b
    {
      var j :| 0 <= j < |c| && c[j] == x;
      assert b[if j < k then j else j - d] == x;
    }
  }

  function Live(b: seq<Block>): set<nat> {
    set i | 0 <= i < |b| && b[i].used :: b[i].off
  }

  /** The used block whose header is at `o`. */
  function Find(b: seq<Block>, o: nat): (i: nat)
    requires o in Live(b)
    ensures i < |b| && b[i].used && b[i].off == o
  {
    if b[0].used && b[0].off == o then 0 else
      (assert o in Live(b[1..]) by { var i :| 0 <= i < |b| && b[i].used && b[i].off == o; assert b[1..][i - 1] == b[i]; }
       1 + Find(b[1..], o))
  }

  lemma FindIs(b: seq<Block>, lo: nat, hi: nat, x: Block)
    requires Tiles(b, lo, hi) && x in b && x.used
    ensures x.off in Live(b) && b[Find(b, x.off)] == x
  {
    var j :| 0 <= j < |b| && b[j] == x;
    assert x.off in Live(b);
    OffsetsDistinct(b, lo, hi, j, Find(b, x.off));
  }

  /** Release ends the life of its own block and of no other. */
  lemma ReleaseLive(b: seq<Block>, total: nat, i: nat)
    requires WellFormed(b, total) && i < |b| && b[i].used
    ensures Live(Release(b, i)) == Live(b) - {b[i].off}
  {
    var f := b[i := b[i].(used := false)];
    var lo, hi := MergeFrom(f, i), MergeTo(f, i);
    var r := Release(b, i);
    forall o | o in Live(b) - {b[i].off}
      ensures o in Live(r)
    {
      var k :| 0 <= k < |b| && b[k].used && b[k].off == o;
      assert k < lo || k > hi;
      assert r[if k < lo then k else k - hi + lo] == b[k];
    }
    forall o | o in Live(r)
      ensures o in Live(b) - {b[i].off}
    {
      var k :| 0 <= k < |r| && r[k].used && r[k].off == o;
      var k' := if k < lo then k else k + hi - lo;
      assert r[k] == b[k'];
      if o == b[i].off {
        OffsetsDistinct(b, 0, total + HEADER, k', i);
      }
    }
  }

  /** The chain after releasing the blocks at the listed offsets, one after the other. */
  function ReleaseAll(b: seq<Block>, total: nat, order: seq<nat>): seq<Block>
    requires WellFormed(b, total)
    requires forall k :: 0 <= k < |order| ==> order[k] in Live(b) && order[k] !in order[..k]
    decreases |order|
  {
    if order == [] then b else
      var i := Find(b, order[0]);
      ReleaseKeeps(b, total, i);
      ReleaseLive(b, total, i);
      assert forall k :: 0 <= k < |order[1..]| ==> order[1..][k] == order[k + 1] && order[1..][..k] == order[1..k + 1];
      ReleaseAll(Release(b, i), total, order[1..])
  }

  lemma SomeLive(b: seq<Block>)
    requires Settled(b) && |b| > 1
    ensures exists o :: o in Live(b)
  {
    assert Divided(b, 0);
    assert (if b[0].used then b[0].off else b[1].off) in Live(b);
  }

  /** Freeing every live block, in any order, leaves one free block over the whole region. */
  lemma {:induction false} ReleaseAllRestores(b: seq<Block>, total: nat, order: seq<nat>)
    requires WellFormed(b, total)
    requires forall k :: 0 <= k < |order| ==> order[k] in Live(b) && order[k] !in order[..k]
    requires forall o :: o in Live(b) ==> o in order
    ensures ReleaseAll(b, total, order) == [Block(0, total + HEADER, false)]
    decreases |order|
  {
    if order == [] {
      assert forall k :: 0 <= k < |b| && b[k].used ==> b[k].off in Live(b);
      if |b| > 1 {
        SomeLive(b);
      }
    } else {
      var i := Find(b, order[0]);
      ReleaseKeeps(b, total, i);
      ReleaseLive(b, total, i);
      assert forall k :: 0 <= k < |order[1..]| ==> order[1..][k] == order[k + 1] && order[1..][..k] == order[1..k + 1];
      ReleaseAllRestores(Release(b, i), total, order[1..]);
    }
  }
}
