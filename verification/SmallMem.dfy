/** The small-memory heap: a first-fit allocator whose headers live in the region it hands out. */
module SmallMem {
  import opened Bytes
  import opened HeapChain
  import opened HeapImage

  /** The payload size an allocation asks the chain for. */
  function Request(size: u32): nat {
    if Align(size) < MIN_SIZE then MIN_SIZE else Align(size)
  }

  ghost predicate IsMax(max: nat, history: seq<nat>) {
    max in history && forall h :: h in history ==> h <= max
  }

  lemma HistoryGrows(max: nat, history: seq<nat>, u: nat)
    requires IsMax(max, history)
    ensures IsMax(if max < u then u else max, history + [u])
  {
  }

  /** mem_size_aligned for the region [begin, begin + size) with a control block of `control` bytes at its start. */
  function InitSize(begin: u32, size: u32, control: nat): Option<int> {
    var start := Align(begin) + control;
    var end := AlignDown((begin + size) % WORD_LIMIT);
    if end > 2 * HEADER && end - 2 * HEADER >= start
    then Some(end - Align(start % WORD_LIMIT) - 2 * HEADER)
    else None
  }

  /** Initialisation succeeds exactly when the control block and two items fit, and then stays inside the region. */
  lemma InitFits(begin: u32, size: u32, control: nat)
    requires control > 0 && Aligned(control) && Align(begin) >= begin && Align(begin) + control < WORD_LIMIT
    ensures InitSize(begin, size, control).Some? <==>
              begin + size < WORD_LIMIT && Align(begin) + control + 2 * HEADER <= AlignDown(begin + size)
    ensures InitSize(begin, size, control).Some? ==>
              var total := InitSize(begin, size, control).value;
              total >= 0 && Aligned(total) && total + 2 * HEADER < WORD_LIMIT
              && Align(begin) + control + total + 2 * HEADER == AlignDown(begin + size) <= begin + size
  {
    var start := Align(begin) + control;
    AlignedSum(Align(begin), control);
    AlignedStays(start);
    AlignedDown(begin + size);
    hide Align, AlignDown;
    NoWrap(start);
    if begin + size < WORD_LIMIT {
      NoWrap(begin + size);
    } else {
      WrapsOnce(begin + size);
      AlignedDown(begin + size - WORD_LIMIT);
    }
  }

  lemma WrapsOnce(x: nat)
    requires WORD_LIMIT <= x < 2 * WORD_LIMIT
    ensures x % WORD_LIMIT == x - WORD_LIMIT
  {
  }

  lemma NoWrap(x: nat)
    requires x < WORD_LIMIT
    ensures x % WORD_LIMIT == x
  {
  }

  lemma AlignedDown(x: nat)
    ensures Aligned(AlignDown(x)) && AlignDown(x) <= x
  {
  }

  lemma AlignedStays(x: u32)
    requires Aligned(x)
    ensures Align(x) == x
  {
  }

  /** An allocated block holds the bytes asked for exactly when rounding the size up did not wrap. */
  lemma AllocHolds(b: seq<Block>, total: nat, size: u32)
    requires WellFormed(b, total) && total + 2 * HEADER < WORD_LIMIT && size > 0
    requires FirstFit(b, Request(size)) < |b|
    ensures var k := FirstFit(b, Request(size));
            k < |Carve(b, k, Request(size))|
            && (Cap(Carve(b, k, Request(size))[k]) >= size <==> size <= 0xFFFF_FFFC)
  {
    var k := FirstFit(b, Request(size));
    AlignRoundsUp(size);
    assert Aligned(Request(size));
    CarveKeeps(b, total, k, Request(size));
    Within(Carve(b, k, Request(size)), 0, total + HEADER, k);
  }

  /**
   The search bound mem_size_aligned - size, in 32-bit arithmetic, stops the loop before heap_end exactly when
   mem_size_aligned >= MIN_SIZE_ALIGNED. Below that the guard still holds at heap_end, whose `next` is itself.
   */
  lemma SearchStops(m: seq<byte>, b: seq<Block>, total: nat, tag: u32, size: u32)
    requires Image(m, b, total, tag) && total + 2 * HEADER < WORD_LIMIT && size > 0 && Align(size) <= total
    ensures total + HEADER <= (total - Request(size)) % WORD_LIMIT <==> total < MIN_SIZE
    ensures Word(m, total + HEADER + 4) == total + HEADER && Word(m, total + HEADER) == tag + 1
    ensures total < MIN_SIZE ==> FirstFit(b, Request(size)) == |b|
  {
    hide Word;
    if total < MIN_SIZE {
      forall k | 0 <= k < |b|
        ensures !Fits(b[k], Request(size))
      {
        Within(b, 0, total + HEADER, k);
      }
      FirstFitIs(b, Request(size), |b|);
    }
  }

  class Heap {
    const heap: array<byte>  // heap_ptr[0 .. mem_size_aligned + 2 * SIZEOF_STRUCT_MEM)
    const total: nat         // mem_size_aligned
    const tag: u32           // MEM_FREED(): the address of the control block, its low bit clear
    var lfree: nat           // offset of the lowest free item
    var used: nat
    var max: nat
    ghost var blocks: seq<Block>
    ghost var history: seq<nat>  // every value `used` has had

    ghost predicate Consistent()
      reads this, heap
    {
      && total + 2 * HEADER < WORD_LIMIT && Aligned(total) && tag % 2 == 0
      && Image(heap[..], blocks, total, tag)
      && used == UsedBytes(blocks) && used <= max
      && IsMax(max, history) && history[|history| - 1] == used
    }

    ghost predicate LowestFree()
      reads this
    {
      lfree == OffAt(blocks, FirstFree(blocks), total + HEADER)
    }

    ghost predicate Valid()
      reads this, heap
    {
      Consistent() && Settled(blocks) && LowestFree()
    }

    ghost predicate IsLive(p: nat)
      reads this
    {
      p >= HEADER && p - HEADER in Live(blocks)
    }

    twostate predicate Untouched()
      reads this, heap
    {
      heap[..] == old(heap[..]) && blocks == old(blocks) && lfree == old(lfree) && used == old(used) && max == old(max)
      && history == old(history)
    }

    constructor (region: array<byte>, total: nat, tag: u32)
      requires region.Length == total + 2 * HEADER < WORD_LIMIT
      requires Aligned(total) && tag % 2 == 0
      modifies region
      ensures Valid() && heap == region && this.total == total && this.tag == tag
      ensures blocks == [Block(0, total + HEADER, false)] && used == 0 && max == 0
    {
      hide Word;
      heap, this.total, this.tag := region, total, tag;
      used, max, lfree := 0, 0, 0;
      blocks, history := [Block(0, total + HEADER, false)], [0];
      new;
      StoreItem(heap, 0, tag, total + HEADER, 0);
      StoreItem(heap, total + HEADER, tag + 1, total + HEADER, total + HEADER);
      SumOne(blocks, 0);
      InitialImage(heap[..], total, tag);
    }

    /** The two arms of plug_holes: the item at `second` disappears into its free neighbour at `first`. */
    method UniteItems(first: nat, second: nat, ghost k: nat)
      requires Consistent() && LowestFree()
      requires k + 1 < |blocks| && !blocks[k].used && !blocks[k + 1].used
      requires blocks[k].off == first && blocks[k + 1].off == second
      modifies this`lfree, this`blocks, heap
      ensures Consistent() && LowestFree()
      ensures blocks == Unite(old(blocks), k)
      ensures KeepsPayloads(old(heap[..]), heap[..], old(blocks), -1)
    {
      hide Word;
      ghost var b := blocks;
      ghost var mid := [Block(first, b[k + 1].next, false)];
      UniteKeeps(b, 0, total + HEADER, k);
      FirstFreeBelow(b, 0, total + HEADER, k);
      Within(b, 0, total + HEADER, k + 1);
      assert Joined(b, k) && Joined(b, k + 1);
      assert Shows(heap[..], b, k, tag) && Shows(heap[..], b, k + 1, tag);
      if lfree == second {
        assert false;  // the code would set lfree to `first`, but no free item lies below lfree
      }
      var next := Bypass(heap, first, second);
      assert ShowsMid(heap[..], mid, 0, PrevOff(b, k), tag);
      Splice(old(heap[..]), heap[..], b, k, k + 2, mid, total, tag);
      SplicePayloads(old(heap[..]), heap[..], b, k, k + 2, total, -1);
      blocks := Unite(b, k);
    }


    /** Block `i` has just become free; its neighbours may be free as well. */
    ghost predicate Freed(mem: nat, i: nat)
      reads this, heap
    {
      && Consistent() && LowestFree()
      && i < |blocks| && blocks[i].off == mem && !blocks[i].used && SettledBut(blocks, i)
    }

    method PlugHoles(mem: nat, ghost i: nat)
      requires Freed(mem, i)
      modifies this`lfree, this`blocks, heap
      ensures Valid()
      ensures blocks == Coalesce(old(blocks), i)
      ensures KeepsPayloads(old(heap[..]), heap[..], old(blocks), -1)
    {
      hide Word, Image, UsedBytes, IsMax, FirstFree, KeepsPayloads, Settled;
      ghost var b := blocks;
      CoalesceInSteps(b, i);
      CoalesceSettles(b, i);
      PlugForward(mem, i);
      ghost var m1, b1 := heap[..], blocks;
      PlugBackward(mem, i);
      Follow(old(heap[..]), m1, heap[..], b, b1);
    }

    method PlugForward(mem: nat, ghost i: nat)
      requires Freed(mem, i)
      modifies this`lfree, this`blocks, heap
      ensures Consistent() && LowestFree()
      ensures blocks == if i + 1 < |old(blocks)| && !old(blocks)[i + 1].used then Unite(old(blocks), i) else old(blocks)
      ensures i < |blocks| && blocks[i].off == mem && !blocks[i].used
      ensures i > 0 ==> blocks[i - 1] == old(blocks)[i - 1]
      ensures forall x :: x in old(blocks) && x.used ==> x in blocks
      ensures KeepsPayloads(old(heap[..]), heap[..], old(blocks), -1)
    {
      hide Word, Image, UsedBytes, IsMax, FirstFree, KeepsPayloads;
      Shape();
      PayloadsHere();
      Neighbours(blocks, i);
      var next := Load(heap, mem + 4);
      var pool := Load(heap, next);
      if mem != next && pool % 2 == 0 && next != total + HEADER {
        UniteLive(blocks, i);
        UniteItems(mem, next, i);
      }
    }

    method PlugBackward(mem: nat, ghost i: nat)
      requires Consistent() && LowestFree() && i < |blocks| && blocks[i].off == mem && !blocks[i].used
      modifies this`lfree, this`blocks, heap
      ensures Consistent() && LowestFree()
      ensures blocks == if i > 0 && !old(blocks)[i - 1].used then Unite(old(blocks), i - 1) else old(blocks)
      ensures KeepsPayloads(old(heap[..]), heap[..], old(blocks), -1)
    {
      hide Word, Image, UsedBytes, IsMax, FirstFree, KeepsPayloads;
      Shape();
      PayloadsHere();
      Neighbours(blocks, i);
      var prev := Load(heap, mem + 8);
      var pool := Load(heap, prev);
      if prev != mem && pool % 2 == 0 {
        UniteItems(prev, mem, i - 1);
      }
    }

    lemma Neighbours(b: seq<Block>, i: nat)
      requires Consistent() && b == blocks && i < |b|
      ensures b[i].off + HEADER <= heap.Length && b[i].next + HEADER <= heap.Length
      ensures Word(heap[..], b[i].off + 4) == b[i].next
      ensures Word(heap[..], b[i].off + 8) == PrevOff(b, i)
      ensures b[i].off + HEADER <= b[i].next
      ensures if i + 1 < |b| then b[i].next == b[i + 1].off < total + HEADER else b[i].next == total + HEADER
      ensures Word(heap[..], b[i].next) % 2 == 0 <==> i + 1 < |b| && !b[i + 1].used
      ensures PrevOff(b, i) + HEADER <= heap.Length
      ensures PrevOff(b, i) == b[i].off <==> i == 0
      ensures i > 0 ==> (Word(heap[..], PrevOff(b, i)) % 2 == 0 <==> !b[i - 1].used)
    {
      hide Word;
      var m := heap[..];
      assert Shows(m, b, i, tag);
      Within(b, 0, total + HEADER, i);
      if i + 1 < |b| {
        assert Joined(b, i) && Shows(m, b, i + 1, tag);
        Within(b, 0, total + HEADER, i + 1);
      }
      if i > 0 {
        assert Joined(b, i - 1) && Shows(m, b, i - 1, tag);
      }
    }

    method Free(rmem: Option<nat>)
      requires Valid()
      requires rmem.Some? ==> IsLive(rmem.value)
      modifies this, heap
      ensures Valid() && max == old(max)
      ensures rmem.None? ==> Untouched()
      ensures rmem.Some? ==> blocks == Release(old(blocks), Find(old(blocks), rmem.value - HEADER))
      ensures rmem.Some? ==> KeepsPayloads(old(heap[..]), heap[..], old(blocks), rmem.value - HEADER)
    {
      if rmem.None? {
        return;
      }
      var mem := rmem.value - HEADER;
      ghost var i := Find(blocks, mem);
      Unuse(mem, i);
      ghost var b1, m1 := blocks, heap[..];
      PlugHoles(mem, i);
      FollowFree(old(heap[..]), m1, heap[..], old(blocks), b1, i);
    }

    /** Clears the used bit, lowers `lfree` and takes the span out of `used`. */
    method Unuse(mem: nat, ghost i: nat)
      requires Valid() && i < |blocks| && blocks[i].used && blocks[i].off == mem
      modifies this, heap
      ensures Freed(mem, i) && max == old(max)
      ensures blocks == old(blocks)[i := old(blocks)[i].(used := false)]
      ensures KeepsPayloads(old(heap[..]), heap[..], old(blocks), mem)
    {
      hide Word;
      FreedTiles(blocks, total, i);
      FreedFirstFree(blocks, 0, total + HEADER, i);
      var next := ClearUsed(mem, i);
      if mem < lfree {
        lfree := mem;
      }
      LowerUsed(next - mem);
      blocks := blocks[i := blocks[i].(used := false)];
    }

    method ClearUsed(mem: nat, ghost i: nat) returns (next: nat)
      requires Consistent() && i < |blocks| && blocks[i].used && blocks[i].off == mem
      modifies heap
      ensures next == blocks[i].next > mem
      ensures Image(heap[..], blocks[i := blocks[i].(used := false)], total, tag)
      ensures KeepsPayloads(old(heap[..]), heap[..], blocks, mem)
    {
      hide Word;
      Neighbours(blocks, i);
      assert Shows(heap[..], blocks, i, tag);
      var pool := Load(heap, mem);
      assert pool - pool % 2 == tag && pool % 2 == 1;  // MEM_POOL(mem) is this pool and mem is in use
      Store(heap, mem, tag);
      next := Load(heap, mem + 4);
      MarkImage(old(heap[..]), heap[..], blocks, i, false, total, tag);
    }

    /** The search loop of rt_smem_alloc. */
    method Search(n: nat) returns (found: bool, ptr: nat)
      requires Valid() && n <= total
      ensures found <==> FirstFit(blocks, n) < |blocks|
      ensures found ==> ptr == blocks[FirstFit(blocks, n)].off
    {
      hide Word;
      ptr := lfree;
      ghost var k := FirstFree(blocks);
      while ptr <= total - n
        invariant k <= |blocks| && ptr == OffAt(blocks, k, total + HEADER)
        invariant forall j :: 0 <= j < k ==> !Fits(blocks[j], n)
        decreases |blocks| - k
      {
        Neighbours(blocks, k);
        assert Shows(heap[..], blocks, k, tag);
        var pool := Load(heap, ptr);
        var next := Load(heap, ptr + 4);
        if pool % 2 == 0 && next - (ptr + HEADER) >= n {
          FirstFitIs(blocks, n, k);
          return true, ptr;
        }
        ptr, k := next, k + 1;
      }
      NoFitBeyond(blocks, total, n, k);
      FirstFitIs(blocks, n, |blocks|);
      found := false;
    }

    /** Writes the headers for `n` bytes taken from free block `k`; returns the bytes `used` grows by. */
    method WriteCarve(ptr: nat, n: nat, ghost k: nat) returns (taken: nat)
      requires Consistent() && k < |blocks| && ptr == blocks[k].off && Fits(blocks[k], n) && Aligned(n)
      modifies heap
      ensures Image(heap[..], Carve(blocks, k, n), total, tag)
      ensures taken == Span(Carve(blocks, k, n)[k])
      ensures KeepsPayloads(old(heap[..]), heap[..], blocks, -1)
    {
      hide Word, Image, KeepsPayloads;
      Neighbours(blocks, k);
      var next := Load(heap, ptr + 4);
      if next - (ptr + HEADER) >= n + HEADER + MIN_SIZE {
        WriteSplit(ptr, n, k);
        taken := n + HEADER;
      } else {
        WriteWhole(ptr, n, k);
        taken := next - ptr;
      }
    }

    method WriteSplit(ptr: nat, n: nat, ghost k: nat)
      requires Consistent() && k < |blocks| && ptr == blocks[k].off && Fits(blocks[k], n) && Aligned(n)
      requires Cap(blocks[k]) >= n + HEADER + MIN_SIZE
      modifies heap
      ensures Image(heap[..], Carve(blocks, k, n), total, tag)
      ensures KeepsPayloads(old(heap[..]), heap[..], blocks, -1)
    {
      hide Word, KeepsPayloads;
      CarveInSteps(blocks, 0, total + HEADER, k, n);
      SplitAligned(blocks, 0, total + HEADER, k, n);
      ghost var b1 := SplitFree(ptr, ptr + HEADER + n, k);
      MarkUsed(old(heap[..]), ptr, blocks, b1, k);
    }

    method WriteWhole(ptr: nat, n: nat, ghost k: nat)
      requires Consistent() && k < |blocks| && ptr == blocks[k].off && Fits(blocks[k], n) && Aligned(n)
      requires Cap(blocks[k]) < n + HEADER + MIN_SIZE
      modifies heap
      ensures Image(heap[..], Carve(blocks, k, n), total, tag)
      ensures KeepsPayloads(old(heap[..]), heap[..], blocks, -1)
    {
      hide Word, KeepsPayloads;
      Unmoved(heap[..], blocks, total);
      MarkUsed(old(heap[..]), ptr, blocks, blocks, k);
      assert Carve(blocks, k, n) == blocks[k := blocks[k].(used := true)];
    }

    /** Sets the used bit of block `k` of `b1`, the chain `b` with that block possibly split. */
    method MarkUsed(ghost m: seq<byte>, ptr: nat, ghost b: seq<Block>, ghost b1: seq<Block>, ghost k: nat)
      requires Image(heap[..], b1, total, tag) && tag + 1 < WORD_LIMIT
      requires k < |b| <= |b1| && b1[..k] == b[..k] && b1[k + |b1| - |b| + 1..] == b[k + 1..]
      requires !b1[k].used && !b[k].used && b1[k].off == ptr
      requires KeepsPayloads(m, heap[..], b, -1)
      modifies heap
      ensures Image(heap[..], b1[k := b1[k].(used := true)], total, tag)
      ensures KeepsPayloads(m, heap[..], b, -1)
    {
      hide Word;
      Within(b1, 0, total + HEADER, k);
      Store(heap, ptr, tag + 1);
      MarkImage(old(heap[..]), heap[..], b1, k, true, total, tag);
      FollowMark(m, old(heap[..]), heap[..], b, b1, k, total);
    }

    method SplitFree(ptr: nat, ptr2: nat, ghost k: nat) returns (ghost b1: seq<Block>)
      requires Consistent() && k < |blocks| && ptr == blocks[k].off && !blocks[k].used
      requires ptr + HEADER <= ptr2 && ptr2 + HEADER + MIN_SIZE <= blocks[k].next && Aligned(ptr2)
      modifies heap
      ensures b1 == Replace(blocks, k, k + 1, [Block(ptr, ptr2, false), Block(ptr2, blocks[k].next, false)])
      ensures Image(heap[..], b1, total, tag)
      ensures KeepsPayloads(old(heap[..]), heap[..], blocks, -1)
    {
      hide Word;
      ghost var b := blocks;
      Neighbours(b, k);
      Within(b, 0, total + HEADER, k);
      assert Shows(heap[..], b, k, tag);
      ghost var x, y := Block(ptr, ptr2, false), Block(ptr2, b[k].next, false);
      var next := InsertItem(heap, ptr, ptr2, tag, total + HEADER);
      assert Joined(b, k);
      assert Joined([x, y], 0) && Joined([x, y], 1);
      SplitImage(old(heap[..]), heap[..], b, k, x, y, total, tag);
      b1 := Replace(b, k, k + 1, [x, y]);
    }

    /** The accounting of an allocation. */
    method Occupy(ptr: nat, n: nat, ghost k: nat)
      requires Consistent() && Settled(blocks)
      requires k < |blocks| && ptr == blocks[k].off && Fits(blocks[k], n) && Aligned(n)
      modifies this`used, this`max, this`blocks, this`history, heap
      ensures Consistent() && Settled(blocks) && blocks == Carve(old(blocks), k, n)
      ensures max == if old(max) < used then used else old(max)
      ensures KeepsPayloads(old(heap[..]), heap[..], old(blocks), -1)
    {
      CarveKeeps(blocks, total, k, n);
      var taken := WriteCarve(ptr, n, k);
      used := used + taken;
      HistoryGrows(max, history, used);
      history := history + [used];
      if max < used {
        max := used;
      }
      blocks := Carve(blocks, k, n);
    }

    /** Moves `lfree`, when the block just taken was the lowest free one, to the next free item. */
    method AdvanceFree(ptr: nat, ghost k: nat)
      requires Consistent() && k < |blocks| && blocks[k].off == ptr && blocks[k].used
      requires lfree == ptr ==> forall j :: 0 <= j <= k ==> blocks[j].used
      requires lfree != ptr ==> LowestFree()
      modifies this`lfree
      ensures LowestFree()
    {
      hide Word;
      if ptr == lfree {
        ghost var j := k;
        while true
          invariant j <= |blocks| && lfree == OffAt(blocks, j, total + HEADER)
          invariant forall i :: 0 <= i < j ==> blocks[i].used
          decreases |blocks| - j
        {
          if j < |blocks| {
            Neighbours(blocks, j);
            assert Shows(heap[..], blocks, j, tag);
          }
          var pool := Load(heap, lfree);
          if !(pool % 2 == 1 && lfree != total + HEADER) {
            break;
          }
          lfree := Load(heap, lfree + 4);
          j := j + 1;
        }
        FirstFreeIs(blocks, j);
      }
    }

    method Alloc(size: u32) returns (r: Option<nat>)
      requires Valid()
      requires total >= MIN_SIZE || Align(size) > total || size == 0
      modifies this, heap
      ensures Valid()
      ensures r.None? <==> size == 0 || Align(size) > total || FirstFit(old(blocks), Request(size)) == |old(blocks)|
      ensures r.None? ==> Untouched()
      ensures r.Some? ==>
                var k := FirstFit(old(blocks), Request(size));
                r.value == old(blocks)[k].off + HEADER && blocks == Carve(old(blocks), k, Request(size))
      ensures max == if old(max) < used then used else old(max)
      ensures KeepsPayloads(old(heap[..]), heap[..], old(blocks), -1)
    {
      PayloadsHere();
      if size == 0 {
        return None;
      }
      var n := Align(size);
      if n > total {
        return None;
      }
      if n < MIN_SIZE {
        n := MIN_SIZE;
      }
      var found, ptr := Search(n);
      if !found {
        return None;
      }
      TakeBlock(ptr, n, FirstFit(blocks, n));
      r := Some(ptr + HEADER);
    }

    method TakeBlock(ptr: nat, n: nat, ghost k: nat)
      requires Valid() && k < |blocks| && ptr == blocks[k].off && Fits(blocks[k], n) && Aligned(n)
      modifies this, heap
      ensures Valid() && blocks == Carve(old(blocks), k, n)
      ensures max == if old(max) < used then used else old(max)
      ensures KeepsPayloads(old(heap[..]), heap[..], old(blocks), -1)
    {
      hide Word, KeepsPayloads, Image, UsedBytes, IsMax, Settled;
      Shape();
      CarveFirstFree(blocks, 0, total + HEADER, k, n);
      CarveKeeps(blocks, total, k, n);
      Occupy(ptr, n, k);
      AdvanceFree(ptr, k);
    }

    lemma PayloadsHere()
      requires Consistent()
      ensures KeepsPayloads(heap[..], heap[..], blocks, -1)
    {
      Unmoved(heap[..], blocks, total);
    }

    /** The owner of a live block may write any byte of its payload: headers and other payloads are out of reach. */
    method Write(p: nat, at: nat, v: byte)
      requires Valid() && IsLive(p)
      requires p + at < blocks[Find(blocks, p - HEADER)].next
      modifies heap
      ensures Valid() && p + at < heap.Length && heap[p + at] == v
      ensures KeepsPayloads(old(heap[..]), heap[..], blocks, p - HEADER)
    {
      hide Word;
      ghost var i := Find(blocks, p - HEADER);
      Within(blocks, 0, total + HEADER, i);
      heap[p + at] := v;
      PayloadWrite(old(heap[..]), heap[..], blocks, i, total, tag);
    }

    /** The split arm of rt_smem_realloc. */
    method CutBlock(mem: nat, n: nat, ghost i: nat)
      requires Valid() && i < |blocks| && blocks[i].used && blocks[i].off == mem
      requires Aligned(n) && n + HEADER + MIN_SIZE < Cap(blocks[i])
      modifies this, heap
      ensures Valid() && blocks == Shrink(old(blocks), i, n) && max == old(max)
      ensures KeepsPayloads(old(heap[..]), heap[..], old(blocks), mem)
      ensures SamePayload(old(heap[..]), heap[..], Block(mem, mem + HEADER + n, true))
    {
      hide Word, KeepsPayloads, SamePayload, Image;
      CutOff(mem, n, i);
      ghost var m1, b1 := heap[..], blocks;
      PlugHoles(mem + HEADER + n, i + 1);
      FollowCut(old(heap[..]), m1, heap[..], old(blocks), b1, i, n);
    }

    method CutOff(mem: nat, n: nat, ghost i: nat)
      requires Valid() && i < |blocks| && blocks[i].used && blocks[i].off == mem
      requires Aligned(n) && n + HEADER + MIN_SIZE < Cap(blocks[i])
      modifies this, heap
      ensures Freed(mem + HEADER + n, i + 1) && max == old(max)
      ensures blocks == Replace(old(blocks), i, i + 1, Halves(old(blocks)[i], n))
      ensures KeepsPayloads(old(heap[..]), heap[..], old(blocks), mem)
      ensures SamePayload(old(heap[..]), heap[..], Block(mem, mem + HEADER + n, true))
    {
      hide Word, Image, KeepsPayloads, SamePayload, UsedBytes, FirstFree, IsMax;
      Shape();
      Neighbours(blocks, i);
      CutTiles(blocks, total, i, n);
      CutFirstFree(blocks, 0, total + HEADER, i, n);
      SplitAligned(blocks, 0, total + HEADER, i, n);
      var mem2 := mem + HEADER + n;
      var next := Load(heap, mem + 4);
      WriteCut(mem, mem2, i);
      LowerUsed(next - mem2);
      if mem2 < lfree {
        lfree := mem2;
      }
      blocks := Replace(blocks, i, i + 1, Halves(blocks[i], n));
    }

    method LowerUsed(bytes: nat)
      requires bytes <= used <= max && IsMax(max, history)
      modifies this`used, this`history
      ensures used == old(used) - bytes && IsMax(max, history) && history[|history| - 1] == used
    {
      used := used - bytes;
      HistoryGrows(max, history, used);
      history := history + [used];
    }

    method WriteCut(mem: nat, mem2: nat, ghost i: nat)
      requires Consistent() && i < |blocks| && blocks[i].used && blocks[i].off == mem
      requires mem + HEADER <= mem2 && mem2 + HEADER + MIN_SIZE <= blocks[i].next && Aligned(mem2)
      modifies heap
      ensures Image(heap[..], Replace(blocks, i, i + 1, Halves(blocks[i], mem2 - mem - HEADER)), total, tag)
      ensures KeepsPayloads(old(heap[..]), heap[..], blocks, mem)
      ensures SamePayload(old(heap[..]), heap[..], Block(mem, mem2, true))
    {
      hide Word;
      Neighbours(blocks, i);
      Within(blocks, 0, total + HEADER, i);
      assert Shows(heap[..], blocks, i, tag);
      ghost var x, y := Block(mem, mem2, true), Block(mem2, blocks[i].next, false);
      var next := InsertItem(heap, mem, mem2, tag, total + HEADER);
      assert Joined(blocks, i);
      assert Joined([x, y], 0) && Joined([x, y], 1);
      SplitImage(old(heap[..]), heap[..], blocks, i, x, y, total, tag);
    }

    /** The arm of rt_smem_realloc that allocates, copies and frees. */
    method Move(mem: nat, n: u32, ghost i: nat) returns (r: Option<nat>)
      requires Valid() && i < |blocks| && blocks[i].used && blocks[i].off == mem
      requires 0 < n <= total && Align(n) == n && total >= MIN_SIZE
      modifies this, heap
      ensures Valid()
      ensures r.None? <==> FirstFit(old(blocks), Request(n)) == |old(blocks)|
      ensures r.None? ==> Untouched()
      ensures r.Some? ==>
                var k := FirstFit(old(blocks), Request(n));
                var c := Carve(old(blocks), k, Request(n));
                r.value == old(blocks)[k].off + HEADER && mem in Live(c) && blocks == Release(c, Find(c, mem))
      ensures r.Some? ==> Carried(old(heap[..]), heap[..], mem + HEADER, r.value, Min(Cap(old(blocks)[i]), n))
      ensures KeepsPayloads(old(heap[..]), heap[..], old(blocks), mem)
    {
      hide Word, Image, Settled, KeepsPayloads, Carve, Release, Live, FirstFree, UsedBytes, IsMax, Carried;
      ghost var b := blocks;
      Shape();
      Neighbours(b, i);
      PayloadsHere();
      PayloadsBut(b, mem);
      var next := Load(heap, mem + 4);
      r := Alloc(n);
      if r.Some? {
        assert Aligned(Request(n));
        CopyOver(old(heap[..]), mem, r.value, Min(next - mem - HEADER, n), b, i, FirstFit(b, Request(n)), Request(n));
      }
    }

    lemma Shape()
      requires Consistent()
      ensures Tiles(blocks, 0, total + HEADER) && heap.Length == total + 2 * HEADER
    {
    }

    lemma PayloadsBut(b: seq<Block>, mem: int)
      requires KeepsPayloads(heap[..], heap[..], b, -1)
      ensures KeepsPayloads(heap[..], heap[..], b, mem)
    {
    }

    /** Copies the first `len` bytes of the block at `mem` to the new block at `p`, then frees the old one. */
    method CopyOver(ghost m: seq<byte>, mem: nat, p: nat, len: nat, ghost b: seq<Block>, ghost i: nat, ghost k: nat,
                    ghost want: nat)
      requires Valid() && WellFormed(b, total) && i < |b| && b[i].used && b[i].off == mem
      requires k < |b| && Fits(b[k], want) && Aligned(want) && blocks == Carve(b, k, want) && p == b[k].off + HEADER
      requires len <= Cap(b[i]) && len <= want
      requires KeepsPayloads(m, heap[..], b, -1)
      modifies this, heap
      ensures Valid()
      ensures mem in Live(Carve(b, k, want)) && blocks == Release(Carve(b, k, want), Find(Carve(b, k, want), mem))
      ensures Carried(m, heap[..], mem + HEADER, p, len)
      ensures KeepsPayloads(m, heap[..], b, mem)
    {
      hide Word, Image, Settled, KeepsPayloads, Carve, Release, Live, FirstFree, UsedBytes, IsMax, Carried, Copied;
      ghost var c, m1 := blocks, heap[..];
      CarveLive(b, total, k, want);
      CarveKeeps(b, total, k, want);
      FindIs(c, 0, total + HEADER, b[i]);
      Fill(p, mem + HEADER, len, k, Find(c, mem));
      ghost var m2 := heap[..];
      Free(Some(mem + HEADER));
      FollowMove(m, m1, m2, heap[..], b, c, i, k, len);
    }

    /** Copies `len` payload bytes of live block `j` into live block `k`. */
    method Fill(dst: nat, src: nat, len: nat, ghost k: nat, ghost j: nat)
      requires Valid() && k < |blocks| && j < |blocks| && k != j && blocks[k].used
      requires dst == blocks[k].off + HEADER && src == blocks[j].off + HEADER
      requires len <= Cap(blocks[k]) && len <= Cap(blocks[j])
      modifies heap
      ensures Valid()
      ensures Copied(old(heap[..]), heap[..], dst, src, len)
      ensures KeepsPayloads(old(heap[..]), heap[..], blocks, blocks[k].off)
    {
      hide Word;
      Within(blocks, 0, total + HEADER, k);
      Within(blocks, 0, total + HEADER, j);
      Apart(blocks, 0, total + HEADER, k, k + 1, j);
      Memcpy(heap, dst, src, len);
      PayloadWrite(old(heap[..]), heap[..], blocks, k, total, tag);
    }

    method Realloc(rmem: Option<nat>, newsize: u32) returns (r: Option<nat>)
      requires Valid()
      requires rmem.Some? ==> IsLive(rmem.value)
      requires total >= MIN_SIZE || Align(newsize) > total || Align(newsize) == 0
      modifies this, heap
      ensures Valid()
      ensures r.None? && Align(newsize) != 0 ==> Untouched()
      ensures Reallocated(old(blocks), total, rmem, Align(newsize), r, blocks)
      ensures DataKept(old(heap[..]), heap[..], old(blocks), rmem, Align(newsize), r)
      ensures KeepsPayloads(old(heap[..]), heap[..], old(blocks), if rmem.Some? then rmem.value - HEADER else -1)
    {
      hide Word, Image, Settled, KeepsPayloads, Carve, Release, Live, FirstFree, UsedBytes, IsMax, Resized;
      AlignAgain(newsize);
      PayloadsHere();
      PayloadsBut(blocks, if rmem.Some? then rmem.value - HEADER else -1);
      var n := Align(newsize);
      if n > total {
        return None;
      } else if n == 0 {
        Free(rmem);
        return None;
      }
      if rmem.None? {
        r := Alloc(n);
      } else {
        r := Resize(rmem.value - HEADER, n);
      }
    }

    /** The part of rt_smem_realloc for a block and a size that are both there. */
    method Resize(mem: nat, n: u32) returns (r: Option<nat>)
      requires Valid() && mem in Live(blocks)
      requires 0 < n <= total && Align(n) == n && total >= MIN_SIZE
      modifies this, heap
      ensures Valid()
      ensures r.None? ==> Untouched()
      ensures Resized(old(blocks), mem, n, r, blocks)
      ensures DataKept(old(heap[..]), heap[..], old(blocks), Some(mem + HEADER), n, r)
      ensures KeepsPayloads(old(heap[..]), heap[..], old(blocks), mem)
    {
      hide Word, Image, Settled, KeepsPayloads, Carve, Release, Shrink, Live, FirstFree, UsedBytes, IsMax, Carried, SamePayload;
      Shape();
      ghost var i := Find(blocks, mem);
      Within(blocks, 0, total + HEADER, i);
      Neighbours(blocks, i);
      PayloadsHere();
      PayloadsBut(blocks, mem);
      var next := Load(heap, mem + 4);
      var size := next - mem - HEADER;
      if size == n {
        CarriedHere(heap[..], mem + HEADER, n);
        r := Some(mem + HEADER);
      } else if n + HEADER + MIN_SIZE < size {
        CutBlock(mem, n, i);
        CarriedPrefix(old(heap[..]), heap[..], mem, n);
        r := Some(mem + HEADER);
      } else {
        r := Move(mem, n, i);
      }
    }
  }

  /** Allocating and freeing again leaves the chain, `lfree` and `used` exactly as they were. */
  method AllocThenFree(h: Heap, size: u32) returns (r: Option<nat>)
    requires h.Valid() && h.total >= MIN_SIZE
    modifies h, h.heap
    ensures h.Valid() && h.blocks == old(h.blocks) && h.lfree == old(h.lfree) && h.used == old(h.used)
    ensures KeepsPayloads(old(h.heap[..]), h.heap[..], h.blocks, -1)
  {
    hide Word, Image;
    h.Shape();
    ghost var b := h.blocks;
    r := h.Alloc(size);
    if r.Some? {
      ghost var k, n, m1 := FirstFit(b, Request(size)), Request(size), h.heap[..];
      assert Aligned(n);
      CarveKeeps(b, h.total, k, n);
      CarveLive(b, h.total, k, n);
      ghost var c := h.blocks;
      FindIs(c, 0, h.total + HEADER, c[k]);
      OffsetsDistinct(c, 0, h.total + HEADER, k, Find(c, c[k].off));
      ReleaseUndoesCarve(b, h.total, k, n);
      h.Free(r);
      FollowPair(old(h.heap[..]), m1, h.heap[..], b, c, b[k].off);
    }
  }

  lemma FollowPair(m: seq<byte>, m1: seq<byte>, m2: seq<byte>, b: seq<Block>, c: seq<Block>, off: nat)
    requires forall x :: x in b && x.used ==> x in c && x.off != off
    requires KeepsPayloads(m, m1, b, -1) && KeepsPayloads(m1, m2, c, off)
    ensures KeepsPayloads(m, m2, b, -1)
  {
  }

  /** What reallocating the live block at `mem` to `n > 0` bytes does to the chain. */
  ghost predicate Resized(b: seq<Block>, mem: nat, n: nat, r: Option<nat>, b': seq<Block>)
    requires mem in Live(b)
  {
    var i := Find(b, mem);
    var want := if n < MIN_SIZE then MIN_SIZE else n;
    var k := FirstFit(b, want);
    if Cap(b[i]) == n then
      r == Some(mem + HEADER) && b' == b
    else if n + HEADER + MIN_SIZE < Cap(b[i]) then
      r == Some(mem + HEADER) && b' == Shrink(b, i, n)
    else if k == |b| then
      r == None && b' == b
    else
      var c := Carve(b, k, want);
      r == Some(b[k].off + HEADER) && mem in Live(c) && b' == Release(c, Find(c, mem))
  }

  /** What rt_smem_realloc does to the chain, `n` being the aligned new size. */
  ghost predicate Reallocated(b: seq<Block>, total: nat, rmem: Option<nat>, n: nat, r: Option<nat>, b': seq<Block>)
    requires rmem.Some? ==> rmem.value >= HEADER && rmem.value - HEADER in Live(b)
  {
    if n > total then
      r == None && b' == b
    else if n == 0 then
      r == None && b' == if rmem.Some? then Release(b, Find(b, rmem.value - HEADER)) else b
    else if rmem.Some? then
      Resized(b, rmem.value - HEADER, n, r, b')
    else
      var want := if n < MIN_SIZE then MIN_SIZE else n;
      var k := FirstFit(b, want);
      if k == |b| then r == None && b' == b else r == Some(b[k].off + HEADER) && b' == Carve(b, k, want)
  }

  /**
   For a nonzero size, a NULL result means that nothing changed unless a block was given and rounding its new size up
   wrapped to 0: then that block was freed.
   */
  lemma NullResult(b: seq<Block>, total: nat, rmem: Option<nat>, newsize: u32, b': seq<Block>)
    requires WellFormed(b, total) && (rmem.Some? ==> rmem.value >= HEADER && rmem.value - HEADER in Live(b))
    requires newsize > 0 && Reallocated(b, total, rmem, Align(newsize), None, b')
    ensures b' != b <==> rmem.Some? && newsize > 0xFFFF_FFFC
  {
    hide Release, Resized, Carve;
    AlignRoundsUp(newsize);
    hide Align;
    if Align(newsize) == 0 {
      if rmem.Some? {
        ReleaseLive(b, total, Find(b, rmem.value - HEADER));
      }
    } else if rmem.Some? && Align(newsize) <= total {
      ResizedNull(b, rmem.value - HEADER, Align(newsize), b');
    }
  }

  /** Whether block `x` stays where it is at a new size of `n` bytes, and when that is refused. */
  ghost predicate Stays(b: seq<Block>, x: Block, n: nat, r: Option<nat>, b': seq<Block>) {
    && (r == Some(x.off + HEADER) <==> n == Cap(x) || n + HEADER + MIN_SIZE < Cap(x))
    && (r == Some(x.off + HEADER) ==> Block(x.off, x.off + HEADER + n, true) in b')
    && (r == None <==> n != Cap(x) && n + HEADER + MIN_SIZE >= Cap(x) && forall y :: y in b && !y.used ==> Cap(y) < n || Cap(y) < MIN_SIZE)
  }

  /**
   Reallocation to `n` bytes, rounded up and not 0, never moves or refuses a block that it can cut or that has that size
   already, and leaves it exactly `n` bytes; any other block it moves, or refuses exactly if no free block is large enough.
   */
  lemma StaysExactly(b: seq<Block>, total: nat, p: nat, n: nat, r: Option<nat>, b': seq<Block>)
    requires WellFormed(b, total) && p >= HEADER && p - HEADER in Live(b) && 0 < n <= total
    requires Reallocated(b, total, Some(p), n, r, b')
    ensures Stays(b, b[Find(b, p - HEADER)], n, r, b')
  {
    hide Carve, Release, Tiles, Settled, Live, Shrink;
    var i := Find(b, p - HEADER);
    if n == Cap(b[i]) {
      assert b[i] in b;
    } else if n + HEADER + MIN_SIZE < Cap(b[i]) {
      ShrinkHas(b, i, n);
    } else {
      var k := FirstFit(b, if n < MIN_SIZE then MIN_SIZE else n);
      if k < |b| {
        assert b[k] in b && k != i;
        if b[k].off == b[i].off {
          OffsetsDistinct(b, 0, total + HEADER, k, i);
        }
      }
    }
  }

  lemma ShrinkHas(b: seq<Block>, i: nat, n: nat)
    requires i < |b| && b[i].used
    ensures Block(b[i].off, b[i].off + HEADER + n, true) in Shrink(b, i, n)
  {
    var c := Replace(b, i, i + 1, Halves(b[i], n));
    assert c[i] == Halves(b[i], n)[0] && c[i + 1] == Halves(b[i], n)[1];
    assert Coalesce(c, i + 1)[i] == c[i];
  }

  lemma ResizedNull(b: seq<Block>, mem: nat, n: nat, b': seq<Block>)
    requires mem in Live(b) && Resized(b, mem, n, None, b')
    ensures b' == b
  {
    hide Carve, Release, Live, Shrink;
  }

  /** A returned block starts with the old one's first min(old capacity, n) bytes. */
  ghost predicate DataKept(m: seq<byte>, m': seq<byte>, b: seq<Block>, rmem: Option<nat>, n: nat, r: Option<nat>)
    requires rmem.Some? ==> rmem.value >= HEADER && rmem.value - HEADER in Live(b)
  {
    rmem.Some? && r.Some? ==>
      Carried(m, m', rmem.value, r.value, Min(Cap(b[Find(b, rmem.value - HEADER)]), n))
  }

  ghost predicate Carried(m: seq<byte>, m': seq<byte>, p: nat, p': nat, len: int) {
    && 0 <= len && p + len <= |m| && p' + len <= |m'|
    && m'[p'..p' + len] == m[p..p + len]
  }

  lemma CarriedHere(m: seq<byte>, p: nat, len: nat)
    requires p + len <= |m|
    ensures Carried(m, m, p, p, len)
  {
  }

  lemma CarriedPrefix(m: seq<byte>, m': seq<byte>, mem: nat, n: nat)
    requires SamePayload(m, m', Block(mem, mem + HEADER + n, true))
    ensures Carried(m, m', mem + HEADER, mem + HEADER, n)
  {
  }

  lemma Unmoved(m: seq<byte>, b: seq<Block>, total: nat)
    requires Tiles(b, 0, total + HEADER) && |m| == total + 2 * HEADER
    ensures KeepsPayloads(m, m, b, -1)
  {
    forall x | x in b
      ensures SamePayload(m, m, x)
    {
      var k :| 0 <= k < |b| && b[k] == x;
      Within(b, 0, total + HEADER, k);
    }
  }

  /** Payloads kept in two steps are kept, when the first step lets no live block go. */
  lemma Follow(m: seq<byte>, m1: seq<byte>, m2: seq<byte>, b: seq<Block>, b1: seq<Block>)
    requires KeepsPayloads(m, m1, b, -1) && KeepsPayloads(m1, m2, b1, -1)
    requires forall x :: x in b && x.used ==> x in b1
    ensures KeepsPayloads(m, m2, b, -1)
  {
  }

  lemma FollowFree(m: seq<byte>, m1: seq<byte>, m2: seq<byte>, b: seq<Block>, b1: seq<Block>, i: nat)
    requires i < |b| && b1 == b[i := b[i].(used := false)]
    requires KeepsPayloads(m, m1, b, b[i].off) && KeepsPayloads(m1, m2, b1, -1)
    ensures KeepsPayloads(m, m2, b, b[i].off)
  {
    forall x | x in b && x.used && x.off != b[i].off
      ensures SamePayload(m, m2, x)
    {
      var k :| 0 <= k < |b| && b[k] == x;
      assert b1[k] == x;
    }
  }

  /** Marking block `k` touches no payload of a block that was live before. */
  lemma FollowMark(m: seq<byte>, m1: seq<byte>, m2: seq<byte>, b: seq<Block>, b1: seq<Block>, k: nat, total: nat)
    requires k < |b| && k < |b1| && Tiles(b1, 0, total + HEADER) && !b1[k].used
    requires b1[..k] == b[..k] && |b1| >= |b| && b1[k + |b1| - |b| + 1..] == b[k + 1..] && !b[k].used
    requires KeepsPayloads(m, m1, b, -1) && KeepsPayloads(m1, m2, b1, b1[k].off)
    ensures KeepsPayloads(m, m2, b, -1)
  {
    forall x | x in b && x.used
      ensures SamePayload(m, m2, x)
    {
      var j :| 0 <= j < |b| && b[j] == x;
      var j' := if j < k then j else j + |b1| - |b|;
      assert if j < k then b1[..k][j] == x else b1[k + |b1| - |b| + 1..][j - k - 1] == x;
      assert b1[j'] == x;
      if x.off == b1[k].off {
        OffsetsDistinct(b1, 0, total + HEADER, j', k);
      }
    }
  }

  /** Cutting block `i` and then plugging holes keeps its first `n` bytes and every other live payload. */
  lemma FollowCut(m: seq<byte>, m1: seq<byte>, m2: seq<byte>, b: seq<Block>, b1: seq<Block>, i: nat, n: nat)
    requires i < |b| && b1 == Replace(b, i, i + 1, Halves(b[i], n))
    requires KeepsPayloads(m, m1, b, b[i].off) && KeepsPayloads(m1, m2, b1, -1)
    requires SamePayload(m, m1, Block(b[i].off, b[i].off + HEADER + n, true))
    ensures KeepsPayloads(m, m2, b, b[i].off)
    ensures SamePayload(m, m2, Block(b[i].off, b[i].off + HEADER + n, true))
  {
    assert b1[i] == Block(b[i].off, b[i].off + HEADER + n, true);
    forall x | x in b && x.used && x.off != b[i].off
      ensures SamePayload(m, m2, x)
    {
      var k :| 0 <= k < |b| && b[k] == x;
      assert b1[if k < i then k else k + 1] == x;
    }
  }

  lemma PayloadAt(m: seq<byte>, m': seq<byte>, x: Block, p: nat)
    requires SamePayload(m, m', x) && x.off + HEADER <= p < x.next
    ensures m'[p] == m[p]
  {
  }

  /** Allocate, copy, free: the old bytes arrive in the new block and no other live payload changes. */
  lemma FollowMove(m: seq<byte>, m1: seq<byte>, m2: seq<byte>, m3: seq<byte>, b: seq<Block>, c: seq<Block>,
                   i: nat, k: nat, len: nat)
    requires i < |b| && b[i].used && k < |b| && k < |c| && c[k].used && c[k].off == b[k].off
    requires forall x :: x in b && x.used ==> x in c && x.off != b[k].off
    requires len <= Cap(b[i]) && len <= Cap(c[k])
    requires KeepsPayloads(m, m1, b, -1)
    requires Copied(m1, m2, c[k].off + HEADER, b[i].off + HEADER, len) && KeepsPayloads(m1, m2, c, c[k].off)
    requires KeepsPayloads(m2, m3, c, b[i].off)
    ensures KeepsPayloads(m, m3, b, b[i].off)
    ensures Carried(m, m3, b[i].off + HEADER, c[k].off + HEADER, len)
  {
    hide SamePayload;
    var dst, src := c[k].off + HEADER, b[i].off + HEADER;
    FollowOthers(m, m1, m2, m3, b, c, b[i].off, c[k].off);
    assert SamePayload(m, m1, b[i]) && SamePayload(m2, m3, c[k]);
    FollowBytes(m, m1, m2, m3, b[i], c[k], len);
  }

  lemma FollowBytes(m: seq<byte>, m1: seq<byte>, m2: seq<byte>, m3: seq<byte>, x: Block, y: Block, len: nat)
    requires SamePayload(m, m1, x) && SamePayload(m2, m3, y) && len <= Cap(x) && len <= Cap(y)
    requires Copied(m1, m2, y.off + HEADER, x.off + HEADER, len)
    ensures Carried(m, m3, x.off + HEADER, y.off + HEADER, len)
  {
    var dst, src := y.off + HEADER, x.off + HEADER;
    forall p | dst <= p < dst + len
      ensures m3[p] == m[p - dst + src]
    {
      PayloadAt(m2, m3, y, p);
      PayloadAt(m, m1, x, p - dst + src);
    }
    var s, s' := m[src..src + len], m3[dst..dst + len];
    assert forall t :: 0 <= t < len ==> s'[t] == m3[dst + t] && s[t] == m[src + t];
  }

  lemma FollowOthers(m: seq<byte>, m1: seq<byte>, m2: seq<byte>, m3: seq<byte>, b: seq<Block>, c: seq<Block>,
                     from: nat, to: nat)
    requires forall x :: x in b && x.used ==> x in c && x.off != to
    requires KeepsPayloads(m, m1, b, -1) && KeepsPayloads(m1, m2, c, to) && KeepsPayloads(m2, m3, c, from)
    ensures KeepsPayloads(m, m3, b, from)
  {
  }
}
