/**
 Fixed-block pools: a free list threaded through the header words of the free blocks, while the header word of every
 block handed out names the pool it belongs to. Several pools share one memory.
 */
module MemPool {
  import opened Bytes
  import opened Distinct
  import opened IntrusiveList
  import opened WaitChannel
  import opened WaitHistory
  import opened WaitQueue

  const HEADER := 4  // sizeof(rt_uint8_t *)

  /** One pool: blocks `free` are in its list in that order, by number; the others are handed out. */
  datatype View = View(address: u32, start: nat, blockSize: nat, total: nat, free: seq<nat>)

  /** Where block number `k` has its header word; its payload follows. */
  function BlockAt(v: View, k: nat): (o: nat)
    ensures o >= v.start
  {
    NonNegative(k, v.blockSize + HEADER);
    v.start + k * (v.blockSize + HEADER)
  }

  function Payload(v: View, k: nat): nat {
    BlockAt(v, k) + HEADER
  }

  lemma Row(v: View, j: nat, k: nat)
    requires j < k
    ensures BlockAt(v, j) + HEADER + v.blockSize <= BlockAt(v, k)
  {
    assert (j + 1) * (v.blockSize + HEADER) <= k * (v.blockSize + HEADER);
  }

  /** The blocks of a pool do not overlap. */
  lemma BlocksApart(v: View, j: nat, k: nat)
    requires j != k
    ensures BlockAt(v, j) + HEADER + v.blockSize <= BlockAt(v, k) || BlockAt(v, k) + HEADER + v.blockSize <= BlockAt(v, j)
  {
    if j < k {
      Row(v, j, k);
    } else {
      Row(v, k, j);
    }
  }

  lemma BlockInside(v: View, k: nat)
    requires k < v.total
    ensures v.start <= BlockAt(v, k) && BlockAt(v, k) + HEADER + v.blockSize <= BlockAt(v, v.total)
  {
    Row(v, k, v.total);
    assert 0 <= k * (v.blockSize + HEADER);
  }

  /** The link in the header of the free block at place `i` of the list. */
  function Link(v: View, i: nat): nat
    requires i <= |v.free|
  {
    if i < |v.free| then BlockAt(v, v.free[i]) else 0
  }

  ghost predicate Shape(m: seq<byte>, v: View) {
    && 0 < v.start && BlockAt(v, v.total) <= |m| < WORD_LIMIT
    && NoDuplicates(v.free) && forall k :: k in v.free ==> k < v.total
  }

  ghost predicate HeaderIs(m: seq<byte>, v: View, k: nat, w: nat) {
    BlockAt(v, k) + HEADER <= |m| && Word(m, BlockAt(v, k)) == w
  }

  ghost predicate Chained(m: seq<byte>, v: View, i: nat)
    requires i < |v.free|
  {
    HeaderIs(m, v, v.free[i], Link(v, i + 1))
  }

  /** The header words show which blocks are free, in order, and which belong to somebody. */
  ghost predicate Image(m: seq<byte>, v: View) {
    && Shape(m, v)
    && (forall i :: 0 <= i < |v.free| ==> Chained(m, v, i))
    && (forall k :: 0 <= k < v.total && k !in v.free ==> HeaderIs(m, v, k, v.address))
  }

  ghost predicate Separate(v: View, w: View) {
    BlockAt(v, v.total) <= w.start || BlockAt(w, w.total) <= v.start
  }

  /** `m'` is `m` but for the four bytes at `o`. */
  ghost predicate OnlyWord(m: seq<byte>, m': seq<byte>, o: nat) {
    |m'| == |m| && forall p :: 0 <= p < |m| && !(o <= p < o + HEADER) ==> m'[p] == m[p]
  }

  ghost predicate SameHeader(m: seq<byte>, m': seq<byte>, v: View, k: nat) {
    && |m'| == |m|
    && forall p {:trigger m'[p]} :: BlockAt(v, k) <= p < BlockAt(v, k) + HEADER && p < |m| ==> m'[p] == m[p]
  }

  lemma HeaderKept(m: seq<byte>, m': seq<byte>, v: View, k: nat, w: nat)
    requires HeaderIs(m, v, k, w) && SameHeader(m, m', v, k)
    ensures HeaderIs(m', v, k, w)
  {
  }

  lemma OtherHeader(m: seq<byte>, m': seq<byte>, v: View, j: nat, k: nat, w: nat)
    requires j != k && HeaderIs(m, v, k, w) && OnlyWord(m, m', BlockAt(v, j))
    ensures HeaderIs(m', v, k, w)
  {
    BlocksApart(v, j, k);
    hide BlockAt, Word;
    HeaderKept(m, m', v, k, w);
  }

  /** Memory that differs only where no header of this pool lies shows the same pool. */
  lemma SameHeaders(m: seq<byte>, m': seq<byte>, v: View)
    requires Image(m, v) && |m'| == |m|
    requires forall k :: 0 <= k < v.total ==> SameHeader(m, m', v, k)
    ensures Image(m', v)
  {
    hide BlockAt, Word, SameHeader, HeaderIs;
    forall i | 0 <= i < |v.free|
      ensures Chained(m', v, i)
    {
      assert Chained(m, v, i) && v.free[i] in v.free;
      HeaderKept(m, m', v, v.free[i], Link(v, i + 1));
    }
    forall k | 0 <= k < v.total && k !in v.free
      ensures HeaderIs(m', v, k, v.address)
    {
      HeaderKept(m, m', v, k, v.address);
    }
  }

  /** Writing a header of one pool leaves every other pool as it was. */
  lemma OtherPool(m: seq<byte>, m': seq<byte>, v: View, w: View, k: nat)
    requires Separate(v, w) && k < v.total && Image(m, w) && OnlyWord(m, m', BlockAt(v, k))
    ensures Image(m', w)
  {
    BlockInside(v, k);
    hide BlockAt, Word;
    forall j | 0 <= j < w.total
      ensures SameHeader(m, m', w, j)
    {
      BlockInside(w, j);
    }
    SameHeaders(m, m', w);
  }

  /** A client that writes inside the payload of its block leaves every pool as it was. */
  lemma ClientWrite(m: seq<byte>, m': seq<byte>, v: View, w: View, k: nat)
    requires (v == w || Separate(v, w)) && k < v.total && Image(m, w) && |m'| == |m|
    requires forall p :: 0 <= p < |m| && !(Payload(v, k) <= p < Payload(v, k) + v.blockSize) ==> m'[p] == m[p]
    ensures Image(m', w)
  {
    BlockInside(v, k);
    hide BlockAt, Word;
    forall j | 0 <= j < w.total
      ensures SameHeader(m, m', w, j)
    {
      BlockInside(w, j);
      if v == w && j != k {
        BlocksApart(v, j, k);
      }
    }
    SameHeaders(m, m', w);
  }

  lemma LinkTail(v: View, v': View, i: nat)
    requires v.free != [] && v' == v.(free := v.free[1..]) && i <= |v'.free|
    ensures Link(v', i) == Link(v, i + 1)
  {
  }

  /** Taking the first block off the list and writing the pool's name into its header. */
  lemma ShapeTail(m: seq<byte>, m': seq<byte>, v: View)
    requires Shape(m, v) && |m'| == |m| && v.free != []
    ensures Shape(m', v.(free := v.free[1..]))
    ensures v.free[0] !in v.free[1..]
    ensures forall k :: k in v.free ==> k == v.free[0] || k in v.free[1..]
  {
    hide BlockAt;
    var v' := v.(free := v.free[1..]);
    SameBlocks(v, v');
    assert v.free == [v.free[0]] + v.free[1..];
    assert forall k :: k in v'.free ==> k in v.free;
  }

  lemma ShapePushed(m: seq<byte>, m': seq<byte>, v: View, k: nat)
    requires Shape(m, v) && |m'| == |m| && k < v.total && k !in v.free
    ensures Shape(m', v.(free := [k] + v.free))
  {
    hide BlockAt;
    SameBlocks(v, v.(free := [k] + v.free));
  }

  lemma AllocImage(m: seq<byte>, m': seq<byte>, v: View)
    requires Image(m, v) && v.free != []
    requires OnlyWord(m, m', BlockAt(v, v.free[0])) && HeaderIs(m', v, v.free[0], v.address)
    ensures Image(m', v.(free := v.free[1..]))
  {
    hide BlockAt, Link, HeaderIs;
    var v' := v.(free := v.free[1..]);
    ShapeTail(m, m', v);
    forall i | 0 <= i < |v'.free|
      ensures Chained(m', v', i)
    {
      assert Chained(m, v, i + 1);
      LinkTail(v, v', i + 1);
      OtherHeader(m, m', v, v.free[0], v'.free[i], Link(v', i + 1));
      MovedHeader(m', v, v', v'.free[i], Link(v', i + 1));
    }
    forall k | 0 <= k < v'.total && k !in v'.free
      ensures HeaderIs(m', v', k, v'.address)
    {
      if k != v.free[0] {
        assert k !in v.free;
        OtherHeader(m, m', v, v.free[0], k, v.address);
      }
      MovedHeader(m', v, v', k, v.address);
    }
  }

  lemma SameBlocks(v: View, v': View)
    requires v' == v.(free := v'.free)
    ensures BlockAt(v', v'.total) == BlockAt(v, v.total)
  {
  }

  lemma MovedBlock(v: View, v': View, k: nat)
    requires v' == v.(free := v'.free)
    ensures BlockAt(v', k) == BlockAt(v, k)
  {
  }

  lemma MovedHeader(m: seq<byte>, v: View, v': View, k: nat, w: nat)
    requires v' == v.(free := v'.free) && HeaderIs(m, v, k, w)
    ensures HeaderIs(m, v', k, w)
  {
  }

  lemma LinkPushed(v: View, v': View, k: nat, i: nat)
    requires v' == v.(free := [k] + v.free) && i <= |v.free|
    ensures Link(v', i + 1) == Link(v, i)
  {
  }

  /** Putting block `k` in front of the list. */
  lemma FreeImage(m: seq<byte>, m': seq<byte>, v: View, k: nat)
    requires Image(m, v) && k < v.total && k !in v.free
    requires OnlyWord(m, m', BlockAt(v, k)) && HeaderIs(m', v, k, Link(v, 0))
    ensures Image(m', v.(free := [k] + v.free))
  {
    hide BlockAt, Link, HeaderIs;
    var v' := v.(free := [k] + v.free);
    ShapePushed(m, m', v, k);
    forall i | 0 <= i < |v'.free|
      ensures Chained(m', v', i)
    {
      LinkPushed(v, v', k, i);
      if i > 0 {
        assert Chained(m, v, i - 1);
        OtherHeader(m, m', v, k, v.free[i - 1], Link(v, i));
      }
      MovedHeader(m', v, v', v'.free[i], Link(v, i));
    }
    forall j | 0 <= j < v'.total && j !in v'.free
      ensures HeaderIs(m', v', j, v'.address)
    {
      assert j !in v.free && j != k by {
        assert v'.free[0] == k && forall i :: 0 <= i < |v.free| ==> v'.free[i + 1] == v.free[i];
      }
      OtherHeader(m, m', v, k, j, v.address);
      MovedHeader(m', v, v', j, v.address);
    }
  }

  // ----- initialisation -----

  /** block_total_count for a region of `size` bytes. */
  function Blocks(size: nat, blockSize: nat): nat {
    AlignDown(size) / (blockSize + HEADER)
  }

  /** The blocks fit the region, and one more would not. */
  lemma BlocksFit(v: View, size: nat, blockSize: u32)
    requires v.blockSize == Align(blockSize) && v.total == Blocks(size, Align(blockSize))
    ensures BlockAt(v, v.total) <= v.start + size < BlockAt(v, v.total + 1)
  {
    var step := Align(blockSize) + HEADER;
    hide Align;
    MostSteps(size, step);
  }

  lemma MostSteps(size: nat, step: nat)
    requires step > 0 && Aligned(step)
    ensures AlignDown(size) / step * step <= size < (AlignDown(size) / step + 1) * step
  {
    var n := AlignDown(size) / step;
    DivFacts(AlignDown(size), step);
    NextMultiple(AlignDown(size), step);
    MultipleAligned(n + 1, step);
  }

  lemma MultipleAligned(n: nat, d: nat)
    requires Aligned(d)
    ensures Aligned(n * d)
  {
    assert n * d == 4 * (n * (d / 4));
  }

  /** The divisor in the block count: block size and header in 32-bit arithmetic. */
  function Step(blockSize: u32): u32 {
    (Align(blockSize) + HEADER) % WORD_LIMIT
  }

  /**
   It wraps to 0, and the count is a division by zero, exactly for block sizes within four bytes below the wrap of
   RT_ALIGN; for all others it is the block size and header. A block holds the bytes asked for unless RT_ALIGN wraps.
   */
  lemma StepWraps(blockSize: u32)
    ensures Step(blockSize) == 0 <==> 0xFFFF_FFF8 < blockSize <= 0xFFFF_FFFC
    ensures Step(blockSize) != 0 <==> Step(blockSize) == Align(blockSize) + HEADER
    ensures Align(blockSize) >= blockSize <==> blockSize <= 0xFFFF_FFFC
  {
    AlignRoundsUp(blockSize);
    var a := Align(blockSize);
    assert a <= 0xFFFF_FFFC && Aligned(a);
    if a < 0xFFFF_FFFC {
      assert a <= 0xFFFF_FFF8 && (a + HEADER) % WORD_LIMIT == a + HEADER;
    } else {
      assert (a + HEADER) % WORD_LIMIT == 0;
    }
  }

  /**
   The terminator is written to the last block's header. That lies in the region exactly when the region holds a
   block at all; a smaller region makes the initialisation write below it.
   */
  lemma TerminatorInside(start: nat, size: nat, blockSize: u32)
    requires Step(blockSize) != 0
    ensures var at := start + (AlignDown(size) / Step(blockSize) - 1) * Step(blockSize);
            start <= at && at + HEADER <= start + size <==> Step(blockSize) <= AlignDown(size)
  {
    StepWraps(blockSize);
    TerminatorAt(start, size, Step(blockSize));
  }

  lemma TerminatorAt(start: nat, size: nat, step: nat)
    requires step >= HEADER
    ensures var at := start + (AlignDown(size) / step - 1) * step;
            start <= at && at + HEADER <= start + size <==> step <= AlignDown(size)
  {
    var n: int := AlignDown(size) / step;
    DivFacts(AlignDown(size), step);
    if n >= 1 {
      NonNegative(n - 1, step);
      assert (n - 1) * step + step == n * step;
    } else {
      assert n == 0 && (n - 1) * step == 0 - step;
    }
  }

  ghost predicate NextAt(m: seq<byte>, v: View, k: nat) {
    HeaderIs(m, v, k, BlockAt(v, k + 1))
  }

  function Upto(n: nat): (s: seq<nat>)
    ensures |s| == n && forall i :: 0 <= i < n ==> s[i] == i
  {
    if n == 0 then [] else Upto(n - 1) + [n - 1]
  }

  // ----- waiting -----

  datatype Label = TryAlloc(t: Tid, wait: bool) | Free | TimeOut(k: nat)

  predicate Enabled(c: Chan, l: Label) {
    match l
    case TryAlloc(t, _) => t !in c.waiting
    case TimeOut(k) => k < |c.waiting|
    case Free => true
  }

  /** One section of alloc or free, or a timer. A thread that must wait goes to the front of the list. */
  function After(c: Chan, l: Label): Chan {
    match l
    case TryAlloc(t, wait) =>
      if c.avail > 0 then Take(c, t)
      else if wait then Suspend(c, t, Insert(c.waiting, 0, t))
      else GiveUp(c, t)
    case Free => Arrive(c)
    case TimeOut(k) => if k < |c.waiting| then WaitChannel.TimeOut(c, k) else c
  }

  lemma InsertFirst(q: seq<Tid>, t: Tid)
    ensures Insert(q, 0, t) == [t] + q
  {
  }

  lemma StepKeeps(c: Chan, l: Label)
    requires Inv(c) && Enabled(c, l)
    ensures Inv(After(c, l))
  {
    match l {
      case TryAlloc(t, wait) =>
        if c.avail > 0 {
          TakeKeeps(c, t);
        } else if wait {
          SuspendAt(c, t, 0);
        }
      case Free => ArriveKeeps(c);
      case TimeOut(k) => TimeOutKeeps(c, k);
    }
  }

  ghost predicate Run(chans: seq<Chan>, labels: seq<Label>) {
    && |chans| == |labels| + 1 && chans[0].waiting == [] && chans[0].woken == {}
    && forall i :: 0 <= i < |labels| ==> Enabled(chans[i], labels[i]) && chans[i + 1] == After(chans[i], labels[i])
  }

  /** In every run: while threads wait for a block, enough resumed threads are coming for all free blocks. */
  lemma {:induction false} RunKeeps(chans: seq<Chan>, labels: seq<Label>, k: nat)
    requires Run(chans, labels) && k < |chans|
    ensures Inv(chans[k])
  {
    hide After, Enabled;
    if k > 0 {
      RunKeeps(chans, labels, k - 1);
      StepKeeps(chans[k - 1], labels[k - 1]);
      assert chans[k] == chans[k - 1 + 1];
    }
  }

  /** What a section means to the list of waiting threads. */
  function ActOf(c: Chan, l: Label): Act {
    match l
    case TryAlloc(t, wait) => Looks(t, c.avail == 0 && wait)
    case Free => Wakes
    case TimeOut(k) => TimesOut(k)
  }

  function Acts(chans: seq<Chan>, labels: seq<Label>): (acts: seq<Act>)
    requires |labels| < |chans|
    ensures |acts| == |labels| && forall i :: 0 <= i < |acts| ==> acts[i] == ActOf(chans[i], labels[i])
  {
    seq(|labels|, i requires 0 <= i < |labels| => ActOf(chans[i], labels[i]))
  }

  function Queues(chans: seq<Chan>): (queues: seq<seq<Tid>>)
    ensures |queues| == |chans| && forall i :: 0 <= i < |queues| ==> queues[i] == chans[i].waiting
  {
    seq(|chans|, i requires 0 <= i < |chans| => chans[i].waiting)
  }

  lemma QueueMoves(c: Chan, l: Label, prio: Tid -> nat)
    requires Enabled(c, l)
    ensures May(c.waiting, ActOf(c, l)) && After(c, l).waiting == Moved(c.waiting, ActOf(c, l), Front, prio)
    ensures After(c, l).woken == ComingNext(c.woken, c.waiting, ActOf(c, l))
  {
    hide Remove;
    if l.TryAlloc? {
      InsertFirst(c.waiting, l.t);
    }
  }

  lemma {:induction false} WokenComing(chans: seq<Chan>, labels: seq<Label>, k: nat)
    requires Run(chans, labels) && k < |chans|
    ensures chans[k].woken == Coming(Queues(chans), Acts(chans, labels), k)
  {
    hide After, Enabled, ActOf, Moved, May, ComingNext;
    if k > 0 {
      WokenComing(chans, labels, k - 1);
      assert chans[k] == chans[k - 1 + 1];
      QueueMoves(chans[k - 1], labels[k - 1], t => 0);
    }
  }

  /** Priorities do not matter here. */
  function NoPriorities(n: nat): (prios: seq<Tid -> nat>)
    ensures |prios| == n
  {
    seq(n, i => t => 0)
  }

  lemma Traced(chans: seq<Chan>, labels: seq<Label>)
    requires Run(chans, labels)
    ensures Trace(Queues(chans), Acts(chans, labels), Front, NoPriorities(|labels|))
  {
    hide After, Enabled, ActOf, Moved, May;
    forall i | 0 <= i < |labels|
      ensures May(chans[i].waiting, ActOf(chans[i], labels[i]))
      ensures chans[i + 1].waiting == Moved(chans[i].waiting, ActOf(chans[i], labels[i]), Front, NoPriorities(|labels|)[i])
    {
      QueueMoves(chans[i], labels[i], NoPriorities(|labels|)[i]);
    }
  }

  /** In every run each thread waits exactly as it should, and the last to come stands first. */
  lemma WaitsInTurn(chans: seq<Chan>, labels: seq<Label>, k: nat, t: Tid)
    requires Run(chans, labels) && k < |chans|
    ensures t in chans[k].waiting <==> Waits(Queues(chans), Acts(chans, labels), k, t)
    ensures LastFirst(chans[k].waiting, Arrival(Acts(chans, labels), k))
  {
    hide After, Enabled, Waits, LastFirst, Arrival, Trace;
    Traced(chans, labels);
    WaitersExactly(Queues(chans), Acts(chans, labels), Front, NoPriorities(|labels|), k, t);
    InFrontOrder(Queues(chans), Acts(chans, labels), NoPriorities(|labels|), k);
  }

  /** No lost wakeup in any run: while threads wait, those resumed that have not looked again are as many as the free blocks. */
  lemma NoneStranded(chans: seq<Chan>, labels: seq<Label>, k: nat)
    requires Run(chans, labels) && k < |chans| && chans[k].waiting != []
    ensures |Coming(Queues(chans), Acts(chans, labels), k)| >= chans[k].avail
  {
    hide After, Enabled, Coming;
    RunKeeps(chans, labels, k);
    WokenComing(chans, labels, k);
  }

  // ----- the code -----

  class Pool {
    const address: u32       // of the control block
    const startAddress: nat
    const blockSize: nat
    const blockTotalCount: nat
    var blockFreeCount: nat
    var blockList: nat       // address of the first free block, 0 for none
    var waiters: seq<Tid>    // suspend_thread
    ghost var woken: set<Tid>
    ghost var free: seq<nat>

    ghost function ToView(): View
      reads this
    {
      View(address, startAddress, blockSize, blockTotalCount, free)
    }

    ghost function ToChan(): Chan
      reads this
    {
      Chan(blockFreeCount, waiters, woken)
    }

    ghost predicate Valid(mem: array<byte>)
      reads this, mem
    {
      Image(mem[..], ToView()) && Tidy()
    }

    ghost predicate Tidy()
      reads this
    {
      blockFreeCount == |free| && (blockTotalCount > 0 ==> blockList == Link(ToView(), 0)) && Inv(ToChan())
    }

    /**
     rt_mp_init, for block sizes that do not make it divide by zero. A region without room for a block gives a pool
     without blocks, and its terminator goes to the word one step below the region.
     */
    constructor (mem: array<byte>, address: u32, start: nat, size: nat, blockSize: u32)
      requires 0 < start && start + size <= mem.Length < WORD_LIMIT && Step(blockSize) != 0
      modifies mem
      ensures Valid(mem) && waiters == []
      ensures ToView() == View(address, start, Align(blockSize), Blocks(size, Align(blockSize)),
                               Upto(Blocks(size, Align(blockSize))))
      ensures Step(blockSize) <= AlignDown(size) ==>
                forall p :: 0 <= p < mem.Length && !(start <= p < start + size) ==> mem[p] == old(mem[p])
      ensures Step(blockSize) > AlignDown(size) ==>
                OnlyWord(old(mem[..]), mem[..], (start - Step(blockSize)) % WORD_LIMIT)
    {
      hide BlockAt, Word, Step;
      this.address, startAddress, this.blockSize := address, start, Align(blockSize);
      blockTotalCount, blockFreeCount := Blocks(size, Align(blockSize)), Blocks(size, Align(blockSize));
      waiters, woken, free, blockList := [], {}, Upto(Blocks(size, Align(blockSize))), start;
      new;
      ghost var v := ToView();
      StepWraps(blockSize);
      BlocksFit(v, size, blockSize);
      DivFacts(AlignDown(size), Align(blockSize) + HEADER);
      InitialShape(mem[..], v);
      if blockTotalCount > 0 {
        LinkBlocks(mem, v);
        FirstBlock(v);
      } else {
        StrayTerminator(mem, start, Step(blockSize));
        NoBlocks(mem[..], v);
      }
    }

    /** The terminator of rt_mp_init when there is no block; beyond the memory modelled nothing is written. */
    static method StrayTerminator(mem: array<byte>, start: nat, step: u32)
      requires start <= mem.Length < WORD_LIMIT
      modifies mem
      ensures OnlyWord(old(mem[..]), mem[..], (start - step) % WORD_LIMIT)
    {
      hide Word;
      var at := (start - step) % WORD_LIMIT;
      if at + HEADER <= mem.Length {
        Store(mem, at, 0);
      }
    }

    /** The loop of rt_mp_init: each block's header leads to the next block, and the last one to nothing. */
    method LinkBlocks(mem: array<byte>, ghost v: View)
      requires v == ToView() && v.total > 0 && v.free == Upto(v.total) && Shape(mem[..], v)
      modifies mem
      ensures Image(mem[..], v)
      ensures OnlyRegion(old(mem[..]), mem[..], v)
    {
      hide Word, BlockAt, HeaderIs, OnlyWord;
      ghost var m := mem[..];
      var offset := 0;
      while offset < blockTotalCount
        invariant offset <= v.total
        invariant forall k :: 0 <= k < offset ==> NextAt(mem[..], v, k)
        invariant OnlyRegion(m, mem[..], v)
      {
        ghost var before := mem[..];
        LinkInside(v, offset);
        PutLink(mem, v, offset, Address(offset + 1));
        NextKept(before, mem[..], v, offset);
        RegionKept(m, before, mem[..], v, offset);
        offset := offset + 1;
      }
      ghost var before := mem[..];
      PutLink(mem, v, offset - 1, 0);
      RegionKept(m, before, mem[..], v, offset - 1);
      NextKept(before, mem[..], v, offset - 1);
      ChainUpto(mem[..], v);
    }

    /** The list part of rt_mp_alloc: the first free block is taken and marked as this pool's. */
    method TakeBlock(mem: array<byte>) returns (block: nat)
      requires Image(mem[..], ToView()) && blockFreeCount == |free| > 0 && blockList == Link(ToView(), 0)
      modifies mem, this`blockFreeCount, this`blockList, this`free
      ensures Image(mem[..], ToView()) && blockFreeCount == |free| && blockList == Link(ToView(), 0)
      ensures free == old(free)[1..] && block == Payload(ToView(), old(free)[0])
      ensures OnlyWord(old(mem[..]), mem[..], block - HEADER)
    {
      hide Word, BlockAt;
      ghost var v := ToView();
      assert Chained(mem[..], v, 0) && v.free[0] in v.free;
      blockFreeCount := blockFreeCount - 1;
      var blockPtr := blockList;
      assert blockPtr != 0;  // what the code asserts
      blockList := Load(mem, blockPtr);
      Store(mem, blockPtr, address);
      free := free[1..];
      AllocImage(old(mem[..]), mem[..], v);
      LinkTail(v, ToView(), 0);
      MovedBlock(v, ToView(), v.free[0]);
      block := blockPtr + HEADER;
    }

    /** rt_mp_alloc from one interrupt-disable to the next: the first look, or a look after a resume. */
    method AllocSection(mem: array<byte>, t: Tid, time: int) returns (r: Outcome, block: nat)
      requires Valid(mem) && t !in waiters
      modifies this, mem
      ensures Valid(mem) && ToChan() == After(old(ToChan()), TryAlloc(t, time != 0))
      ensures r == if old(free) != [] then Ok else if time == 0 then Failed(-RT_ETIMEOUT) else Blocked
      ensures r == Ok ==> free == old(free)[1..] && block == Payload(ToView(), old(free)[0])
      ensures r == Ok ==> OnlyWord(old(mem[..]), mem[..], block - HEADER)
      ensures r != Ok ==> block == 0 && free == old(free) && mem[..] == old(mem[..])
    {
      hide Word, BlockAt, Inv, Image, OnlyWord, Link, Insert;
      StepKeeps(ToChan(), TryAlloc(t, time != 0));
      InsertFirst(waiters, t);
      block := 0;
      if blockFreeCount == 0 {
        woken := woken - {t};
        if time == 0 {
          r := Failed(-RT_ETIMEOUT);
        } else {
          waiters := [t] + waiters;
          r := Blocked;
        }
      } else {
        woken := woken - {t};
        SomeBlock(mem[..], ToView());
        block := TakeBlock(mem);
        r := Ok;
      }
    }

    /** The list part of rt_mp_free: block `k` goes to the front of the free list. */
    method GiveBlock(mem: array<byte>, blockPtr: nat, ghost k: nat)
      requires Image(mem[..], ToView()) && blockFreeCount == |free| && blockList == Link(ToView(), 0)
      requires Held(ToView(), k) && blockPtr == BlockAt(ToView(), k)
      modifies mem, this`blockFreeCount, this`blockList, this`free
      ensures Image(mem[..], ToView()) && blockFreeCount == |free| && blockList == Link(ToView(), 0)
      ensures free == [k] + old(free) && OnlyWord(old(mem[..]), mem[..], blockPtr)
    {
      hide Word, BlockAt;
      ghost var v := ToView();
      FirstLink(mem[..], v);
      BlockInside(v, k);
      blockFreeCount := blockFreeCount + 1;
      Store(mem, blockPtr, blockList);
      blockList := blockPtr;
      free := [k] + free;
      FreeImage(old(mem[..]), mem[..], v, k);
      assert OnlyWord(old(mem[..]), mem[..], blockPtr);
      MovedBlock(v, ToView(), k);
    }

    /** The rest of rt_mp_free. */
    method FreeSection(mem: array<byte>, blockPtr: nat, ghost k: nat)
      requires Valid(mem) && Held(ToView(), k) && blockPtr == BlockAt(ToView(), k)
      modifies this, mem
      ensures Valid(mem) && ToChan() == After(old(ToChan()), Label.Free)
      ensures free == [k] + old(free) && OnlyWord(old(mem[..]), mem[..], blockPtr)
    {
      hide Word, BlockAt, Inv, Image, OnlyWord, Link;
      StepKeeps(ToChan(), Label.Free);
      GiveBlock(mem, blockPtr, k);
      if waiters != [] {
        woken := woken + {waiters[0]};
        waiters := waiters[1..];
      }
    }

    function Address(k: nat): (a: nat)
      reads this
      ensures a == BlockAt(ToView(), k)
    {
      startAddress + k * (blockSize + HEADER)
    }

    /** One store of that loop. */
    method PutLink(mem: array<byte>, ghost v: View, k: nat, link: u32)
      requires v == ToView() && k < v.total && BlockAt(v, v.total) <= mem.Length
      modifies mem
      ensures HeaderIs(mem[..], v, k, link) && OnlyWord(old(mem[..]), mem[..], BlockAt(v, k))
    {
      hide Word, BlockAt;
      BlockInside(v, k);
      Store(mem, Address(k), link);
    }
  }

  /** Every pool is in order and they share no byte. Control blocks are known by their address. */
  ghost predicate AllValid(mem: array<byte>, pools: map<u32, Pool>)
    reads mem, pools.Values
  {
    && (forall a :: a in pools ==> pools[a].address == a && pools[a].Valid(mem))
    && (forall a, b :: a in pools && b in pools && a != b ==> Separate(pools[a].ToView(), pools[b].ToView()))
  }

  /** Block `k` is in the hands of a client. */
  ghost predicate Held(v: View, k: nat) {
    k < v.total && k !in v.free
  }

  /** No two blocks handed out, of one pool or of two, share a byte, and none leaves its pool's region. */
  lemma HeldApart(mem: array<byte>, pools: map<u32, Pool>, a: u32, b: u32, j: nat, k: nat)
    requires AllValid(mem, pools) && a in pools && b in pools && (a != b || j != k)
    requires Held(pools[a].ToView(), j) && Held(pools[b].ToView(), k)
    ensures var v, w := pools[a].ToView(), pools[b].ToView();
            && (Payload(v, j) + v.blockSize <= BlockAt(w, k) || Payload(w, k) + w.blockSize <= BlockAt(v, j))
            && v.start <= BlockAt(v, j) && Payload(v, j) + v.blockSize <= mem.Length
  {
    var v, w := pools[a].ToView(), pools[b].ToView();
    BlockInside(v, j);
    BlockInside(w, k);
    if a == b {
      BlocksApart(v, j, k);
    }
    hide BlockAt;
  }

  function HeldBlocks(v: View): set<nat> {
    set k: nat | k < v.total && k !in v.free
  }

  /** Every block of a pool is free or in a client's hands, and the free count tells how many are which. */
  lemma BlockCount(m: seq<byte>, v: View)
    requires Image(m, v)
    ensures |v.free| + |HeldBlocks(v)| == v.total
  {
    CountdownDistinct(v.total);
    MembersCount(Countdown(v.total));
    MembersCount(v.free);
    assert Members(Countdown(v.total)) == Members(v.free) + HeldBlocks(v);
    assert Members(v.free) !! HeldBlocks(v);
  }

  ghost predicate OnlyRegion(m: seq<byte>, m': seq<byte>, v: View) {
    |m'| == |m| && forall p :: 0 <= p < |m| && !(v.start <= p < BlockAt(v, v.total)) ==> m'[p] == m[p]
  }

  lemma RegionKept(m: seq<byte>, m1: seq<byte>, m2: seq<byte>, v: View, k: nat)
    requires OnlyRegion(m, m1, v) && k < v.total && OnlyWord(m1, m2, BlockAt(v, k))
    ensures OnlyRegion(m, m2, v)
  {
    hide BlockAt;
    BlockInside(v, k);
  }

  lemma NextKept(m: seq<byte>, m': seq<byte>, v: View, n: nat)
    requires forall k :: 0 <= k < n ==> NextAt(m, v, k)
    requires OnlyWord(m, m', BlockAt(v, n))
    ensures forall k :: 0 <= k < n ==> NextAt(m', v, k)
  {
    hide BlockAt, HeaderIs, OnlyWord;
    forall k | 0 <= k < n
      ensures NextAt(m', v, k)
    {
      assert NextAt(m, v, k);
      OtherHeader(m, m', v, n, k, BlockAt(v, k + 1));
    }
  }

  lemma ChainUpto(m: seq<byte>, v: View)
    requires v.total > 0 && v.free == Upto(v.total) && Shape(m, v)
    requires forall k :: 0 <= k < v.total - 1 ==> NextAt(m, v, k)
    requires HeaderIs(m, v, v.total - 1, 0)
    ensures Image(m, v)
  {
    hide BlockAt, HeaderIs;
    forall i | 0 <= i < |v.free|
      ensures Chained(m, v, i)
    {
      assert i < v.total - 1 ==> NextAt(m, v, i);
    }
    forall k | 0 <= k < v.total
      ensures k in v.free
    {
      assert v.free[k] == k;
    }
  }

  lemma FirstLink(m: seq<byte>, v: View)
    requires Image(m, v)
    ensures Link(v, 0) < WORD_LIMIT
  {
    if v.free != [] {
      assert v.free[0] in v.free;
      BlockInside(v, v.free[0]);
    }
  }

  lemma TailHeld(m: seq<byte>, v: View)
    requires Image(m, v)
    ensures v.free != [] ==> Held(v.(free := v.free[1..]), v.free[0])
  {
    if v.free != [] {
      assert v.free[0] in v.free;
      ShapeTail(m, m, v);
    }
  }

  ghost predicate OnlyHeader(m: seq<byte>, m': seq<byte>, v: View, k: nat) {
    m' != m ==> k < v.total && OnlyWord(m, m', BlockAt(v, k))
  }

  ghost function Views(pools: map<u32, Pool>): map<u32, View>
    reads pools.Values
  {
    map a | a in pools :: pools[a].ToView()
  }

  ghost predicate AllImages(m: seq<byte>, views: map<u32, View>) {
    && (forall a :: a in views ==> views[a].address == a && Image(m, views[a]))
    && (forall a, b :: a in views && b in views && a != b ==> Separate(views[a], views[b]))
  }

  /** One pool was worked on through the header of its block `k`; the others do not notice. */
  lemma OthersKept(mem: array<byte>, pools: map<u32, Pool>, mp: u32, k: nat, m: seq<byte>, views: map<u32, View>)
    requires AllImages(m, views) && views.Keys == pools.Keys && mp in pools
    requires forall a :: a in pools && a != mp ==> pools[a].ToView() == views[a] && pools[a].Tidy()
    requires pools[mp].Valid(mem) && pools[mp].ToView() == views[mp].(free := pools[mp].free)
    requires OnlyHeader(m, mem[..], views[mp], k)
    ensures AllValid(mem, pools)
  {
    hide BlockAt, Word, Inv, Image, OnlyWord, Link;
    SameBlocks(views[mp], pools[mp].ToView());
    forall a | a in pools && a != mp
      ensures pools[a].Valid(mem)
    {
      if mem[..] != m {
        OtherPool(m, mem[..], views[mp], views[a], k);
      }
    }
    forall a, b | a in pools && b in pools && a != b
      ensures Separate(pools[a].ToView(), pools[b].ToView())
    {
      assert Separate(views[a], views[b]);
    }
  }

  /** rt_mp_alloc among several pools. */
  method Alloc(mem: array<byte>, pools: map<u32, Pool>, mp: u32, t: Tid, time: int) returns (r: Outcome, block: nat)
    requires AllValid(mem, pools) && mp in pools && t !in pools[mp].waiters
    modifies mem, pools[mp]
    ensures AllValid(mem, pools)
    ensures pools[mp].ToChan() == After(old(pools[mp].ToChan()), TryAlloc(t, time != 0))
    ensures r == if old(pools[mp].free) != [] then Ok else if time == 0 then Failed(-RT_ETIMEOUT) else Blocked
    ensures r == Ok ==> Held(pools[mp].ToView(), old(pools[mp].free)[0]) && pools[mp].free == old(pools[mp].free)[1..]
    ensures r == Ok ==> block == Payload(pools[mp].ToView(), old(pools[mp].free)[0])
    ensures r == Ok ==> OnlyWord(old(mem[..]), mem[..], block - HEADER)
    ensures r != Ok ==> block == 0 && pools[mp].free == old(pools[mp].free) && mem[..] == old(mem[..])
  {
    hide BlockAt, Word, Inv, Image, Link, After;
    var pool := pools[mp];
    ghost var v, m, views := pool.ToView(), mem[..], Views(pools);
    r, block := pool.AllocSection(mem, t, time);
    TailHeld(m, v);
    if r == Ok {
      MovedBlock(v, pool.ToView(), v.free[0]);
    }
    OthersKept(mem, pools, mp, if r == Ok then v.free[0] else 0, m, views);
  }

  /** The control block rt_mp_free works on. */
  ghost function Owner(pools: map<u32, Pool>, block: nat, a: u32): set<Pool> {
    if block != 0 && a in pools then {pools[a]} else {}
  }

  /**
   rt_mp_free: the header of a block handed out leads back to the pool it came from, and the block becomes that
   pool's first free one. `a` and `k` name the pool and the block for the specification only.
   */
  method Free(mem: array<byte>, pools: map<u32, Pool>, block: nat, ghost a: u32, ghost k: nat)
    requires AllValid(mem, pools)
    requires block != 0 ==> a in pools && Held(pools[a].ToView(), k) && block == Payload(pools[a].ToView(), k)
    modifies mem, Owner(pools, block, a)
    ensures AllValid(mem, pools)
    ensures block == 0 ==> mem[..] == old(mem[..])
    ensures block != 0 ==> && pools[a].free == [k] + old(pools[a].free)
                           && pools[a].ToChan() == After(old(pools[a].ToChan()), Label.Free)
                           && OnlyWord(old(mem[..]), mem[..], block - HEADER)
  {
    if block == 0 {
      return;
    }
    hide BlockAt, Word, Inv, After;
    assert HeaderIs(mem[..], pools[a].ToView(), k, a);
    ghost var m, views := mem[..], Views(pools);
    var blockPtr := block - HEADER;
    var mp := Load(mem, blockPtr);
    var pool := pools[mp];
    pool.FreeSection(mem, blockPtr, k);
    OthersKept(mem, pools, a, k, m, views);
  }

  lemma LinkInside(v: View, k: nat)
    requires k < v.total
    ensures BlockAt(v, k + 1) <= BlockAt(v, v.total)
  {
    if k + 1 < v.total {
      Row(v, k + 1, v.total);
    }
  }

  lemma InitialShape(m: seq<byte>, v: View)
    requires 0 < v.start && BlockAt(v, v.total) <= |m| < WORD_LIMIT && v.free == Upto(v.total)
    ensures Shape(m, v)
  {
  }

  lemma SomeBlock(m: seq<byte>, v: View)
    requires Image(m, v) && v.free != []
    ensures v.total > 0
  {
    assert v.free[0] in v.free;
  }

  lemma NoBlocks(m: seq<byte>, v: View)
    requires Shape(m, v) && v.total == 0 && v.free == []
    ensures Image(m, v)
  {
  }

  lemma FirstBlock(v: View)
    requires v.total > 0 && v.free == Upto(v.total)
    ensures Link(v, 0) == v.start
  {
  }
}
