/**
 The copy loops of the Ethernet driver: a transmitted frame is re-chunked from a chain of packet buffers into the
 fixed-size buffers of a descriptor ring, a received one the other way round.
 */
module EthCopy {
  import opened Bytes

  function Concat(chunks: seq<seq<byte>>): seq<byte> {
    if chunks == [] then [] else chunks[0] + Concat(chunks[1..])
  }

  lemma {:induction false} ConcatSnoc(chunks: seq<seq<byte>>, last: seq<byte>)
    ensures Concat(chunks + [last]) == Concat(chunks) + last
  {
    if chunks == [] {
      assert [last][1..] == [] && [] + [last] == [last] && [] + last == last == last + [];
      assert Concat([last]) == last + Concat([]);
    } else {
      ConcatSnoc(chunks[1..], last);
      assert (chunks + [last])[1..] == chunks[1..] + [last];
      assert chunks[0] + (Concat(chunks[1..]) + last) == (chunks[0] + Concat(chunks[1..])) + last;
    }
  }

  /** `data` in pieces of `size` bytes; the last one may be shorter. */
  function Chunks(data: seq<byte>, size: nat): (r: seq<seq<byte>>)
    requires size > 0
    ensures |r| > 0
    decreases |data|
  {
    if |data| <= size then [data] else [data[..size]] + Chunks(data[size..], size)
  }

  /** Cutting loses nothing. */
  lemma {:induction false} ChunksConcat(data: seq<byte>, size: nat)
    requires size > 0
    ensures Concat(Chunks(data, size)) == data
    decreases |data|
  {
    if |data| <= size {
      assert Chunks(data, size)[1..] == [] && data + [] == data;
    } else {
      ChunksConcat(data[size..], size);
      assert Chunks(data, size)[1..] == Chunks(data[size..], size);
      assert data[..size] + data[size..] == data;
    }
  }

  predicate AllSized(full: seq<seq<byte>>, size: nat) {
    forall j :: 0 <= j < |full| ==> |full[j]| == size
  }

  /** A frame is cut in just one way into full pieces and a last one. */
  lemma {:induction false} ChunksAre(full: seq<seq<byte>>, cur: seq<byte>, size: nat)
    requires size > 0 && AllSized(full, size) && |cur| <= size && (full != [] ==> cur != [])
    ensures Chunks(Concat(full) + cur, size) == full + [cur]
  {
    if full == [] {
      assert Concat(full) + cur == cur;
    } else {
      ChunksAre(full[1..], cur, size);
      var data := Concat(full) + cur;
      Splits(full, cur, size);
      assert full + [cur] == [full[0]] + (full[1..] + [cur]);
    }
  }

  lemma Splits(full: seq<seq<byte>>, cur: seq<byte>, size: nat)
    requires full != [] && AllSized(full, size) && cur != []
    ensures var data := Concat(full) + cur;
            |data| > size && data[..size] == full[0] && data[size..] == Concat(full[1..]) + cur
  {
    assert Concat(full) + cur == full[0] + (Concat(full[1..]) + cur);
  }

  /** A frame longer than its full pieces needs one more. */
  lemma {:induction false} ChunksExceed(full: seq<seq<byte>>, rest: seq<byte>, size: nat)
    requires size > 0 && AllSized(full, size) && rest != []
    ensures |Chunks(Concat(full) + rest, size)| > |full|
  {
    if full != [] {
      Splits(full, rest, size);
      ChunksExceed(full[1..], rest, size);
    }
  }

  /** How many buffers a frame takes. */
  lemma {:induction false} ChunksFit(data: seq<byte>, size: nat, n: nat)
    requires size > 0 && n > 0
    ensures |Chunks(data, size)| <= n <==> |data| <= n * size
    decreases n
  {
    if |data| > size {
      if n == 1 {
        assert n * size == size;
      } else {
        ChunksFit(data[size..], size, n - 1);
        assert (n - 1) * size + size == n * size;
      }
    } else {
      OneFits(size, n);
    }
  }

  lemma OneFits(size: nat, n: nat)
    requires n > 0
    ensures size <= n * size
  {
  }

  // ----- the ring -----

  function Next(d: nat, n: nat): nat {
    if d + 1 == n then 0 else d + 1
  }

  /** The descriptor `k` steps after `d`, in a ring of `n`. */
  function Desc(d: nat, k: nat, n: nat): (r: nat)
    requires d < n
    ensures r < n
    decreases k
  {
    if k == 0 then d else Desc(Next(d, n), k - 1, n)
  }

  lemma {:induction false} DescNext(d: nat, k: nat, n: nat)
    requires d < n
    ensures Desc(d, k + 1, n) == Next(Desc(d, k, n), n)
    decreases k
  {
    if k > 0 {
      DescNext(Next(d, n), k - 1, n);
    }
  }

  /** Up to the end of the ring the steps go straight up. */
  lemma {:induction false} DescBelow(d: nat, k: nat, n: nat)
    requires d < n && k < 2 * n - d
    ensures Desc(d, k, n) == if d + k < n then d + k else d + k - n
    decreases k
  {
    if k > 0 {
      DescBelow(d, k - 1, n);
      DescNext(d, k - 1, n);
    }
  }

  lemma {:induction false} DescAdd(d: nat, j: nat, k: nat, n: nat)
    requires d < n
    ensures Desc(d, j + k, n) == Desc(Desc(d, j, n), k, n)
    decreases j
  {
    if j > 0 {
      DescAdd(Next(d, n), j - 1, k, n);
    }
  }

  /** Fewer than `n` steps apart are different descriptors. */
  lemma DescApart(d: nat, j: nat, k: nat, n: nat)
    requires d < n && j < k < j + n
    ensures Desc(d, j, n) != Desc(d, k, n)
  {
    DescAdd(d, j, k - j, n);
    DescBelow(Desc(d, j, n), k - j, n);
  }

  /** `n` steps lead around the ring. */
  lemma DescAround(d: nat, k: nat, n: nat)
    requires d < n
    ensures Desc(d, k + n, n) == Desc(d, k, n)
  {
    DescAdd(d, k, n, n);
    DescBelow(Desc(d, k, n), n, n);
  }

  /** The first `len` bytes in the buffers of the ring from descriptor `d` on. */
  function FirstBytes(ring: seq<seq<byte>>, d: nat, len: nat, size: nat): seq<byte>
    requires size > 0 && d < |ring| && AllSized(ring, size)
    decreases len
  {
    if len <= size then ring[d][..len] else ring[d] + FirstBytes(ring, Next(d, |ring|), len - size, size)
  }

  /** Full buffers one after the other, and the beginning of the next one. */
  lemma {:induction false} FirstBytesAre(ring: seq<seq<byte>>, d: nat, full: seq<seq<byte>>, cur: seq<byte>, size: nat)
    requires size > 0 && d < |ring| && AllSized(ring, size) && |cur| <= size && (full != [] ==> cur != [])
    requires forall j: nat :: j < |full| ==> full[j] == ring[Desc(d, j, |ring|)]
    requires cur == ring[Desc(d, |full|, |ring|)][..|cur|]
    ensures FirstBytes(ring, d, |Concat(full) + cur|, size) == Concat(full) + cur
    decreases |full|
  {
    if full == [] {
      assert Concat(full) + cur == cur;
    } else {
      var e := Next(d, |ring|);
      assert full[0] == ring[Desc(d, 0, |ring|)] == ring[d];
      forall j: nat | j < |full[1..]|
        ensures full[1..][j] == ring[Desc(e, j, |ring|)]
      {
        assert full[1..][j] == full[j + 1] == ring[Desc(d, j + 1, |ring|)];
      }
      FirstBytesAre(ring, e, full[1..], cur, size);
      assert Concat(full) + cur == full[0] + (Concat(full[1..]) + cur);
      assert |Concat(full[1..]) + cur| > 0;
    }
  }

  /**
   The ring holds chunk `j` where transmission put it. A frame of more chunks than there are descriptors goes around,
   so only the last chunks are certain.
   */
  ghost predicate Sent(ring: seq<seq<byte>>, d: nat, chunks: seq<seq<byte>>)
    requires d < |ring|
  {
    forall j: nat :: j < |chunks| && |chunks| <= j + |ring| ==> chunks[j] <= ring[Desc(d, j, |ring|)]
  }

  /** A frame that fits the ring lies in its buffers from the first to the last byte, whatever the packet buffers were. */
  lemma Intact(ring: seq<seq<byte>>, d: nat, data: seq<byte>, size: nat)
    requires size > 0 && d < |ring| && AllSized(ring, size) && Sent(ring, d, Chunks(data, size))
    requires |data| <= |ring| * size
    ensures FirstBytes(ring, d, |data|, size) == data
  {
    var chunks := Chunks(data, size);
    ChunksFit(data, size, |ring|);
    ChunksShape(data, size);
    var full, cur := chunks[..|chunks| - 1], chunks[|chunks| - 1];
    assert chunks == full + [cur];
    forall j: nat | j < |full|
      ensures full[j] == ring[Desc(d, j, |ring|)]
    {
      assert full[j] == chunks[j] <= ring[Desc(d, j, |ring|)];
      assert |chunks[j]| == size == |ring[Desc(d, j, |ring|)]|;
    }
    assert cur <= ring[Desc(d, |full|, |ring|)];
    FirstBytesAre(ring, d, full, cur, size);
    ChunksConcat(data, size);
    ConcatSnoc(full, cur);
  }

  lemma {:induction false} ChunksShape(data: seq<byte>, size: nat)
    requires size > 0
    ensures var c := Chunks(data, size);
            && AllSized(c[..|c| - 1], size) && |c[|c| - 1]| <= size && (|c| > 1 ==> c[|c| - 1] != [])
    decreases |data|
  {
    if |data| > size {
      var c := Chunks(data, size);
      var r := Chunks(data[size..], size);
      ChunksShape(data[size..], size);
      assert c[|c| - 1] == r[|r| - 1];
      var full, rest := c[..|c| - 1], r[..|r| - 1];
      forall j | 0 <= j < |full|
        ensures |full[j]| == size
      {
        assert j > 0 ==> full[j] == rest[j - 1];
      }
      if |r| == 1 {
        assert r[0] == data[size..];
      }
    }
  }

  /** The last time the transmission of `m` chunks comes around to the descriptor it started with. */
  function LastRound(m: nat, n: nat): nat
    requires n > 0
  {
    if m <= n then 0 else LastRound(m - n, n) + n
  }

  lemma {:induction false} LastRoundIs(d: nat, m: nat, n: nat)
    requires d < n && m > 0
    ensures LastRound(m, n) < m <= LastRound(m, n) + n && Desc(d, LastRound(m, n), n) == d
    ensures m > n ==> LastRound(m, n) > 0
    decreases m
  {
    if m > n {
      LastRoundIs(d, m - n, n);
      DescAround(d, LastRound(m - n, n), n);
    }
  }

  /** A frame of which only the first byte differs from zero. */
  function Marked(len: nat): (r: seq<byte>)
    requires len > 0
    ensures |r| == len && r[0] == 1 && forall k :: 0 < k < len ==> r[k] == 0
  {
    seq(len, k requires 0 <= k < len => if k == 0 then 1 else 0)
  }

  lemma {:induction false} LaterChunks(data: seq<byte>, size: nat, j: nat)
    requires size > 0 && 0 < j < |Chunks(data, size)| && forall k :: 0 < k < |data| ==> data[k] == 0
    ensures Chunks(data, size)[j] != [] && Chunks(data, size)[j][0] == 0
    decreases j
  {
    var r := Chunks(data[size..], size);
    if j == 1 {
      assert r[0] == if |data[size..]| <= size then data[size..] else data[size..][..size];
    } else {
      LaterChunks(data[size..], size, j - 1);
    }
  }

  lemma FirstOfBytes(ring: seq<seq<byte>>, d: nat, len: nat, size: nat)
    requires size > 0 && d < |ring| && AllSized(ring, size) && len > 0
    ensures FirstBytes(ring, d, len, size) != [] && FirstBytes(ring, d, len, size)[0] == ring[d][0]
  {
  }

  /** A frame longer than the ring overwrites itself: there is one of every such length that does not arrive. */
  lemma Overwritten(ring: seq<seq<byte>>, d: nat, len: nat, size: nat)
    requires size > 0 && d < |ring| && AllSized(ring, size) && len > |ring| * size
    requires Sent(ring, d, Chunks(Marked(len), size))
    ensures FirstBytes(ring, d, len, size) != Marked(len)
  {
    var data := Marked(len);
    var chunks := Chunks(data, size);
    ChunksFit(data, size, |ring|);
    var j := LastRound(|chunks|, |ring|);
    LastRoundIs(d, |chunks|, |ring|);
    LaterChunks(data, size, j);
    assert chunks[j] <= ring[Desc(d, j, |ring|)];
    FirstOfBytes(ring, d, len, size);
  }

  // ----- the code -----

  /** tot_len of a chain. */
  function TotalLength(chain: seq<array<byte>>): nat {
    if chain == [] then 0 else chain[0].Length + TotalLength(chain[1..])
  }

  /** What a chain of packet buffers holds. */
  ghost function Payloads(chain: seq<array<byte>>): (r: seq<byte>)
    reads chain
    ensures |r| == TotalLength(chain)
  {
    if chain == [] then [] else chain[0][..] + Payloads(chain[1..])
  }

  ghost predicate Separate(chain: seq<array<byte>>) {
    forall i, j :: 0 <= i < j < |chain| ==> chain[i] != chain[j]
  }

  method CopyPart(dst: array<byte>, to: nat, src: array<byte>, from: nat, count: nat)
    requires dst != src && to + count <= dst.Length && from + count <= src.Length
    modifies dst
    ensures dst[..] == old(dst[..to]) + src[from..from + count] + old(dst[to + count..])
  {
    for i := 0 to count
      invariant dst[..] == old(dst[..to]) + src[from..from + i] + old(dst[to + i..])
    {
      ghost var m := dst[..];
      dst[to + i] := src[from + i];
      assert dst[..] == m[to + i := src[from + i]];
      assert src[from..from + i + 1] == src[from..from + i] + [src[from + i]];
    }
  }

  lemma {:induction false} PayloadsSnoc(chain: seq<array<byte>>, i: nat)
    requires i < |chain|
    ensures Payloads(chain[..i + 1]) == Payloads(chain[..i]) + chain[i][..]
    decreases i
  {
    if i == 0 {
      assert chain[..1] == [chain[0]] && [chain[0]][1..] == [] && chain[..0] == [];
      assert chain[0][..] + [] == chain[0][..] == [] + chain[0][..];
    } else {
      PayloadsSnoc(chain[1..], i - 1);
      assert chain[..i + 1][1..] == chain[1..][..i] && chain[..i][1..] == chain[1..][..i - 1];
      var a, b, c := chain[0][..], Payloads(chain[1..][..i - 1]), chain[i][..];
      assert a + (b + c) == (a + b) + c;
    }
  }

  lemma {:induction false} PayloadsSplit(chain: seq<array<byte>>, i: nat)
    requires i <= |chain|
    ensures Payloads(chain) == Payloads(chain[..i]) + Payloads(chain[i..])
    decreases i
  {
    if i == 0 {
      assert chain[0..] == chain && chain[..0] == [];
      assert [] + Payloads(chain) == Payloads(chain);
    } else {
      PayloadsSplit(chain[1..], i - 1);
      assert chain[..i][1..] == chain[1..][..i - 1] && chain[1..][i - 1..] == chain[i..];
      var a, b, c := chain[0][..], Payloads(chain[1..][..i - 1]), Payloads(chain[i..]);
      assert a + (b + c) == (a + b) + c;
    }
  }

  class DescriptorRing {
    const size: nat              // ETH_TX_BUF_SIZE or ETH_RX_BUF_SIZE
    const bufs: seq<array<byte>> // Buffer1Addr of each descriptor; Buffer2NextDescAddr leads to the next one
    var own: seq<bool>           // the OWN bits: true while the DMA has the descriptor

    ghost predicate Valid()
      reads this
    {
      && size > 0 && |own| == |bufs| > 0 && Separate(bufs)
      && forall d :: 0 <= d < |bufs| ==> bufs[d].Length == size
    }

    ghost function Contents(): (ring: seq<seq<byte>>)
      requires Valid()
      reads this, bufs
      ensures |ring| == |bufs| && AllSized(ring, size)
      ensures forall d :: 0 <= d < |bufs| ==> ring[d] == bufs[d][..]
    {
      seq(|bufs|, d requires 0 <= d < |bufs| reads bufs => bufs[d][..])
    }

    /** `full` buffers behind, `cur` in the one at `d`: what is still sure to be there. */
    ghost predicate Sending(first: nat, d: nat, full: seq<seq<byte>>, cur: seq<byte>)
      requires Valid()
      reads this, bufs
    {
      && first < |bufs| && d == Desc(first, |full|, |bufs|)
      && AllSized(full, size) && |cur| <= size && bufs[d][..|cur|] == cur
      && forall j: nat :: j < |full| && |full| < j + |bufs| ==> bufs[Desc(first, j, |bufs|)][..] == full[j]
    }

    ghost predicate NoneOwned(first: nat, k: nat)
      requires Valid() && first < |bufs|
      reads this
    {
      forall j: nat :: j < k ==> !own[Desc(first, j, |bufs|)]
    }

    /** Copies `count` bytes of a packet buffer behind those already in the transmit buffer; `base` was sent before. */
    method Append(ghost first: nat, d: nat, off: nat, q: array<byte>, from: nat, count: nat,
                  ghost full: seq<seq<byte>>, ghost cur: seq<byte>, ghost base: seq<byte>)
      requires Valid() && Sending(first, d, full, cur)
      requires q !in bufs && from + count <= q.Length && off == |cur| && off + count <= size
      requires Concat(full) + cur == base + q[..from]
      modifies bufs[d]
      ensures Sending(first, d, full, cur + q[from..from + count])
      ensures Concat(full) + (cur + q[from..from + count]) == base + q[..from + count]
    {
      hide Concat;
      CopyPart(bufs[d], off, q, from, count);
      forall j: nat | j < |full| && |full| < j + |bufs|
        ensures bufs[Desc(first, j, |bufs|)][..] == full[j]
      {
        DescApart(first, j, |full|, |bufs|);
      }
      Onwards(Concat(full), cur, q[from..from + count], base, q[..from]);
      assert q[..from] + q[from..from + count] == q[..from + count];
    }

    /** One buffer is full and the next one begun. */
    lemma Advance(first: nat, d: nat, full: seq<seq<byte>>, cur: seq<byte>)
      requires Valid() && Sending(first, d, full, cur) && |cur| == size
      ensures Sending(first, Next(d, |bufs|), full + [cur], [])
    {
      DescNext(first, |full|, |bufs|);
      forall j: nat | j < |full + [cur]| && |full + [cur]| < j + |bufs|
        ensures bufs[Desc(first, j, |bufs|)][..] == (full + [cur])[j]
      {
        if j == |full| {
          assert bufs[d][..|cur|] == bufs[d][..];
        }
      }
    }

    lemma Onwards(a: seq<byte>, b: seq<byte>, part: seq<byte>, x: seq<byte>, y: seq<byte>)
      requires a + b == x + y
      ensures a + (b + part) == x + (y + part)
    {
      assert a + (b + part) == (a + b) + part == (x + y) + part == x + (y + part);
    }

    lemma MoreNotOwned(first: nat, k: nat)
      requires Valid() && first < |bufs| && NoneOwned(first, k) && !own[Desc(first, k, |bufs|)]
      ensures NoneOwned(first, k + 1)
    {
    }

    /** Everything that holds when a full buffer is left behind for the next one. */
    lemma StepOn(first: nat, d: nat, full: seq<seq<byte>>, cur: seq<byte>)
      requires Valid() && Sending(first, d, full, cur) && |cur| == size && NoneOwned(first, |full|) && !own[d]
      ensures Sending(first, Next(d, |bufs|), full + [cur], []) && NoneOwned(first, |full + [cur]|)
      ensures Concat(full + [cur]) + [] == Concat(full) + cur
    {
      Advance(first, d, full, cur);
      MoreNotOwned(first, |full|);
      ConcatSnoc(full, cur);
    }

    /**
     The body of the transmit loop for one packet buffer. On success it is all in the ring; otherwise the descriptor
     after the `full` buffers was not ours, and `cur` is what could not be sent.
     */
    method SendBuffer(ghost first: nat, start: nat, offset: nat, q: array<byte>, ghost full0: seq<seq<byte>>,
                      ghost cur0: seq<byte>)
      returns (ok: bool, d: nat, bufferoffset: nat, sent: nat, ghost full: seq<seq<byte>>, ghost cur: seq<byte>)
      requires Valid() && Sending(first, start, full0, cur0) && q !in bufs
      requires offset == |cur0| && (full0 != [] ==> cur0 != []) && NoneOwned(first, |full0|)
      modifies bufs
      ensures first < |bufs| && NoneOwned(first, |full|) && ok == !own[Desc(first, |full|, |bufs|)]
      ensures AllSized(full, size) && Concat(full) + cur == Concat(full0) + cur0 + q[..]
      ensures full != [] ==> cur != []
      ensures ok ==> Sending(first, d, full, cur) && bufferoffset == |cur| && sent == q.Length
    {
      hide Desc, Concat, NoneOwned;
      ok, d, bufferoffset, sent, full, cur := true, start, offset, 0, full0, cur0;
      ghost var base := Concat(full0) + cur0;
      if own[d] {
        cur := cur0 + q[..];
        assert Concat(full0) + (cur0 + q[..]) == base + q[..];
        return false, d, bufferoffset, 0, full, cur;
      }
      var byteslefttocopy: nat, payloadoffset: nat := q.Length, 0;
      assert base + q[..0] == base;
      while byteslefttocopy + bufferoffset > size
        invariant payloadoffset + byteslefttocopy == q.Length && sent == payloadoffset && bufferoffset == |cur|
        invariant Sending(first, d, full, cur) && NoneOwned(first, |full|) && !own[d]
        invariant full != [] ==> cur != [] || byteslefttocopy > 0
        invariant Concat(full) + cur == base + q[..payloadoffset]
        decreases byteslefttocopy + if bufferoffset == size then 1 else 0
      {
        var room := size - bufferoffset;
        Append(first, d, bufferoffset, q, payloadoffset, room, full, cur, base);
        cur := cur + q[payloadoffset..payloadoffset + room];
        StepOn(first, d, full, cur);
        d, full, cur := Next(d, |bufs|), full + [cur], [];
        byteslefttocopy, payloadoffset, sent := byteslefttocopy - room, payloadoffset + room, sent + room;
        bufferoffset := 0;
        if own[d] {
          cur := q[payloadoffset..];
          assert Concat(full) == Concat(full) + [];
          assert base + q[..payloadoffset] + q[payloadoffset..] == base + q[..];
          return false, d, bufferoffset, sent, full, cur;
        }
      }
      Append(first, d, bufferoffset, q, payloadoffset, byteslefttocopy, full, cur, base);
      assert q[..payloadoffset + byteslefttocopy] == q[..];
      cur := cur + q[payloadoffset..payloadoffset + byteslefttocopy];
      bufferoffset := bufferoffset + byteslefttocopy;
      sent := sent + byteslefttocopy;
    }

    /** A frame that could not be sent needs the descriptor that was not ours. */
    lemma Refused(first: nat, data: seq<byte>, full: seq<seq<byte>>, cur: seq<byte>, rest: seq<byte>)
      requires Valid() && first < |bufs| && AllSized(full, size) && own[Desc(first, |full|, |bufs|)]
      requires data == Concat(full) + cur + rest && (full != [] ==> cur != [])
      ensures |full| < |Chunks(data, size)| && !NoneOwned(first, |Chunks(data, size)|)
    {
      assert data == Concat(full) + (cur + rest);
      if full != [] {
        ChunksExceed(full, cur + rest, size);
      }
    }

    lemma AllSent(first: nat, d: nat, full: seq<seq<byte>>, cur: seq<byte>)
      requires Valid() && Sending(first, d, full, cur) && (full != [] ==> cur != [])
      requires NoneOwned(first, |full|) && !own[d]
      ensures var data := Concat(full) + cur;
              NoneOwned(first, |Chunks(data, size)|) && Sent(Contents(), first, Chunks(data, size))
    {
      ChunksAre(full, cur, size);
      MoreNotOwned(first, |full|);
      var chunks := full + [cur];
      forall j: nat | j < |chunks| && |chunks| <= j + |bufs|
        ensures chunks[j] <= Contents()[Desc(first, j, |bufs|)]
      {
        if j < |full| {
          assert bufs[Desc(first, j, |bufs|)][..] == full[j];
        } else {
          assert cur == bufs[d][..|cur|];
        }
      }
    }

    lemma NothingToSend(first: nat)
      requires Valid() && first < |bufs|
      ensures Sent(Contents(), first, Chunks([], size)) && Sending(first, first, [], []) && NoneOwned(first, 0)
    {
    }

    /**
     rt_stm32_eth_tx up to the hand-over to the DMA: it succeeds exactly when none of the descriptors the frame needs
     belongs to the DMA, and then the frame is in the ring.
     */
    method Tx(first: nat, p: seq<array<byte>>) returns (ok: bool, framelength: nat)
      requires Valid() && first < |bufs| && forall q :: q in p ==> q !in bufs
      modifies bufs
      ensures ok <==> p == [] || NoneOwned(first, |Chunks(Payloads(p), size)|)
      ensures ok ==> framelength == TotalLength(p) && Sent(Contents(), first, Chunks(Payloads(p), size))
      ensures ok && framelength <= |bufs| * size ==> FirstBytes(Contents(), first, framelength, size) == Payloads(p)
    {
      hide Desc, Concat, Chunks, Sending, Sent, Payloads, FirstBytes, Contents, NoneOwned;
      ghost var full, cur := [], [];
      var d, bufferoffset := first, 0;
      ok, framelength := true, 0;
      NothingToSend(first);
      EmptyPayloads(p);
      for i := 0 to |p|
        invariant Sending(first, d, full, cur) && bufferoffset == |cur| && NoneOwned(first, |full|)
        invariant full != [] ==> cur != []
        invariant i > 0 ==> !own[Desc(first, |full|, |bufs|)]
        invariant Payloads(p[..i]) == Concat(full) + cur && framelength == |Payloads(p[..i])|
      {
        ghost var before := Payloads(p[..i]);
        assert forall j :: 0 <= j < |p[..i]| ==> p[..i][j] in p && p[..i][j] !in bufs;
        var sent;
        ok, d, bufferoffset, sent, full, cur := SendBuffer(first, d, bufferoffset, p[i], full, cur);
        assert Payloads(p[..i]) == before;
        PayloadsSnoc(p, i);
        if !ok {
          PayloadsSplit(p, i + 1);
          Refused(first, Payloads(p), full, cur, Payloads(p[i + 1..]));
          return false, framelength;
        }
        framelength := framelength + sent;
      }
      assert p[..|p|] == p;
      Finished(first, d, full, cur, Payloads(p), p != []);
    }

    lemma Finished(first: nat, d: nat, full: seq<seq<byte>>, cur: seq<byte>, data: seq<byte>, some: bool)
      requires Valid() && Sending(first, d, full, cur) && (full != [] ==> cur != [])
      requires NoneOwned(first, |full|) && (some ==> !own[Desc(first, |full|, |bufs|)])
      requires data == Concat(full) + cur && (!some ==> data == [])
      ensures some ==> NoneOwned(first, |Chunks(data, size)|)
      ensures Sent(Contents(), first, Chunks(data, size))
      ensures |data| <= |bufs| * size ==> FirstBytes(Contents(), first, |data|, size) == data
    {
      if some {
        AllSent(first, d, full, cur);
      } else {
        NothingToSend(first);
      }
      if |data| <= |bufs| * size {
        Intact(Contents(), first, data, size);
      }
    }

    // ----- reception -----

    /** `full` buffers were read, and the bytes `cur` of the one at `d`. */
    ghost predicate Reading(first: nat, d: nat, full: seq<seq<byte>>, cur: seq<byte>)
      requires Valid()
      reads this, bufs
    {
      && first < |bufs| && d == Desc(first, |full|, |bufs|)
      && AllSized(full, size) && |cur| <= size && bufs[d][..|cur|] == cur
      && forall j: nat :: j < |full| ==> bufs[Desc(first, j, |bufs|)][..] == full[j]
    }

    lemma ReadOn(first: nat, d: nat, full: seq<seq<byte>>, cur: seq<byte>, count: nat)
      requires Valid() && Reading(first, d, full, cur) && |cur| + count <= size
      ensures Reading(first, d, full, cur + bufs[d][|cur|..|cur| + count])
      ensures |cur| + count == size ==>
                Reading(first, Next(d, |bufs|), full + [cur + bufs[d][|cur|..|cur| + count]], [])
    {
      var more := cur + bufs[d][|cur|..|cur| + count];
      assert bufs[d][..|more|] == more;
      if |cur| + count == size {
        DescNext(first, |full|, |bufs|);
        assert bufs[d][..] == more;
      }
    }

    /** The body of the receive loop for one packet buffer. */
    method ReceiveBuffer(ghost first: nat, start: nat, offset: nat, q: array<byte>, ghost full0: seq<seq<byte>>,
                         ghost cur0: seq<byte>)
      returns (d: nat, bufferoffset: nat, ghost full: seq<seq<byte>>, ghost cur: seq<byte>)
      requires Valid() && Reading(first, start, full0, cur0) && q !in bufs
      requires offset == |cur0| && (full0 != [] ==> cur0 != [])
      modifies q
      ensures Reading(first, d, full, cur) && bufferoffset == |cur| && (full != [] ==> cur != [])
      ensures Concat(full) + cur == Concat(full0) + cur0 + q[..]
    {
      hide Desc, Concat;
      d, bufferoffset, full, cur := start, offset, full0, cur0;
      var byteslefttocopy: nat, payloadoffset: nat := q.Length, 0;
      assert Concat(full0) + cur0 + q[..0] == Concat(full0) + cur0;
      while byteslefttocopy + bufferoffset > size
        invariant payloadoffset + byteslefttocopy == q.Length && bufferoffset == |cur|
        invariant Reading(first, d, full, cur)
        invariant full != [] ==> cur != [] || byteslefttocopy > 0
        invariant Concat(full) + cur == Concat(full0) + cur0 + q[..payloadoffset]
        decreases byteslefttocopy + if bufferoffset == size then 1 else 0
      {
        var room := size - bufferoffset;
        ghost var part, taken := bufs[d][bufferoffset..bufferoffset + room], q[..payloadoffset];
        CopyPart(q, payloadoffset, bufs[d], bufferoffset, room);
        assert q[..payloadoffset + room] == taken + part;
        Onwards(Concat(full), cur, part, Concat(full0) + cur0, taken);
        ReadOn(first, d, full, cur, room);
        ConcatSnoc(full, cur + part);
        d, full, cur := Next(d, |bufs|), full + [cur + part], [];
        byteslefttocopy, payloadoffset, bufferoffset := byteslefttocopy - room, payloadoffset + room, 0;
        assert Concat(full) + [] == Concat(full);
      }
      ghost var part, taken := bufs[d][bufferoffset..bufferoffset + byteslefttocopy], q[..payloadoffset];
      CopyPart(q, payloadoffset, bufs[d], bufferoffset, byteslefttocopy);
      assert q[..] == taken + part;
      Onwards(Concat(full), cur, part, Concat(full0) + cur0, taken);
      ReadOn(first, d, full, cur, byteslefttocopy);
      cur := cur + part;
      bufferoffset := bufferoffset + byteslefttocopy;
    }

    lemma ReadAll(first: nat, d: nat, full: seq<seq<byte>>, cur: seq<byte>)
      requires Valid() && Reading(first, d, full, cur) && (full != [] ==> cur != [])
      ensures FirstBytes(Contents(), first, |Concat(full) + cur|, size) == Concat(full) + cur
    {
      FirstBytesAre(Contents(), first, full, cur, size);
    }

    lemma NothingRead(first: nat)
      requires Valid() && first < |bufs|
      ensures Reading(first, first, [], [])
    {
    }

    /** The copy loop of rt_stm32_eth_rx: any chain of packet buffers is filled with the first bytes of the ring. */
    method Fill(first: nat, p: seq<array<byte>>)
      requires Valid() && first < |bufs| && Separate(p) && forall q :: q in p ==> q !in bufs
      modifies p
      ensures Payloads(p) == FirstBytes(Contents(), first, TotalLength(p), size)
      ensures unchanged(bufs)
    {
      hide Desc, Concat, Reading, Payloads, FirstBytes;
      assert forall k :: 0 <= k < |bufs| ==> bufs[k] !in p;
      ghost var full, cur := [], [];
      var d, bufferoffset := first, 0;
      NothingRead(first);
      EmptyPayloads(p);
      for i := 0 to |p|
        invariant Reading(first, d, full, cur) && bufferoffset == |cur| && (full != [] ==> cur != [])
        invariant Payloads(p[..i]) == Concat(full) + cur
      {
        ghost var before := Payloads(p[..i]);
        assert forall a :: a in p[..i] ==> a != p[i];
        d, bufferoffset, full, cur := ReceiveBuffer(first, d, bufferoffset, p[i], full, cur);
        PayloadsSnoc(p, i);
        assert Payloads(p[..i]) == before;
      }
      assert p[..|p|] == p;
      ReadAll(first, d, full, cur);
    }

    /** The descriptors of the frame go back to the DMA. */
    method Release(first: nat, segCount: nat)
      requires Valid() && first < |bufs|
      modifies this`own
      ensures Valid()
      ensures forall d: nat :: d < |bufs| ==>
                (own[d] <==> old(own[d]) || exists j: nat :: j < segCount && Desc(first, j, |bufs|) == d)
    {
      var d := first;
      for i := 0 to segCount
        invariant Valid() && d == Desc(first, i, |bufs|)
        invariant forall e: nat :: e < |bufs| ==>
                    (own[e] <==> old(own[e]) || exists j: nat :: j < i && Desc(first, j, |bufs|) == e)
      {
        DescNext(first, i, |bufs|);
        own := own[d := true];
        d := Next(d, |bufs|);
      }
    }
  }

  lemma EmptyPayloads(p: seq<array<byte>>)
    ensures Payloads(p[..0]) == Concat([]) + []
  {
  }

  /**
   What was transmitted is received: over the same ring, reception into any chain of the same total length undoes
   transmission from any chain, as long as the frame fits the ring.
   */
  method Loopback(ring: DescriptorRing, first: nat, from: seq<array<byte>>, to: seq<array<byte>>)
    returns (ok: bool, framelength: nat)
    requires ring.Valid() && first < |ring.bufs| && Separate(to)
    requires forall q :: q in from + to ==> q !in ring.bufs
    requires forall q :: q in from ==> q !in to
    requires TotalLength(from) == TotalLength(to) <= |ring.bufs| * ring.size
    modifies ring.bufs, to
    ensures ok ==> Payloads(to) == Payloads(from) == old(Payloads(from))
  {
    hide Payloads, FirstBytes, Chunks, Sent;
    ghost var data := Payloads(from);
    assert forall j :: 0 <= j < |from| ==> from[j] in from + to && from[j] !in ring.bufs && from[j] !in to;
    assert forall j :: 0 <= j < |to| ==> to[j] in from + to && to[j] !in ring.bufs;
    ok, framelength := ring.Tx(first, from);
    if ok {
      ghost var sent := ring.Contents();
      ring.Fill(first, to);
      assert ring.Contents() == sent;
    }
  }
}
