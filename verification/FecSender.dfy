/** The sending half of the datagram lane: `fecSender` and `FECEncoder`. */
module FecSender {
  import opened Bytes
  import opened FecBlocks

  const MARKER_RAW: byte := 0xFE
  const POOL_SIZE: nat := 2048
  const BLOCK_WAIT_MS: int := 30

  // ---- Packet buffers -----------------------------------------------------

  /** A slice of a pooled buffer: its bytes and how far it can be extended in place. */
  datatype Buf = Buf(bytes: seq<byte>, capacity: nat)

  /** `getPacketBuf`: a pooled buffer when one is large enough, else a fresh one. */
  method GetBuf(bytes: seq<byte>) returns (b: Buf)
    ensures b.bytes == bytes && |bytes| <= b.capacity && (|bytes| <= POOL_SIZE ==> POOL_SIZE <= b.capacity)
  {
    var pooled: nat :| POOL_SIZE <= pooled;
    b := Buf(bytes, if pooled < |bytes| then |bytes| else pooled);
  }

  /** `shard[:size]` and the loop that zeroes what the reslice exposed.  The
      capacity must suffice, or the reslice would fail. */
  method Extend(b: Buf, size: nat) returns (s: seq<byte>)
    requires size <= b.capacity
    ensures s == PadTo(b.bytes, size)
  {
    s := b.bytes;
    if |s| >= size {
      return;
    }
    while |s| < size
      invariant |b.bytes| <= |s| <= size
      invariant s[..|b.bytes|] == b.bytes
    {
      var stale: byte := *;
      s := s + [stale];
    }
    for j := |b.bytes| to size
      invariant |s| == size && s[..|b.bytes|] == b.bytes
      invariant forall k :: |b.bytes| <= k < j ==> s[k] == 0
    {
      s := s[j := 0];
    }
  }

  // ---- What has been sent -------------------------------------------------

  /** The body of packet number `n`, given the completed blocks and the open one. */
  function BodyOf(code: Code, blocks: seq<seq<Payload>>, open: seq<Payload>, n: nat): seq<byte> {
    var b, i := n / BLOCK, n % BLOCK;
    if b < |blocks| then
      if |blocks[b]| == K && |Word(code, blocks[b])| == BLOCK then Body(code, blocks[b], i) else []
    else if i < |open| then ShardOf(open[i]) else []
  }

  ghost predicate AllValid(blocks: seq<seq<Payload>>) {
    forall b {:trigger ValidBlock(blocks[b])} :: 0 <= b < |blocks| ==> ValidBlock(blocks[b])
  }

  lemma {:induction false} HistoryGrows(blocks: seq<seq<Payload>>, open: seq<Payload>, p: Payload)
    requires ValidHistory(blocks, open) && |p| <= MAX_PROTECTED
    ensures |open| + 1 < K ==> ValidHistory(blocks, open + [p])
    ensures |open| + 1 == K ==> AllValid(blocks + [open + [p]])
  {
    var grown := open + [p];
    forall i | 0 <= i < |grown| ensures |grown[i]| <= MAX_PROTECTED {
      if i < |open| {
        assert grown[i] == open[i];
      }
    }
  }

  ghost predicate ValidHistory(blocks: seq<seq<Payload>>, open: seq<Payload>) {
    && AllValid(blocks) && |open| < K && forall i :: 0 <= i < |open| ==> |open[i]| <= MAX_PROTECTED
  }

  /** Packet number `n` is the `n`-th packet sent. */
  ghost predicate Sent(code: Code, blocks: seq<seq<Payload>>, open: seq<Payload>, sent: seq<seq<byte>>) {
    && |sent| == BLOCK * |blocks| + |open|
    && forall n {:trigger SentAt(code, blocks, open, sent, n)} :: 0 <= n < |sent| ==> SentAt(code, blocks, open, sent, n)
  }

  predicate SentAt(code: Code, blocks: seq<seq<Payload>>, open: seq<Payload>, sent: seq<seq<byte>>, n: nat)
    requires n < |sent|
  {
    sent[n] == Packet(n, BodyOf(code, blocks, open, n))
  }

  /** The non-empty payloads in order: what the receiver should deliver. */
  function NonEmpty(ps: seq<Payload>): seq<Payload> {
    if ps == [] then []
    else NonEmpty(ps[..|ps| - 1]) + Kept(ps[|ps| - 1])
  }

  function AllOf(blocks: seq<seq<Payload>>): seq<Payload> {
    if blocks == [] then [] else AllOf(blocks[..|blocks| - 1]) + NonEmpty(blocks[|blocks| - 1])
  }

  function Accepted(blocks: seq<seq<Payload>>, open: seq<Payload>): seq<Payload> {
    AllOf(blocks) + NonEmpty(open)
  }

  /** A block closed early: the rest is empty payloads. */
  function Filled(open: seq<Payload>): seq<Payload>
    requires |open| <= K
  {
    open + Blanks(K - |open|)
  }

  function Blanks(n: nat): seq<Payload> {
    seq(n, _ => [])
  }

  /** The completed blocks and the open one after a flush. */
  function Flushed(blocks: seq<seq<Payload>>, open: seq<Payload>): (seq<seq<Payload>>, seq<Payload>)
    requires |open| <= K
  {
    if open == [] then (blocks, []) else (blocks + [Filled(open)], [])
  }

  /** And after one more payload. */
  function Appended(blocks: seq<seq<Payload>>, open: seq<Payload>, p: Payload): (seq<seq<Payload>>, seq<Payload>) {
    if |open| + 1 < K then (blocks, open + [p]) else (blocks + [open + [p]], [])
  }

  function Kept(p: Payload): seq<Payload> {
    if p == [] then [] else [p]
  }

  // ---- How payloads fill the blocks ---------------------------------------

  /** All payloads of the blocks, empty ones included. */
  ghost function Flat(blocks: seq<seq<Payload>>): seq<Payload> {
    if blocks == [] then [] else Flat(blocks[..|blocks| - 1]) + blocks[|blocks| - 1]
  }

  ghost function Sending(ps: seq<Payload>): (seq<seq<Payload>>, seq<Payload>) {
    if ps == [] then ([], [])
    else
      var (blocks, open) := Sending(ps[..|ps| - 1]);
      Appended(blocks, open, ps[|ps| - 1])
  }

  /** Payloads sent without a pause fill blocks of ten in order, and the open block
      holds the remainder. */
  lemma {:induction false} PayloadsFillBlocks(ps: seq<Payload>)
    ensures var (blocks, open) := Sending(ps);
      && Flat(blocks) + open == ps && |blocks| == |ps| / 10 && |open| == |ps| % 10
      && forall i :: 0 <= i < |blocks| ==> |blocks[i]| == 10
  {
    if ps == [] {
    } else {
      var front, p := ps[..|ps| - 1], ps[|ps| - 1];
      PayloadsFillBlocks(front);
      var (blocks, open) := Sending(front);
      AppendedIs(blocks, open, p);
      assert ps == front + [p];
    }
  }

  lemma {:induction false} AppendedIs(blocks: seq<seq<Payload>>, open: seq<Payload>, p: Payload)
    ensures var (b, o) := Appended(blocks, open, p);
      && Flat(b) + o == Flat(blocks) + open + [p]
      && (|open| < 9 ==> b == blocks && |o| == |open| + 1)
      && (|open| == 9 ==> |b| == |blocks| + 1 && b[..|blocks|] == blocks && |b[|blocks|]| == 10 && o == [])
  {
    var grown := open + [p];
    FlatSnoc(blocks, grown);
    assert Flat(blocks) + grown == Flat(blocks) + open + [p] && Flat(blocks) + grown + [] == Flat(blocks) + grown;
  }

  lemma {:induction false} FlatSnoc(blocks: seq<seq<Payload>>, b: seq<Payload>)
    ensures Flat(blocks + [b]) == Flat(blocks) + b
  {
    assert (blocks + [b])[..|blocks|] == blocks;
  }

  /** A flush completes an open block with empty payloads and does nothing else. */
  lemma {:induction false} FlushedIs(blocks: seq<seq<Payload>>, open: seq<Payload>)
    requires |open| < 10
    ensures var (b, o) := Flushed(blocks, open);
      && o == [] && (open == [] ==> b == blocks)
      && (open != [] ==> |b| == |blocks| + 1 && |b[|blocks|]| == 10)
      && (open != [] ==> Flat(b) == Flat(blocks) + (open + seq(10 - |open|, _ => [])))
  {
    FlatSnoc(blocks, Filled(open));
  }

  lemma {:induction false} Join(a: seq<seq<byte>>, b: seq<seq<byte>>, c: seq<seq<byte>>)
    ensures a + b + c == a + (b + c)
  {
  }

  lemma {:induction false} DataSent(code: Code, blocks: seq<seq<Payload>>, open: seq<Payload>, sent: seq<seq<byte>>, p: Payload)
    requires Sent(code, blocks, open, sent) && |open| < K
    ensures Sent(code, blocks, open + [p], sent + [Packet(|sent|, ShardOf(p))])
  {
    var sent' := sent + [Packet(|sent|, ShardOf(p))];
    forall n | 0 <= n < |sent'| ensures SentAt(code, blocks, open + [p], sent', n) {
      if n < |sent| {
        assert SentAt(code, blocks, open, sent, n);
        NumberParts(n, |blocks|, |open|);
      } else {
        NumberParts(n, |blocks|, |open| + 1);
      }
    }
  }

  /** The encoder's shards are those of the open block. */
  ghost predicate Collected(shards: seq<Buf>, open: seq<Payload>) {
    |open| <= K && |shards| == BLOCK && forall i :: 0 <= i < |open| ==> HoldsShard(shards[i], open[i])
  }

  ghost predicate HoldsShard(b: Buf, p: Payload) {
    b.bytes == ShardOf(p) && POOL_SIZE <= b.capacity && |p| <= MAX_PROTECTED
  }

  lemma {:induction false} NumberParts(n: nat, blocks: nat, open: nat)
    requires n < BLOCK * blocks + open && open <= BLOCK
    ensures n / BLOCK <= blocks
    ensures n / BLOCK == blocks ==> n % BLOCK == n - BLOCK * blocks
    ensures n / BLOCK < blocks <==> n < BLOCK * blocks
  {
  }

  lemma {:induction false} ParitySent(code: Code, blocks: seq<seq<Payload>>, open: seq<Payload>, sent: seq<seq<byte>>, parity: seq<seq<byte>>)
    requires Mds(code) && Sent(code, blocks, open, sent) && |open| == K && |parity| == M
    requires |Word(code, open)| == BLOCK
    requires forall i :: 0 <= i < M ==> parity[i] == Packet(|sent| + i, Word(code, open)[K + i])
    ensures Sent(code, blocks + [open], [], sent + parity)
  {
    var sent' := sent + parity;
    forall n | 0 <= n < |sent'| ensures SentAt(code, blocks + [open], [], sent', n) {
      NumberParts(n, |blocks|, BLOCK);
      if n < |sent| {
        assert SentAt(code, blocks, open, sent, n);
      } else {
        assert sent'[n] == parity[n - |sent|];
      }
    }
  }

  // ---- The sender ---------------------------------------------------------

  class Sender {
    const code: Code
    var shards: seq<Buf>
    var idx: nat
    var shardSize: nat
    var blockStart: nat
    var cnt: nat
    var lastAt: int

    ghost var blocks: seq<seq<Payload>>
    ghost var open: seq<Payload>
    ghost var sent: seq<seq<byte>>

    /** The encoder agrees with the sender's count, block starts are multiples of
        fourteen, and everything sent so far is right. */
    ghost predicate Valid()
      reads this
    {
      Mds(code) && Encoder() && cnt == idx && cnt < K && ValidHistory(blocks, open) && History()
    }

    ghost predicate Encoder()
      reads this
    {
      idx == |open| && shardSize == ShardSize(open) && Collected(shards, open)
    }

    ghost predicate History()
      reads this
    {
      blockStart == BLOCK * |blocks| && Sent(code, blocks, open, sent)
    }

    constructor (code: Code)
      requires Mds(code)
      ensures Valid() && blocks == [] && open == [] && sent == [] && this.code == code
    {
      this.code := code;
      shards := seq(BLOCK, _ => Buf([], 0));
      idx, shardSize, blockStart, cnt, lastAt := 0, 0, 0, 0, 0;
      blocks, open, sent := [], [], [];
    }

    /** `EncodeFEC`: the data packet; its shard is kept for the parity. */
    method EncodeFec(data: Payload, number: nat) returns (packet: seq<byte>)
      requires Encoder() && idx < K && |data| <= MAX_PROTECTED && History() && number == |sent|
      modifies this`shards, this`idx, this`shardSize, this`open, this`sent
      ensures Encoder() && History() && packet == Packet(number, ShardOf(data))
      ensures open == old(open) + [data] && sent == old(sent) + [packet]
      ensures Accepted(blocks, open) == Accepted(blocks, old(open)) + Kept(data)
    {
      var shard := BE16(|data|) + data;
      packet := [MARKER_FEC] + BE32(number) + [K, M] + shard;
      assert shard == ShardOf(data) && packet == Packet(|sent|, shard);
      DataSent(code, blocks, open, sent, data);
      KeepShard(shard, data);
      sent := sent + [packet];
    }

    method KeepShard(shard: seq<byte>, ghost data: Payload)
      requires Encoder() && idx < K && shard == ShardOf(data) && |data| <= MAX_PROTECTED
      modifies this`shards, this`idx, this`shardSize, this`open
      ensures Encoder() && open == old(open) + [data]
    {
      var buf := GetBuf(shard);
      shards := shards[idx := buf];
      if |buf.bytes| > shardSize {
        shardSize := |buf.bytes|;
      }
      idx := idx + 1;
      open := open + [data];
    }

    /** `GetParityPackets` for a full block; the encoder starts over. */
    method ParityPackets(base: nat) returns (packets: seq<seq<byte>>)
      requires Mds(code) && Encoder() && idx == K && History() && base == |sent|
      modifies this`shards, this`idx, this`shardSize, this`blocks, this`open, this`sent
      ensures Encoder() && Sent(code, blocks, open, sent) && blocks == old(blocks) + [old(open)] && open == []
      ensures sent == old(sent) + packets
    {
      SizeLimit(open);
      var data := PadShards(shards[..K], shardSize);
      assert data == Padded(open, shardSize);
      WordIsUniform(code, open);
      packets := WrapParity(base, code.parity(data));
      ParitySent(code, blocks, open, sent, packets);
      shards := seq(BLOCK, _ => Buf([], 0));
      idx, shardSize := 0, 0;
      blocks, open, sent := blocks + [open], [], sent + packets;
    }

    /** Closes the block once its tenth payload is in. */
    method Complete() returns (packets: seq<seq<byte>>)
      requires Mds(code) && Encoder() && History() && cnt == idx == K
      requires AllValid(blocks)
      modifies this`shards, this`idx, this`shardSize, this`blockStart, this`cnt, this`blocks, this`open, this`sent
      ensures Valid() && cnt == 0 && sent == old(sent) + packets && blocks == old(blocks) + [old(open)] && open == []
      ensures Accepted(blocks, open) == Accepted(old(blocks), old(open))
    {
      packets := ParityPackets(blockStart + K);
      blockStart := blockStart + BLOCK;
      cnt := 0;
    }

    /** `flushLocked`: fills the open block with empty payloads and closes it. */
    method Flush() returns (packets: seq<seq<byte>>)
      requires Valid()
      modifies this`shards, this`idx, this`shardSize, this`blockStart, this`cnt, this`blocks, this`open, this`sent
      ensures Valid() && cnt == 0 && sent == old(sent) + packets && (blocks, open) == Flushed(old(blocks), old(open))
      ensures Accepted(blocks, open) == Accepted(old(blocks), old(open))
    {
      packets := [];
      if cnt == 0 {
        return;
      }
      packets := FillBlock();
      var parity := Complete();
      Join(old(sent), packets, parity);
      packets := packets + parity;
    }

    /** The empty payloads that fill up the open block. */
    method FillBlock() returns (packets: seq<seq<byte>>)
      requires Encoder() && History() && cnt == idx
      modifies this`shards, this`idx, this`shardSize, this`cnt, this`open, this`sent
      ensures Encoder() && History() && cnt == idx == K && open == Filled(old(open)) && sent == old(sent) + packets
      ensures Accepted(blocks, open) == Accepted(blocks, old(open))
    {
      packets := [];
      while cnt < K
        invariant Encoder() && History() && cnt == idx && old(cnt) <= cnt
        invariant open == old(open) + Blanks(cnt - old(cnt)) && sent == old(sent) + packets
        invariant Accepted(blocks, open) == Accepted(blocks, old(open))
        decreases K - cnt
      {
        var p := EncodeFec([], blockStart + cnt);
        Join(old(sent), packets, [p]);
        packets := packets + [p];
        cnt := cnt + 1;
      }
    }

    /** `encode`: the packets to put on the wire for one payload. */
    method Encode(payload: Payload, now: int) returns (packets: seq<seq<byte>>)
      requires Valid()
      modifies this
      ensures Valid()
      ensures |payload| > MAX_PROTECTED ==>
        packets == [[MARKER_RAW] + payload] && sent == old(sent) && blocks == old(blocks) && open == old(open)
      ensures |payload| <= MAX_PROTECTED ==> sent == old(sent) + packets
      ensures |payload| <= MAX_PROTECTED ==>
        Accepted(blocks, open) == Accepted(old(blocks), old(open)) + Kept(payload)
      ensures |payload| <= MAX_PROTECTED ==> lastAt == now
      ensures |payload| <= MAX_PROTECTED ==>
        var (b, o) := if now - old(lastAt) >= BLOCK_WAIT_MS then Flushed(old(blocks), old(open)) else (old(blocks), old(open));
        (blocks, open) == Appended(b, o, payload)
    {
      if |payload| > MAX_PROTECTED {
        return [[MARKER_RAW] + payload];
      }
      packets := FlushStale(now);
      lastAt := now;
      var more := Append(payload);
      Join(old(sent), packets, more);
      packets := packets + more;
    }

    /** An open block that has waited too long is closed first. */
    method FlushStale(now: int) returns (packets: seq<seq<byte>>)
      requires Valid()
      modifies this`shards, this`idx, this`shardSize, this`blockStart, this`cnt, this`blocks, this`open, this`sent
      ensures Valid() && sent == old(sent) + packets && Accepted(blocks, open) == Accepted(old(blocks), old(open))
      ensures (blocks, open) ==
        if now - lastAt >= BLOCK_WAIT_MS then Flushed(old(blocks), old(open)) else (old(blocks), old(open))
    {
      packets := [];
      if cnt > 0 && now - lastAt >= BLOCK_WAIT_MS {
        packets := Flush();
      }
    }

    method Append(payload: Payload) returns (packets: seq<seq<byte>>)
      requires Valid() && |payload| <= MAX_PROTECTED
      modifies this`shards, this`idx, this`shardSize, this`blockStart, this`cnt, this`blocks, this`open, this`sent
      ensures Valid() && sent == old(sent) + packets && (blocks, open) == Appended(old(blocks), old(open), payload)
      ensures Accepted(blocks, open) == Accepted(old(blocks), old(open)) + Kept(payload)
    {
      var p := EncodeFec(payload, blockStart + cnt);
      packets := [p];
      cnt := cnt + 1;
      HistoryGrows(blocks, old(open), payload);
      if cnt == K {
        var parity := Complete();
        Join(old(sent), packets, parity);
        packets := packets + parity;
      }
    }
  }

  method PadShards(bufs: seq<Buf>, size: nat) returns (data: seq<seq<byte>>)
    requires forall i :: 0 <= i < |bufs| ==> size <= bufs[i].capacity
    ensures |data| == |bufs| && forall i :: 0 <= i < |bufs| ==> data[i] == PadTo(bufs[i].bytes, size)
  {
    data := [];
    for i := 0 to |bufs|
      invariant |data| == i && forall j :: 0 <= j < i ==> data[j] == PadTo(bufs[j].bytes, size)
    {
      var s := Extend(bufs[i], size);
      data := data + [s];
    }
  }

  method WrapParity(base: nat, parity: seq<seq<byte>>) returns (packets: seq<seq<byte>>)
    ensures |packets| == |parity| && forall i :: 0 <= i < |parity| ==> packets[i] == Packet(base + i, parity[i])
  {
    packets := [];
    for i := 0 to |parity|
      invariant |packets| == i && forall j :: 0 <= j < i ==> packets[j] == Packet(base + j, parity[j])
    {
      packets := packets + [[MARKER_FEC] + BE32(base + i) + [K, M] + parity[i]];
    }
  }

  lemma {:induction false} SizeLimit(block: seq<Payload>)
    requires forall i :: 0 <= i < |block| ==> |block[i]| <= MAX_PROTECTED
    ensures ShardSize(block) <= MAX_PROTECTED + 2 <= POOL_SIZE
  {
    if block == [] {
    } else {
      SizeLimit(block[..|block| - 1]);
    }
  }
}
