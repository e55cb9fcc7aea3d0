/** What a protected block of the datagram lane (`core/protocol/quic`) looks like on
    the wire: ten data packets and four parity packets, and how a decoder that
    holds any ten of them gets all payloads back. */
module FecBlocks {
  import opened Bytes
  import opened Wrappers

  const K: nat := 10
  const M: nat := 4
  const BLOCK: nat := 14
  const MAX_PROTECTED: nat := 1100
  const MARKER_FEC: byte := 0xFF

  type Shard = seq<byte>

  // ---- The erasure code ---------------------------------------------------

  /** The Reed-Solomon library: parity of ten data shards, and completion of a
      partly known word. */
  datatype Code = Code(parity: seq<Shard> -> seq<Shard>, complete: seq<Option<Shard>> -> Option<seq<Shard>>)

  ghost predicate Uniform(shards: seq<Shard>, count: nat, size: nat) {
    |shards| == count && forall i :: 0 <= i < count ==> |shards[i]| == size
  }

  ghost predicate PartOf(held: seq<Option<Shard>>, word: seq<Shard>) {
    |held| == |word| && forall i :: 0 <= i < |held| && held[i].Some? ==> held[i].value == word[i]
  }

  function Count(held: seq<Option<Shard>>): nat {
    if held == [] then 0 else (if held[0].Some? then 1 else 0) + Count(held[1..])
  }

  /** The one hypothesis about the library: any ten shards of equal length
      determine all fourteen. */
  ghost predicate Mds(code: Code) {
    && (forall data, size {:trigger Uniform(data, K, size)} ::
          Uniform(data, K, size) && size > 0 ==> Uniform(code.parity(data), M, size))
    && (forall data, size, held {:trigger Uniform(data, K, size), PartOf(held, data + code.parity(data))} ::
          Uniform(data, K, size) && size > 0 && PartOf(held, data + code.parity(data)) && Count(held) >= K ==>
          code.complete(held) == Some(data + code.parity(data)))
  }

  // ---- Blocks -------------------------------------------------------------

  type Payload = seq<byte>

  /** Ten payloads; a block closed early is filled up with empty ones. */
  ghost predicate ValidBlock(block: seq<Payload>) {
    |block| == K && forall i :: 0 <= i < K ==> |block[i]| <= MAX_PROTECTED
  }

  function ShardOf(p: Payload): Shard {
    BE16(|p|) + p
  }

  /** Length of the longest shard among these payloads. */
  function ShardSize(block: seq<Payload>): nat {
    if block == [] then 0
    else
      var n, rest := |ShardOf(block[|block| - 1])|, ShardSize(block[..|block| - 1]);
      if n > rest then n else rest
  }

  function PadTo(s: Shard, n: nat): Shard {
    if |s| < n then s + Zeros(n - |s|) else s
  }

  function Padded(block: seq<Payload>, size: nat): seq<Shard> {
    seq(|block|, i requires 0 <= i < |block| => PadTo(ShardOf(block[i]), size))
  }

  function Word(code: Code, block: seq<Payload>): seq<Shard> {
    var data := Padded(block, ShardSize(block));
    data + code.parity(data)
  }

  function Packet(number: nat, body: seq<byte>): seq<byte> {
    [MARKER_FEC] + BE32(number) + [K, M] + body
  }

  /** The body of packet `i` of a block: an unpadded data shard or a parity shard. */
  function Body(code: Code, block: seq<Payload>, i: nat): seq<byte>
    requires |block| == K && i < BLOCK && |Word(code, block)| == BLOCK
  {
    if i < K then ShardOf(block[i]) else Word(code, block)[i]
  }

  lemma {:induction false} ShardSizeBounds(block: seq<Payload>)
    ensures forall i :: 0 <= i < |block| ==> |ShardOf(block[i])| <= ShardSize(block)
    ensures block != [] ==> ShardSize(block) >= 2
  {
    if block == [] {
    } else {
      ShardSizeBounds(block[..|block| - 1]);
      forall i | 0 <= i < |block| ensures |ShardOf(block[i])| <= ShardSize(block) {
        if i < |block| - 1 { assert block[i] == block[..|block| - 1][i]; }
      }
    }
  }

  lemma {:induction false} WordIsUniform(code: Code, block: seq<Payload>)
    requires Mds(code) && |block| == K
    ensures Uniform(Padded(block, ShardSize(block)), K, ShardSize(block)) && ShardSize(block) > 0
    ensures Uniform(Word(code, block), BLOCK, ShardSize(block))
  {
    ShardSizeBounds(block);
    assert Uniform(Padded(block, ShardSize(block)), K, ShardSize(block));
  }

  // ---- Reconstruction -----------------------------------------------------

  /** Which packets of a block the decoder holds, and their bodies. */
  type Held = seq<Option<seq<byte>>>

  function Longest(held: Held): nat {
    if held == [] then 0
    else
      var rest := Longest(held[1..]);
      if held[0].Some? && |held[0].value| > rest then |held[0].value| else rest
  }

  function PadHeld(held: Held, n: nat): Held {
    seq(|held|, i requires 0 <= i < |held| => if held[i].Some? then Some(PadTo(held[i].value, n)) else None)
  }

  /** The payload inside a shard, if its length field makes sense. */
  function Inside(s: Shard): Option<Payload> {
    if |s| < 2 || U16(s) + 2 > |s| then None else Some(s[2..2 + U16(s)])
  }

  /** The payloads of the data packets not held, in order. */
  function Missing(held: Held, word: seq<Shard>, i: nat): seq<Payload>
    requires |held| == |word| == BLOCK && i <= K
  {
    if i == 0 then []
    else
      Missing(held, word, i - 1) +
      if held[i - 1].Some? then []
      else match Inside(word[i - 1]) case None => [] case Some(p) => [p]
  }

  /** `FECDecoder.Reconstruct` on the packets of one block. */
  function Reconstruct(code: Code, held: Held): seq<Payload>
    requires |held| == BLOCK
  {
    if Count(held) < K then []
    else match code.complete(PadHeld(held, Longest(held)))
      case None => []
      case Some(word) => if |word| == BLOCK then Missing(held, word, K) else []
  }

  /** The held bodies are those of this block. */
  ghost predicate HeldOf(code: Code, block: seq<Payload>, held: Held)
    requires |block| == K && |Word(code, block)| == BLOCK
  {
    |held| == BLOCK && forall i :: 0 <= i < BLOCK && held[i].Some? ==> held[i].value == Body(code, block, i)
  }

  lemma {:induction false} InsideShard(p: Payload, n: nat)
    requires |p| < U16_LIMIT && |ShardOf(p)| <= n
    ensures Inside(PadTo(ShardOf(p), n)) == Some(p)
  {
    U16RoundTrip(|p|);
    var s := PadTo(ShardOf(p), n);
    assert s[0] == BE16(|p|)[0] && s[1] == BE16(|p|)[1];
    assert s[2..2 + |p|] == p;
  }

  lemma {:induction false} LongestBounds(held: Held)
    ensures forall i :: 0 <= i < |held| && held[i].Some? ==> |held[i].value| <= Longest(held)
    ensures Longest(held) > 0 ==> exists i :: 0 <= i < |held| && held[i].Some? && |held[i].value| == Longest(held)
  {
    if held == [] {
    } else {
      var rest := held[1..];
      LongestBounds(rest);
      if Longest(held) == Longest(rest) && Longest(rest) > 0 {
        var i :| 0 <= i < |rest| && rest[i].Some? && |rest[i].value| == Longest(rest);
        assert held[i + 1] == rest[i];
      }
      forall i | 0 < i < |held| && held[i].Some? ensures |held[i].value| <= Longest(held) {
        assert held[i] == rest[i - 1];
      }
    }
  }

  lemma {:induction false} CountUpTo(held: Held)
    ensures Count(held) <= |held|
    ensures (exists i :: 0 <= i < |held| && held[i].None?) ==> Count(held) < |held|
  {
    if held == [] {
    } else {
      CountUpTo(held[1..]);
      if i :| 0 <= i < |held| && held[i].None? && i > 0 {
        assert held[1..][i - 1].None?;
      }
    }
  }

  lemma {:induction false} CountConcat(a: Held, b: Held)
    ensures Count(a + b) == Count(a) + Count(b)
  {
    if a == [] {
      assert a + b == b;
    } else {
      CountConcat(a[1..], b);
      assert (a + b)[1..] == a[1..] + b;
    }
  }

  lemma {:induction false} CountPadded(held: Held, n: nat)
    ensures Count(PadHeld(held, n)) == Count(held)
  {
    if held == [] {
    } else {
      CountPadded(held[1..], n);
      assert PadHeld(held, n)[1..] == PadHeld(held[1..], n);
    }
  }

  /** With a data packet missing and ten packets held, a parity packet is among
      them, so the longest body has the full shard size. */
  lemma {:induction false} ParityHeld(code: Code, block: seq<Payload>, held: Held, gap: nat)
    requires Mds(code) && |block| == K && |Word(code, block)| == BLOCK && HeldOf(code, block, held)
    requires Count(held) >= K && gap < K && held[gap].None?
    ensures Longest(held) == ShardSize(block)
  {
    var data, parity := held[..K], held[K..];
    WordIsUniform(code, block);
    assert held == data + parity;
    CountConcat(data, parity);
    assert data[gap].None?;
    CountUpTo(data);
    var j := SomeHeld(parity);
    assert held[K + j].Some? && held[K + j].value == Word(code, block)[K + j];
    LongestBounds(held);
    ShardSizeBounds(block);
    forall i | 0 <= i < BLOCK && held[i].Some? ensures |held[i].value| <= ShardSize(block) {
      if i < K { assert held[i].value == ShardOf(block[i]); }
    }
  }

  lemma {:induction false} SomeHeld(held: Held) returns (j: nat)
    requires Count(held) > 0
    ensures j < |held| && held[j].Some?
  {
    if held[0].Some? {
      j := 0;
    } else {
      j := SomeHeld(held[1..]);
      j := j + 1;
    }
  }

  /** The payloads of a block that are not held, in order. */
  function MissingOf(held: Held, block: seq<Payload>, i: nat): seq<Payload>
    requires |held| == BLOCK && |block| == K && i <= K
  {
    if i == 0 then []
    else MissingOf(held, block, i - 1) + if held[i - 1].Some? then [] else [block[i - 1]]
  }

  lemma {:induction false} MissingIs(code: Code, block: seq<Payload>, held: Held, i: nat)
    requires Mds(code) && ValidBlock(block) && |Word(code, block)| == BLOCK && |held| == BLOCK && i <= K
    ensures Missing(held, Word(code, block), i) == MissingOf(held, block, i)
  {
    if i == 0 {
    } else {
      MissingIs(code, block, held, i - 1);
      ShardSizeBounds(block);
      InsideShard(block[i - 1], ShardSize(block));
      assert Word(code, block)[i - 1] == PadTo(ShardOf(block[i - 1]), ShardSize(block));
    }
  }

  /** Any ten packets of a block give back exactly the missing payloads. */
  lemma {:induction false} ReconstructExact(code: Code, block: seq<Payload>, held: Held, gap: nat)
    requires Mds(code) && ValidBlock(block) && |Word(code, block)| == BLOCK && HeldOf(code, block, held)
    requires Count(held) >= K && gap < K && held[gap].None?
    ensures Reconstruct(code, held) == MissingOf(held, block, K)
  {
    var n := ShardSize(block);
    var data := Padded(block, n);
    WordIsUniform(code, block);
    ParityHeld(code, block, held, gap);
    CountPadded(held, n);
    var full := PadHeld(held, n);
    forall i | 0 <= i < BLOCK && full[i].Some? ensures full[i].value == Word(code, block)[i] {
      if i < K { assert data[i] == PadTo(ShardOf(block[i]), n); }
    }
    assert PartOf(full, data + code.parity(data));
    MissingIs(code, block, held, K);
  }
}
