/** The receiving half of the datagram lane: `fecReceiver` and `FECDecoder`. */
module FecReceiver {
  import opened Bytes
  import opened FecBlocks
  import opened FecSender
  import opened Wrappers

  // ---- The receiver as a value --------------------------------------------

  /** `received` and `firstAt` of the receiver, `packetBuffer` of its decoder. */
  datatype Receiver = Receiver(received: map<nat, Payload>, firstAt: map<nat, int>, buffer: map<nat, seq<byte>>)

  function BlockStart(number: nat): nat {
    number / BLOCK * BLOCK
  }

  predicate IsFec(packet: seq<byte>) {
    |packet| >= 9 && packet[0] == MARKER_FEC
  }

  function NumberOf(packet: seq<byte>): nat
    requires IsFec(packet)
  {
    U32(packet[1..5])
  }

  /** The locked part of `ingest` that keeps the payload of a data packet. */
  function Note(received: map<nat, Payload>, packet: seq<byte>): map<nat, Payload>
    requires IsFec(packet)
  {
    var number, size := NumberOf(packet), U16(packet[7..9]);
    if number - BlockStart(number) < K && size + 9 <= |packet| then received[number := packet[9..9 + size]]
    else received
  }

  /** `DecodeFEC`. */
  function Store(buffer: map<nat, seq<byte>>, packet: seq<byte>): map<nat, seq<byte>>
    requires IsFec(packet)
  {
    buffer[NumberOf(packet) := packet[7..]]
  }

  /** `ingest`. */
  function Ingest(r: Receiver, packet: seq<byte>, now: int): Receiver {
    if !IsFec(packet) then r
    else
      var start := BlockStart(NumberOf(packet));
      var firstAt := if start in r.firstAt then r.firstAt else r.firstAt[start := now];
      Receiver(Note(r.received, packet), firstAt, Store(r.buffer, packet))
  }

  /** The number of packet `i` of the block that starts at `start`. */
  function At(start: nat, i: nat): nat {
    start + i
  }

  /** The packets of one block in the decoder's buffer. */
  function HeldAt(buffer: map<nat, seq<byte>>, start: nat): Held {
    seq(BLOCK, i requires 0 <= i < BLOCK => if At(start, i) in buffer then Some(buffer[At(start, i)]) else None)
  }

  /** Hands the recovered payloads to the first `i` missing positions in order. */
  function Fill(received: map<nat, Payload>, start: nat, recovered: seq<Payload>, i: nat): (map<nat, Payload>, nat) {
    if i == 0 then (received, 0)
    else
      var (m, used) := Fill(received, start, recovered, i - 1);
      if At(start, i - 1) !in m && used < |recovered| then (m[At(start, i - 1) := recovered[used]], used + 1) else (m, used)
  }

  function Collect(m: map<nat, Payload>, start: nat, i: nat): seq<Payload> {
    if i == 0 then []
    else Collect(m, start, i - 1) + if At(start, i - 1) in m then Kept(m[At(start, i - 1)]) else []
  }

  predicate Complete(received: map<nat, Payload>, start: nat) {
    forall i :: 0 <= i < K ==> At(start, i) in received
  }

  predicate InBlock(n: nat, start: nat) {
    start <= n < start + BLOCK
  }

  function Positions(start: nat): set<nat> {
    set n: nat | 0 <= n < start + BLOCK && InBlock(n, start)
  }

  /** `deliverBlock`: what it delivers and what it leaves behind. */
  function Deliver(code: Code, r: Receiver, start: nat): (Receiver, seq<Payload>) {
    var m := if Complete(r.received, start) then r.received
             else Fill(r.received, start, Reconstruct(code, HeldAt(r.buffer, start)), K).0;
    (Receiver(m - Positions(start), r.firstAt, r.buffer - Positions(start)), Collect(m, start, K))
  }

  // ---- The receiver agrees with the sender --------------------------------

  /** The blocks a sender has completed or will complete. */
  ghost predicate Blocks(code: Code, blocks: seq<seq<Payload>>) {
    && Mds(code) && BLOCK * |blocks| <= U32_LIMIT
    && (forall b :: 0 <= b < |blocks| ==> ValidBlock(blocks[b]) && |Word(code, blocks[b])| == BLOCK)
  }

  /** What the decoder has stored under `n` is the body of packet `n`. */
  ghost predicate StoredRight(code: Code, blocks: seq<seq<Payload>>, buffer: map<nat, seq<byte>>, n: nat)
    requires Blocks(code, blocks)
  {
    n in buffer ==> n / BLOCK < |blocks| && buffer[n] == Body(code, blocks[n / BLOCK], n % BLOCK)
  }

  /** What the receiver has noted under `n` is that packet's payload. */
  predicate NotedRight(blocks: seq<seq<Payload>>, received: map<nat, Payload>, n: nat) {
    n in received ==>
      n / BLOCK < |blocks| && n % BLOCK < K == |blocks[n / BLOCK]| && received[n] == blocks[n / BLOCK][n % BLOCK]
  }

  predicate NotedIffStored(r: Receiver, n: nat) {
    n in r.received <==> n in r.buffer && n % BLOCK < K
  }

  /** Everything stored came from packets of these blocks. */
  ghost predicate Faithful(code: Code, blocks: seq<seq<Payload>>, r: Receiver)
    requires Blocks(code, blocks)
  {
    && (forall n {:trigger StoredRight(code, blocks, r.buffer, n)} :: StoredRight(code, blocks, r.buffer, n))
    && (forall n {:trigger NotedRight(blocks, r.received, n)} :: NotedRight(blocks, r.received, n))
    && (forall n {:trigger NotedIffStored(r, n)} :: NotedIffStored(r, n))
  }

  function PacketAt(code: Code, blocks: seq<seq<Payload>>, n: nat): seq<byte>
    requires n / BLOCK < |blocks| && |blocks[n / BLOCK]| == K && |Word(code, blocks[n / BLOCK])| == BLOCK
  {
    Packet(n, Body(code, blocks[n / BLOCK], n % BLOCK))
  }

  /** A packet of a block is filed under its number, whole. */
  lemma {:induction false} PacketFields(code: Code, blocks: seq<seq<Payload>>, n: nat)
    requires Blocks(code, blocks) && n / BLOCK < |blocks|
    ensures var packet := PacketAt(code, blocks, n);
      && |packet| >= 9 && packet[0] == MARKER_FEC && U32(packet[1..5]) == n
      && packet[7..] == Body(code, blocks[n / BLOCK], n % BLOCK)
      && (n % BLOCK < K ==> U16(packet[7..9]) + 9 == |packet| && packet[9..] == blocks[n / BLOCK][n % BLOCK])
  {
    var block, i := blocks[n / BLOCK], n % BLOCK;
    var packet, body := PacketAt(code, blocks, n), Body(code, block, i);
    WordIsUniform(code, block);
    ShardSizeBounds(block);
    U32RoundTrip(n);
    assert |body| >= 2;
    assert packet[1..5] == BE32(n) && packet[7..] == body;
    if i < K {
      U16RoundTrip(|block[i]|);
      assert packet[7..9] == BE16(|block[i]|) && packet[9..] == block[i];
    }
  }

  lemma {:induction false} NoteIs(code: Code, blocks: seq<seq<Payload>>, received: map<nat, Payload>, n: nat)
    requires Blocks(code, blocks) && n / BLOCK < |blocks|
    ensures var packet := PacketAt(code, blocks, n);
      IsFec(packet) && NumberOf(packet) == n &&
      Note(received, packet) == if n % BLOCK < K then received[n := blocks[n / BLOCK][n % BLOCK]] else received
  {
    var packet := PacketAt(code, blocks, n);
    PacketFields(code, blocks, n);
    assert n - BlockStart(n) == n % BLOCK;
    if n % BLOCK < K {
      assert packet[9..9 + U16(packet[7..9])] == packet[9..];
    }
  }

  lemma {:induction false} StoreIs(code: Code, blocks: seq<seq<Payload>>, buffer: map<nat, seq<byte>>, n: nat)
    requires Blocks(code, blocks) && n / BLOCK < |blocks|
    ensures var packet := PacketAt(code, blocks, n);
      IsFec(packet) && Store(buffer, packet) == buffer[n := Body(code, blocks[n / BLOCK], n % BLOCK)]
  {
    PacketFields(code, blocks, n);
  }

  lemma {:induction false} IngestKeeps(code: Code, blocks: seq<seq<Payload>>, r: Receiver, n: nat, now: int)
    requires Blocks(code, blocks) && Faithful(code, blocks, r) && n / BLOCK < |blocks|
    ensures var r' := Ingest(r, PacketAt(code, blocks, n), now);
      && Faithful(code, blocks, r') && r'.buffer == r.buffer[n := Body(code, blocks[n / BLOCK], n % BLOCK)]
      && BlockStart(n) in r'.firstAt
  {
    var r' := Ingest(r, PacketAt(code, blocks, n), now);
    NoteIs(code, blocks, r.received, n);
    StoreIs(code, blocks, r.buffer, n);
    forall k ensures StoredRight(code, blocks, r'.buffer, k) {
      assert StoredRight(code, blocks, r.buffer, k);
    }
    forall k ensures NotedRight(blocks, r'.received, k) {
      assert NotedRight(blocks, r.received, k);
    }
    forall k ensures NotedIffStored(r', k) {
      assert NotedIffStored(r, k);
    }
  }

  lemma {:induction false} DeliverKeeps(code: Code, blocks: seq<seq<Payload>>, r: Receiver, b: nat)
    requires Blocks(code, blocks) && Faithful(code, blocks, r)
    ensures var r' := Deliver(code, r, BLOCK * b).0;
      Faithful(code, blocks, r') && r'.buffer == r.buffer - Positions(BLOCK * b)
  {
    var start := BLOCK * b;
    var recovered := Reconstruct(code, HeldAt(r.buffer, start));
    FillForgotten(r.received, start, recovered);
    ForgetKeeps(code, blocks, r, Positions(start));
  }

  /** What is filled in is forgotten with the block. */
  lemma {:induction false} FillForgotten(received: map<nat, Payload>, start: nat, recovered: seq<Payload>)
    ensures Fill(received, start, recovered, K).0 - Positions(start) == received - Positions(start)
  {
    FillOnlyHere(received, start, recovered, K);
  }

  lemma {:induction false} ForgetKeeps(code: Code, blocks: seq<seq<Payload>>, r: Receiver, gone: set<nat>)
    requires Blocks(code, blocks) && Faithful(code, blocks, r)
    ensures Faithful(code, blocks, Receiver(r.received - gone, r.firstAt, r.buffer - gone))
  {
    var r' := Receiver(r.received - gone, r.firstAt, r.buffer - gone);
    forall k ensures StoredRight(code, blocks, r'.buffer, k) {
      assert StoredRight(code, blocks, r.buffer, k);
    }
    forall k ensures NotedRight(blocks, r'.received, k) {
      assert NotedRight(blocks, r.received, k);
    }
    forall k ensures NotedIffStored(r', k) {
      assert NotedIffStored(r, k);
    }
  }

  lemma {:induction false} FillOnlyHere(received: map<nat, Payload>, start: nat, recovered: seq<Payload>, i: nat)
    requires i <= K
    ensures var m := Fill(received, start, recovered, i).0;
      && (forall n :: n in received ==> n in m && m[n] == received[n])
      && (forall n :: n in m && n !in received ==> start <= n < start + i)
  {
    if i == 0 {
    } else {
      FillOnlyHere(received, start, recovered, i - 1);
    }
  }

  // ---- Delivery is exact --------------------------------------------------

  lemma {:induction false} BlockParts(b: nat, i: nat)
    requires i < BLOCK
    ensures At(BLOCK * b, i) / BLOCK == b && At(BLOCK * b, i) % BLOCK == i
  {
  }

  lemma {:induction false} HeldAtIs(code: Code, blocks: seq<seq<Payload>>, buffer: map<nat, seq<byte>>, b: nat)
    requires Blocks(code, blocks) && b < |blocks|
    requires forall n {:trigger StoredRight(code, blocks, buffer, n)} :: StoredRight(code, blocks, buffer, n)
    ensures HeldOf(code, blocks[b], HeldAt(buffer, BLOCK * b))
  {
    var start := BLOCK * b;
    var held := HeldAt(buffer, start);
    forall i | 0 <= i < BLOCK && held[i].Some? ensures held[i].value == Body(code, blocks[b], i) {
      BlockParts(b, i);
      assert StoredRight(code, blocks, buffer, At(start, i));
    }
  }

  /** Position by position, what is noted is the block's own. */
  predicate NotedHere(received: map<nat, Payload>, start: nat, block: seq<Payload>) {
    forall j {:trigger At(start, j)} :: 0 <= j < |block| && At(start, j) in received ==> received[At(start, j)] == block[j]
  }

  lemma {:induction false} NotedHereIs(blocks: seq<seq<Payload>>, received: map<nat, Payload>, b: nat)
    requires b < |blocks| && |blocks[b]| == K
    requires forall n {:trigger NotedRight(blocks, received, n)} :: NotedRight(blocks, received, n)
    ensures NotedHere(received, BLOCK * b, blocks[b])
  {
    var start := BLOCK * b;
    forall j | 0 <= j < K && At(start, j) in received ensures received[At(start, j)] == blocks[b][j] {
      BlockParts(b, j);
      assert NotedRight(blocks, received, At(start, j));
    }
  }

  lemma {:induction false} MissingGrows(held: Held, block: seq<Payload>, i: nat, j: nat)
    requires |held| == BLOCK && |block| == K && i <= j <= K
    ensures MissingOf(held, block, i) <= MissingOf(held, block, j)
    decreases j
  {
    if i == j {
    } else {
      MissingGrows(held, block, i, j - 1);
    }
  }

  /** The positions still missing are the first ones of those that the decoder did
      not hold. */
  predicate Aligned(held: Held, received: map<nat, Payload>, start: nat)
    requires |held| == BLOCK
  {
    forall i, j {:trigger At(start, i), At(start, j)} :: 0 <= i <= j < K && At(start, j) !in received ==>
      (held[i].None? <==> At(start, i) !in received)
  }

  /** The first `i` positions hold the block's payloads. */
  predicate Restored(m: map<nat, Payload>, start: nat, block: seq<Payload>, i: nat)
    requires i <= |block|
  {
    forall j {:trigger At(start, j)} :: 0 <= j < i ==> At(start, j) in m && m[At(start, j)] == block[j]
  }

  /** Up to a missing position, the payloads handed out are those not held. */
  predicate InOrder(held: Held, received: map<nat, Payload>, start: nat, block: seq<Payload>, i: nat, used: nat)
    requires |held| == BLOCK && |block| == K && i <= K
  {
    (exists j {:trigger At(start, j)} :: i <= j < K && At(start, j) !in received) ==> used == |MissingOf(held, block, i)|
  }

  lemma {:induction false} FillExact(received: map<nat, Payload>, start: nat, held: Held, block: seq<Payload>, i: nat)
    requires |held| == BLOCK && |block| == K && i <= K
    requires Aligned(held, received, start) && NotedHere(received, start, block)
    ensures var (m, used) := Fill(received, start, MissingOf(held, block, K), i);
      Restored(m, start, block, i) && InOrder(held, received, start, block, i, used)
  {
    var recovered := MissingOf(held, block, K);
    if i == 0 {
    } else {
      FillExact(received, start, held, block, i - 1);
      FillOnlyHere(received, start, recovered, i - 1);
      MissingGrows(held, block, i, K);
      FillStep(received, start, held, block, i - 1);
    }
  }

  lemma {:induction false} FillStep(received: map<nat, Payload>, start: nat, held: Held, block: seq<Payload>, i: nat)
    requires |held| == BLOCK && |block| == K && i < K
    requires Aligned(held, received, start) && NotedHere(received, start, block)
    requires MissingOf(held, block, i + 1) <= MissingOf(held, block, K)
    requires var (m, used) := Fill(received, start, MissingOf(held, block, K), i);
      && Restored(m, start, block, i) && InOrder(held, received, start, block, i, used)
      && (forall n :: n in received ==> n in m && m[n] == received[n])
      && (forall n :: n in m && n !in received ==> start <= n < start + i)
    ensures var (m, used) := Fill(received, start, MissingOf(held, block, K), i + 1);
      Restored(m, start, block, i + 1) && InOrder(held, received, start, block, i + 1, used)
  {
    var recovered := MissingOf(held, block, K);
    var (m, used) := Fill(received, start, recovered, i);
    var here := At(start, i);
    if here !in received {
      assert held[i].None? && used == |MissingOf(held, block, i)|;
      assert MissingOf(held, block, i + 1)[used] == block[i];
      assert here !in m && recovered[used] == block[i];
    } else if j :| i < j < K && At(start, j) !in received {
      assert held[i].Some?;
    }
  }

  lemma {:induction false} CollectExact(m: map<nat, Payload>, start: nat, block: seq<Payload>, i: nat)
    requires i <= |block| && Restored(m, start, block, i)
    ensures Collect(m, start, i) == NonEmpty(block[..i])
  {
    if i == 0 {
    } else {
      CollectExact(m, start, block, i - 1);
      assert block[..i][..i - 1] == block[..i - 1];
      assert At(start, i - 1) in m;
    }
  }

  /** Any ten packets held, and the receiver's gaps in line with the decoder's: the
      whole block comes out. */
  lemma {:induction false} FillDelivers(code: Code, block: seq<Payload>, held: Held, received: map<nat, Payload>, start: nat)
    requires Mds(code) && ValidBlock(block) && |Word(code, block)| == BLOCK && HeldOf(code, block, held)
    requires Count(held) >= K && Aligned(held, received, start) && NotedHere(received, start, block)
    ensures Restored(Fill(received, start, Reconstruct(code, held), K).0, start, block, K)
  {
    if gap: nat :| gap < K && At(start, gap) !in received {
      assert held[gap].None?;
      ReconstructExact(code, block, held, gap);
      FillExact(received, start, held, block, K);
    } else {
      FillOnlyHere(received, start, Reconstruct(code, held), K);
    }
  }

  lemma {:induction false} InStepAligned(r: Receiver, b: nat)
    requires forall n {:trigger NotedIffStored(r, n)} :: NotedIffStored(r, n)
    ensures Aligned(HeldAt(r.buffer, BLOCK * b), r.received, BLOCK * b)
  {
    var start := BLOCK * b;
    forall i | 0 <= i < K ensures HeldAt(r.buffer, start)[i].None? <==> At(start, i) !in r.received {
      BlockParts(b, i);
      assert NotedIffStored(r, At(start, i));
    }
  }

  /** Any ten packets of a block, in whatever order they came, and the block is
      delivered: exactly its non-empty payloads, in order. */
  lemma {:induction false} DeliverExact(code: Code, blocks: seq<seq<Payload>>, r: Receiver, b: nat)
    requires Blocks(code, blocks) && Faithful(code, blocks, r) && b < |blocks|
    requires Count(HeldAt(r.buffer, BLOCK * b)) >= K
    ensures Deliver(code, r, BLOCK * b).1 == NonEmpty(blocks[b])
  {
    var start, block := BLOCK * b, blocks[b];
    HeldAtIs(code, blocks, r.buffer, b);
    NotedHereIs(blocks, r.received, b);
    InStepAligned(r, b);
    assert block[..K] == block;
    if Complete(r.received, start) {
      CollectExact(r.received, start, block, K);
    } else {
      FillDelivers(code, block, HeldAt(r.buffer, start), r.received, start);
      CollectExact(Fill(r.received, start, Reconstruct(code, HeldAt(r.buffer, start)), K).0, start, block, K);
    }
  }

  /** The non-empty payloads of a block at these packet numbers, in order. */
  function Those(block: seq<Payload>, start: nat, numbers: set<nat>, i: nat): seq<Payload>
    requires i <= |block|
  {
    if i == 0 then []
    else Those(block, start, numbers, i - 1) + if At(start, i - 1) in numbers then Kept(block[i - 1]) else []
  }

  lemma {:induction false} CollectThose(m: map<nat, Payload>, start: nat, block: seq<Payload>, i: nat)
    requires i <= |block| && NotedHere(m, start, block)
    ensures Collect(m, start, i) == Those(block, start, m.Keys, i)
  {
    if i == 0 {
    } else {
      CollectThose(m, start, block, i - 1);
    }
  }

  lemma {:induction false} ThoseSame(block: seq<Payload>, start: nat, numbers: set<nat>, others: set<nat>, i: nat)
    requires i <= |block| && forall j {:trigger At(start, j)} :: 0 <= j < i ==> (At(start, j) in numbers <==> At(start, j) in others)
    ensures Those(block, start, numbers, i) == Those(block, start, others, i)
  {
    if i == 0 {
    } else {
      ThoseSame(block, start, numbers, others, i - 1);
    }
  }

  /** With fewer than ten packets, the block still delivers the payloads of the data
      packets that arrived, in order, and nothing else. */
  lemma {:induction false} DeliverPartial(code: Code, blocks: seq<seq<Payload>>, r: Receiver, b: nat)
    requires Blocks(code, blocks) && Faithful(code, blocks, r) && b < |blocks|
    requires Count(HeldAt(r.buffer, BLOCK * b)) < K
    ensures Deliver(code, r, BLOCK * b).1 == Those(blocks[b], BLOCK * b, r.buffer.Keys, K)
  {
    var start := BLOCK * b;
    NotedHereIs(blocks, r.received, b);
    CollectThose(r.received, start, blocks[b], K);
    if !Complete(r.received, start) {
      FillNothing(r.received, start, K);
    }
    forall j | 0 <= j < K ensures At(start, j) in r.received.Keys <==> At(start, j) in r.buffer.Keys {
      BlockParts(b, j);
      assert NotedIffStored(r, At(start, j));
    }
    ThoseSame(blocks[b], start, r.received.Keys, r.buffer.Keys, K);
  }

  lemma {:induction false} FillNothing(received: map<nat, Payload>, start: nat, i: nat)
    ensures Fill(received, start, [], i) == (received, 0)
  {
    if i == 0 {
    } else {
      FillNothing(received, start, i - 1);
    }
  }

  // ---- Every run ----------------------------------------------------------

  datatype Event = Arrive(n: nat, now: int) | DeliverBlock(b: nat)

  ghost function Handle(code: Code, blocks: seq<seq<Payload>>, r: Receiver, e: Event): Receiver
    requires Blocks(code, blocks) && (e.Arrive? ==> e.n / BLOCK < |blocks|)
  {
    match e
    case Arrive(n, now) => Ingest(r, PacketAt(code, blocks, n), now)
    case DeliverBlock(b) => Deliver(code, r, BLOCK * b).0
  }

  ghost predicate Genuine(blocks: seq<seq<Payload>>, events: seq<Event>) {
    forall k :: 0 <= k < |events| && events[k].Arrive? ==> events[k].n / BLOCK < |blocks|
  }

  ghost function After(code: Code, blocks: seq<seq<Payload>>, events: seq<Event>): Receiver
    requires Blocks(code, blocks) && Genuine(blocks, events)
  {
    if events == [] then Receiver(map[], map[], map[])
    else Handle(code, blocks, After(code, blocks, events[..|events| - 1]), events[|events| - 1])
  }

  /** Packet numbers that arrived since their block was last delivered. */
  ghost function Arrived(events: seq<Event>): set<nat> {
    if events == [] then {}
    else match events[|events| - 1]
      case Arrive(n, _) => Arrived(events[..|events| - 1]) + {n}
      case DeliverBlock(b) => Arrived(events[..|events| - 1]) - Positions(BLOCK * b)
  }

  /** Whatever was lost, repeated or reordered, the decoder holds exactly the
      packets that arrived since the block was last delivered, unaltered. */
  lemma {:induction false} RunIsFaithful(code: Code, blocks: seq<seq<Payload>>, events: seq<Event>)
    requires Blocks(code, blocks) && Genuine(blocks, events)
    ensures Faithful(code, blocks, After(code, blocks, events))
    ensures After(code, blocks, events).buffer.Keys == Arrived(events)
  {
    if events == [] {
    } else {
      var init, last := events[..|events| - 1], events[|events| - 1];
      RunIsFaithful(code, blocks, init);
      var r := After(code, blocks, init);
      match last
      case Arrive(n, now) => IngestKeeps(code, blocks, r, n, now);
      case DeliverBlock(b) => DeliverKeeps(code, blocks, r, b);
    }
  }

  /** The lane's promise: ten of a block's fourteen packets before it is delivered
      are enough, whatever happened to all other packets and blocks. */
  lemma {:induction false} RunDelivers(code: Code, blocks: seq<seq<Payload>>, events: seq<Event>, b: nat)
    requires Blocks(code, blocks) && Genuine(blocks, events) && b < |blocks|
    requires |Arrived(events) * Positions(BLOCK * b)| >= K
    ensures Deliver(code, After(code, blocks, events), BLOCK * b).1 == NonEmpty(blocks[b])
  {
    RunIsFaithful(code, blocks, events);
    var r := After(code, blocks, events);
    HeldCount(r.buffer, BLOCK * b);
    DeliverExact(code, blocks, r, b);
  }

  /** With fewer, what arrived is delivered. */
  lemma {:induction false} RunDeliversPart(code: Code, blocks: seq<seq<Payload>>, events: seq<Event>, b: nat)
    requires Blocks(code, blocks) && Genuine(blocks, events) && b < |blocks|
    requires |Arrived(events) * Positions(BLOCK * b)| < K
    ensures Deliver(code, After(code, blocks, events), BLOCK * b).1 == Those(blocks[b], BLOCK * b, Arrived(events), K)
  {
    RunIsFaithful(code, blocks, events);
    var r := After(code, blocks, events);
    HeldCount(r.buffer, BLOCK * b);
    DeliverPartial(code, blocks, r, b);
  }

  lemma {:induction false} HeldCount(buffer: map<nat, seq<byte>>, start: nat)
    ensures Count(HeldAt(buffer, start)) == |buffer.Keys * Positions(start)|
  {
    var held := HeldAt(buffer, start);
    CountIsSize(held, start);
    forall n: nat ensures n in HeldNumbers(held, start) <==> n in buffer.Keys * Positions(start) {
      if InBlock(n, start) { assert At(start, n - start) == n; }
    }
    assert HeldNumbers(held, start) == buffer.Keys * Positions(start);
  }

  predicate IsHeld(held: Held, start: nat, n: nat) {
    start <= n < start + |held| && held[n - start].Some?
  }

  function HeldNumbers(held: Held, start: nat): set<nat> {
    set n: nat | 0 <= n < start + |held| && IsHeld(held, start, n)
  }

  lemma {:induction false} CountIsSize(held: Held, start: nat)
    ensures Count(held) == |HeldNumbers(held, start)|
    decreases |held|
  {
    if held == [] {
    } else {
      var rest := held[1..];
      CountIsSize(rest, start + 1);
      forall n | start < n < start + |held| ensures IsHeld(held, start, n) <==> IsHeld(rest, start + 1, n) {
        assert held[n - start] == rest[n - (start + 1)];
      }
      assert HeldNumbers(held, start) == HeldNumbers(rest, start + 1) + if held[0].Some? then {start} else {};
    }
  }

  // ---- The receiver object ------------------------------------------------

  /** The blocks a sweep takes: all data there, or waited long enough. */
  predicate IsDue(r: Receiver, start: nat, now: int) {
    start in r.firstAt && (Complete(r.received, start) || now - r.firstAt[start] >= BLOCK_WAIT_MS)
  }

  /** Delivers several blocks one after the other. */
  function DeliverAll(code: Code, r: Receiver, starts: seq<nat>): (Receiver, seq<Payload>) {
    if starts == [] then (r, [])
    else
      var (r1, out) := DeliverAll(code, r, starts[..|starts| - 1]);
      var (r2, more) := Deliver(code, r1, starts[|starts| - 1]);
      (r2, out + more)
  }

  lemma {:induction false} DeliverNext(code: Code, r: Receiver, starts: seq<nat>, i: nat)
    requires i < |starts|
    ensures var (r1, out) := DeliverAll(code, r, starts[..i]);
      var (r2, more) := Deliver(code, r1, starts[i]);
      DeliverAll(code, r, starts[..i + 1]) == (r2, out + more)
  {
    assert starts[..i + 1][..i] == starts[..i];
  }

  predicate Distinct(starts: seq<nat>) {
    forall i, j :: 0 <= i < j < |starts| ==> starts[i] != starts[j]
  }

  /** A sweep: the due blocks, each once and in any order, are taken off the list and
      delivered one after the other. */
  ghost predicate Swept(code: Code, r: Receiver, now: int, order: seq<nat>, r': Receiver, payloads: seq<Payload>) {
    && Distinct(order) && (forall start :: start in order <==> IsDue(r, start, now))
    && (r', payloads) == DeliverAll(code, r.(firstAt := r.firstAt - set start | start in order), order)
  }

  class Lane {
    const code: Code
    var received: map<nat, Payload>
    var firstAt: map<nat, int>
    var buffer: map<nat, seq<byte>>

    function Value(): Receiver
      reads this
    {
      Receiver(received, firstAt, buffer)
    }

    constructor (code: Code)
      ensures Value() == Receiver(map[], map[], map[]) && this.code == code
    {
      this.code := code;
      received, firstAt, buffer := map[], map[], map[];
    }

    method IngestPacket(packet: seq<byte>, now: int)
      modifies this
      ensures Value() == Ingest(old(Value()), packet, now)
    {
      if |packet| < 9 || packet[0] != MARKER_FEC {
        return;
      }
      NotePacket(packet, now);
      StorePacket(packet);
    }

    /** The part of `ingest` under the receiver's lock. */
    method NotePacket(packet: seq<byte>, now: int)
      requires IsFec(packet)
      modifies this`received, this`firstAt
      ensures Value() == Ingest(old(Value()), packet, now).(buffer := buffer)
    {
      var number := U32(packet[1..5]);
      var start := number / BLOCK * BLOCK;
      if start !in firstAt {
        firstAt := firstAt[start := now];
      }
      if number - start < K {
        var size := U16(packet[7..9]);
        if size + 9 <= |packet| {
          received := received[number := packet[9..9 + size]];
        }
      }
    }

    /** `DecodeFEC`, under the decoder's lock. */
    method StorePacket(packet: seq<byte>)
      requires IsFec(packet)
      modifies this`buffer
      ensures buffer == Store(old(buffer), packet)
    {
      buffer := buffer[U32(packet[1..5]) := packet[7..]];
    }

    method DeliverOne(start: nat) returns (payloads: seq<Payload>)
      modifies this`received, this`buffer
      ensures (Value(), payloads) == Deliver(code, old(Value()), start)
    {
      var m := received;
      if !Complete(received, start) {
        m := FillMissing(received, start, Reconstruct(code, HeldAt(buffer, start)));
      }
      payloads := CollectPayloads(m, start);
      received, buffer := m - Positions(start), buffer - Positions(start);
    }

    /** `sweep`: `order` is the order in which the due blocks were met in the map. */
    method Sweep(now: int) returns (payloads: seq<Payload>, left: bool, order: seq<nat>)
      modifies this
      ensures Swept(code, old(Value()), now, order, Value(), payloads)
      ensures left == (firstAt != map[])
    {
      order := DueBlocks(Value(), now);
      firstAt := firstAt - set start | start in order;
      left := |firstAt| > 0;
      payloads := DeliverBlocks(order);
    }

    method DeliverBlocks(order: seq<nat>) returns (payloads: seq<Payload>)
      modifies this`received, this`buffer
      ensures (Value(), payloads) == DeliverAll(code, old(Value()), order)
    {
      payloads := [];
      for i := 0 to |order|
        invariant (Value(), payloads) == DeliverAll(code, old(Value()), order[..i])
      {
        DeliverNext(code, old(Value()), order, i);
        var more := DeliverOne(order[i]);
        payloads := payloads + more;
      }
      assert order[..|order|] == order;
    }
  }

  method FillMissing(received: map<nat, Payload>, start: nat, recovered: seq<Payload>) returns (m: map<nat, Payload>)
    ensures m == Fill(received, start, recovered, K).0
  {
    m := received;
    var used := 0;
    for i := 0 to K
      invariant (m, used) == Fill(received, start, recovered, i)
    {
      if At(start, i) !in m && used < |recovered| {
        m := m[At(start, i) := recovered[used]];
        used := used + 1;
      }
    }
  }

  method CollectPayloads(m: map<nat, Payload>, start: nat) returns (payloads: seq<Payload>)
    ensures payloads == Collect(m, start, K)
  {
    payloads := [];
    for i := 0 to K
      invariant payloads == Collect(m, start, i)
    {
      if At(start, i) in m && |m[At(start, i)]| > 0 {
        payloads := payloads + [m[At(start, i)]];
      }
    }
  }

  method DueBlocks(r: Receiver, now: int) returns (order: seq<nat>)
    ensures Distinct(order) && forall start :: start in order <==> IsDue(r, start, now)
  {
    order := [];
    var rest := r.firstAt.Keys;
    while rest != {}
      invariant rest <= r.firstAt.Keys
      invariant Distinct(order) && forall start :: start in order <==> IsDue(r, start, now) && start !in rest
    {
      var start :| start in rest;
      if Complete(r.received, start) || now - r.firstAt[start] >= BLOCK_WAIT_MS {
        order := order + [start];
      }
      rest := rest - {start};
    }
  }

  // ---- The lane end to end ------------------------------------------------

  /** The completed blocks and the open one as it would be closed now. */
  function Outgoing(blocks: seq<seq<Payload>>, open: seq<Payload>): seq<seq<Payload>>
    requires |open| <= K
  {
    blocks + [Filled(open)]
  }

  /** Every packet a sender has put out is that packet of its blocks, also while the
      last block is still open. */
  lemma {:induction false} SenderPackets(s: Sender, n: nat)
    requires s.Valid() && BLOCK * (|s.blocks| + 1) <= U32_LIMIT && n < |s.sent|
    ensures var blocks := Outgoing(s.blocks, s.open);
      Blocks(s.code, blocks) && n / BLOCK < |blocks| && s.sent[n] == PacketAt(s.code, blocks, n)
  {
    OutgoingValid(s.code, s.blocks, s.open);
    NumberParts(n, |s.blocks|, |s.open|);
    assert SentAt(s.code, s.blocks, s.open, s.sent, n);
  }

  lemma {:induction false} OutgoingValid(code: Code, blocks: seq<seq<Payload>>, open: seq<Payload>)
    requires Mds(code) && ValidHistory(blocks, open) && BLOCK * (|blocks| + 1) <= U32_LIMIT
    ensures Blocks(code, Outgoing(blocks, open))
  {
    var all := Outgoing(blocks, open);
    forall b | 0 <= b < |all| ensures ValidBlock(all[b]) && |Word(code, all[b])| == BLOCK {
      if b < |blocks| {
        assert ValidBlock(blocks[b]);
      }
      WordIsUniform(code, all[b]);
    }
  }

  /** Only packets that were sent arrive. */
  ghost predicate SentOnly(sent: nat, events: seq<Event>) {
    forall k :: 0 <= k < |events| && events[k].Arrive? ==> events[k].n < sent
  }

  lemma {:induction false} SentIsGenuine(s: Sender, events: seq<Event>)
    requires s.Valid() && SentOnly(|s.sent|, events)
    ensures Genuine(Outgoing(s.blocks, s.open), events)
  {
    forall k | 0 <= k < |events| && events[k].Arrive? ensures events[k].n / BLOCK < |s.blocks| + 1 {
      NumberParts(events[k].n, |s.blocks|, |s.open|);
    }
  }

  /** Of everything a sender accepted, the blocks of which ten packets arrive give
      back exactly their share: block by block, the accepted payloads in order. */
  lemma {:induction false} LaneEndToEnd(s: Sender, events: seq<Event>, b: nat)
    requires s.Valid() && BLOCK * (|s.blocks| + 1) <= U32_LIMIT && b < |s.blocks|
    requires SentOnly(|s.sent|, events) && |Arrived(events) * Positions(BLOCK * b)| >= K
    ensures var blocks := Outgoing(s.blocks, s.open);
      && Blocks(s.code, blocks) && Genuine(blocks, events)
      && Deliver(s.code, After(s.code, blocks, events), BLOCK * b).1 == NonEmpty(s.blocks[b])
    ensures AllOf(s.blocks[..b]) + NonEmpty(s.blocks[b]) <= Accepted(s.blocks, s.open)
  {
    OutgoingValid(s.code, s.blocks, s.open);
    SentIsGenuine(s, events);
    RunDelivers(s.code, Outgoing(s.blocks, s.open), events, b);
    ShareOf(s.blocks, s.open, b);
  }

  /** The data packets of a block that is still open are delivered as they came. */
  lemma {:induction false} OpenBlockEndToEnd(s: Sender, events: seq<Event>)
    requires s.Valid() && BLOCK * (|s.blocks| + 1) <= U32_LIMIT && SentOnly(|s.sent|, events)
    ensures var blocks, start := Outgoing(s.blocks, s.open), BLOCK * |s.blocks|;
      && Blocks(s.code, blocks) && Genuine(blocks, events)
      && Deliver(s.code, After(s.code, blocks, events), start).1 == Those(s.open, start, Arrived(events), |s.open|)
  {
    var blocks, b := Outgoing(s.blocks, s.open), |s.blocks|;
    OutgoingValid(s.code, s.blocks, s.open);
    SentIsGenuine(s, events);
    ArrivedSent(|s.sent|, events);
    FewArrived(BLOCK * b, |s.open|, Arrived(events));
    RunDeliversPart(s.code, blocks, events, b);
    ThoseOfOpen(s.open, BLOCK * b, Arrived(events), K);
  }

  lemma {:induction false} ArrivedSent(sent: nat, events: seq<Event>)
    requires SentOnly(sent, events)
    ensures forall n :: n in Arrived(events) ==> n < sent
  {
    if events == [] {
    } else {
      ArrivedSent(sent, events[..|events| - 1]);
    }
  }

  lemma {:induction false} FewArrived(start: nat, open: nat, numbers: set<nat>)
    requires open < K && forall n :: n in numbers ==> n < start + open
    ensures |numbers * Positions(start)| < K
  {
    NumbersBetween(start, open, numbers * Positions(start));
  }

  lemma {:induction false} NumbersBetween(start: nat, count: nat, numbers: set<nat>)
    requires forall n :: n in numbers ==> start <= n < start + count
    ensures |numbers| <= count
  {
    if count == 0 {
      assert numbers == {};
    } else {
      var last := start + count - 1;
      NumbersBetween(start, count - 1, numbers - {last});
      assert numbers <= (numbers - {last}) + {last};
    }
  }

  lemma {:induction false} ThoseOfOpen(open: seq<Payload>, start: nat, numbers: set<nat>, i: nat)
    requires |open| <= i <= K && forall n :: n in numbers ==> n < start + |open|
    ensures Those(Filled(open), start, numbers, i) == Those(open, start, numbers, |open|)
  {
    if i == |open| {
      ThosePrefix(open, start, numbers, i);
    } else {
      ThoseOfOpen(open, start, numbers, i - 1);
      assert Filled(open)[i - 1] == [];
    }
  }

  lemma {:induction false} ThosePrefix(open: seq<Payload>, start: nat, numbers: set<nat>, i: nat)
    requires i <= |open| <= K
    ensures Those(Filled(open), start, numbers, i) == Those(open, start, numbers, i)
  {
    if i == 0 {
    } else {
      ThosePrefix(open, start, numbers, i - 1);
    }
  }

  lemma {:induction false} ShareOf(blocks: seq<seq<Payload>>, open: seq<Payload>, b: nat)
    requires b < |blocks|
    ensures AllOf(blocks[..b]) + NonEmpty(blocks[b]) <= Accepted(blocks, open)
  {
    AllOfPrefix(blocks, b + 1);
    assert blocks[..b + 1][..b] == blocks[..b];
  }

  lemma {:induction false} AllOfPrefix(blocks: seq<seq<Payload>>, b: nat)
    requires b <= |blocks|
    ensures AllOf(blocks[..b]) <= AllOf(blocks)
    decreases |blocks|
  {
    if b == |blocks| {
      assert blocks[..b] == blocks;
    } else {
      var init := blocks[..|blocks| - 1];
      AllOfPrefix(init, b);
      assert init[..b] == blocks[..b];
    }
  }
}
