/** When the datagram lane delivers a block: runs of arriving packets and sweeps, and
    which blocks each sweep takes and what it hands over. */
module FecSweep {
  import opened Bytes
  import opened FecBlocks
  import opened FecReceiver
  import opened FecSender
  import opened Wrappers

  // ---- Runs ---------------------------------------------------------------

  datatype Event = Packet(n: nat, at: int) | SweepAt(at: int)

  /** The events, the receiver before the first and after each of them, and what each
      sweep takes and hands over. */
  datatype Run = Run(events: seq<Event>, states: seq<Receiver>, taken: seq<seq<nat>>, out: seq<seq<Payload>>)

  ghost predicate ValidRun(code: Code, blocks: seq<seq<Payload>>, r: Run)
    requires Blocks(code, blocks)
  {
    && |r.states| == |r.events| + 1 && |r.taken| == |r.out| == |r.events|
    && r.states[0] == Receiver(map[], map[], map[])
    && forall k {:trigger StepOk(code, blocks, r, k)} :: 0 <= k < |r.events| ==> StepOk(code, blocks, r, k)
  }

  /** A packet of the sender arrives, or a sweep runs. */
  ghost predicate StepOk(code: Code, blocks: seq<seq<Payload>>, r: Run, k: nat)
    requires Blocks(code, blocks) && k < |r.events| == |r.taken| == |r.out| && k + 1 < |r.states|
  {
    match r.events[k]
    case Packet(n, at) =>
      && n / BLOCK < |blocks| && r.states[k + 1] == Ingest(r.states[k], PacketAt(code, blocks, n), at)
      && r.taken[k] == [] && r.out[k] == []
    case SweepAt(at) => Swept(code, r.states[k], at, r.taken[k], r.states[k + 1], r.out[k])
  }

  /** The clock never runs backwards. */
  ghost predicate InOrder(events: seq<Event>) {
    forall i, j :: 0 <= i < j < |events| ==> events[i].at <= events[j].at
  }

  // ---- What has come since the last delivery ------------------------------

  predicate TakenAt(r: Run, l: nat, b: nat) {
    l < |r.taken| && BLOCK * b in r.taken[l]
  }

  /** Event `i` brought a packet of block `b`, and no sweep took the block between it
      and event `k`. */
  ghost predicate CameOf(r: Run, i: nat, k: nat, b: nat) {
    && i < k <= |r.events| && r.events[i].Packet? && r.events[i].n / BLOCK == b
    && forall l {:trigger TakenAt(r, l, b)} :: i < l < k ==> !TakenAt(r, l, b)
  }

  ghost predicate Came(r: Run, i: nat, k: nat, n: nat) {
    CameOf(r, i, k, n / BLOCK) && r.events[i].n == n
  }

  ghost predicate HasCome(r: Run, k: nat, n: nat) {
    exists i: nat :: Came(r, i, k, n)
  }

  ghost predicate FirstCame(r: Run, i: nat, k: nat, b: nat) {
    CameOf(r, i, k, b) && forall j {:trigger CameOf(r, j, k, b)} :: 0 <= j < i ==> !CameOf(r, j, k, b)
  }

  ghost predicate StoredIffCome(r: Run, k: nat, n: nat)
    requires k < |r.states|
  {
    n in r.states[k].buffer <==> HasCome(r, k, n)
  }

  /** `firstAt` is the time of the first packet since the block was last taken. */
  ghost predicate FirstRight(r: Run, k: nat, b: nat)
    requires k < |r.states|
  {
    if BLOCK * b in r.states[k].firstAt
    then exists i: nat :: FirstCame(r, i, k, b) && r.events[i].at == r.states[k].firstAt[BLOCK * b]
    else forall i: nat {:trigger CameOf(r, i, k, b)} :: !CameOf(r, i, k, b)
  }

  ghost predicate WholeBlocks(s: Receiver) {
    forall start :: start in s.firstAt ==> start % BLOCK == 0
  }

  /** The receiver knows exactly what has come. */
  ghost predicate Knows(code: Code, blocks: seq<seq<Payload>>, r: Run, k: nat)
    requires Blocks(code, blocks) && k < |r.states|
  {
    && Faithful(code, blocks, r.states[k]) && WholeBlocks(r.states[k])
    && (forall n {:trigger StoredIffCome(r, k, n)} :: StoredIffCome(r, k, n))
    && (forall b {:trigger FirstRight(r, k, b)} :: FirstRight(r, k, b))
  }

  /** One event later: what came is still there unless it is taken now, and a packet
      that comes now is there too. */
  lemma {:induction false} CameLater(r: Run, i: nat, k: nat, b: nat)
    requires k < |r.events|
    ensures CameOf(r, i, k + 1, b) <==>
            (CameOf(r, i, k, b) && !TakenAt(r, k, b)) || (i == k && r.events[k].Packet? && r.events[k].n / BLOCK == b)
  {
    if CameOf(r, i, k + 1, b) && i < k {
      assert CameOf(r, i, k, b);
    }
  }

  lemma {:induction false} HasComeLater(r: Run, k: nat, n: nat)
    requires k < |r.events|
    ensures HasCome(r, k + 1, n) <==>
            (HasCome(r, k, n) && !TakenAt(r, k, n / BLOCK)) || (r.events[k].Packet? && r.events[k].n == n)
  {
    if HasCome(r, k + 1, n) {
      var i: nat :| Came(r, i, k + 1, n);
      CameLater(r, i, k, n / BLOCK);
      assert i < k ==> Came(r, i, k, n);
    }
    if HasCome(r, k, n) && !TakenAt(r, k, n / BLOCK) {
      var i: nat :| Came(r, i, k, n);
      CameLater(r, i, k, n / BLOCK);
      assert Came(r, i, k + 1, n);
    }
    if r.events[k].Packet? && r.events[k].n == n {
      CameLater(r, k, k, n / BLOCK);
      assert Came(r, k, k + 1, n);
    }
  }

  // ---- Packets ------------------------------------------------------------

  lemma {:induction false} PacketKnown(code: Code, blocks: seq<seq<Payload>>, r: Run, k: nat)
    requires Blocks(code, blocks) && ValidRun(code, blocks, r) && k < |r.events| && r.events[k].Packet? && Knows(code, blocks, r, k)
    ensures Knows(code, blocks, r, k + 1)
  {
    assert StepOk(code, blocks, r, k);
    var n, s, next := r.events[k].n, r.states[k], k + 1;
    IngestKeeps(code, blocks, s, n, r.events[k].at);
    IngestFirst(code, blocks, s, n, r.events[k].at);
    StartIsWhole(n);
    forall m ensures StoredIffCome(r, next, m) {
      assert StoredIffCome(r, k, m);
      HasComeLater(r, k, m);
    }
    forall b ensures FirstRight(r, next, b) {
      PacketFirst(code, blocks, r, k, b);
    }
  }

  lemma {:induction false} StartIsWhole(n: nat)
    ensures BLOCK * (n / BLOCK) == BlockStart(n) && BlockStart(n) % BLOCK == 0
  {
  }

  lemma {:induction false} IngestFirst(code: Code, blocks: seq<seq<Payload>>, s: Receiver, n: nat, at: int)
    requires Blocks(code, blocks) && n / BLOCK < |blocks|
    ensures Ingest(s, PacketAt(code, blocks, n), at).firstAt ==
            if BlockStart(n) in s.firstAt then s.firstAt else s.firstAt[BlockStart(n) := at]
  {
    PacketFields(code, blocks, n);
  }

  lemma {:induction false} PacketFirst(code: Code, blocks: seq<seq<Payload>>, r: Run, k: nat, b: nat)
    requires Blocks(code, blocks) && ValidRun(code, blocks, r) && k < |r.events| && r.events[k].Packet? && Knows(code, blocks, r, k)
    ensures FirstRight(r, k + 1, b)
  {
    assert StepOk(code, blocks, r, k) && FirstRight(r, k, b);
    var n, s, next := r.events[k].n, r.states[k], k + 1;
    IngestFirst(code, blocks, s, n, r.events[k].at);
    StartIsWhole(n);
    forall i: nat ensures CameOf(r, i, next, b) <==> CameOf(r, i, k, b) || (i == k && n / BLOCK == b) {
      CameLater(r, i, k, b);
    }
    if BLOCK * b in s.firstAt {
      var i: nat :| FirstCame(r, i, k, b) && r.events[i].at == s.firstAt[BLOCK * b];
      assert FirstCame(r, i, next, b);
    } else if n / BLOCK == b {
      assert FirstCame(r, k, next, b);
    }
  }

  // ---- Sweeps -------------------------------------------------------------

  /** Several deliveries forget exactly the packets of their blocks. */
  lemma {:induction false} DeliverAllKeeps(code: Code, blocks: seq<seq<Payload>>, s: Receiver, starts: seq<nat>)
    requires Blocks(code, blocks) && Faithful(code, blocks, s)
    requires forall i :: 0 <= i < |starts| ==> starts[i] % BLOCK == 0
    ensures var s' := DeliverAll(code, s, starts).0;
      && Faithful(code, blocks, s') && s'.firstAt == s.firstAt
      && forall n :: n in s'.buffer <==> n in s.buffer && BLOCK * (n / BLOCK) !in starts
  {
    if starts == [] {
    } else {
      var init, last := starts[..|starts| - 1], starts[|starts| - 1];
      var s1 := DeliverAll(code, s, init).0;
      DeliverAllKeeps(code, blocks, s, init);
      assert last == BLOCK * (last / BLOCK) && starts == init + [last];
      DeliverKeeps(code, blocks, s1, last / BLOCK);
      forall n: nat ensures n in Positions(last) <==> BLOCK * (n / BLOCK) == last {
        InBlockOf(last / BLOCK, n);
      }
    }
  }

  lemma {:induction false} InBlockOf(b: nat, n: nat)
    ensures n in Positions(BLOCK * b) <==> n / BLOCK == b
  {
  }

  lemma {:induction false} SweepKnown(code: Code, blocks: seq<seq<Payload>>, r: Run, k: nat)
    requires Blocks(code, blocks) && ValidRun(code, blocks, r) && k < |r.events| && r.events[k].SweepAt? && Knows(code, blocks, r, k)
    ensures Knows(code, blocks, r, k + 1)
  {
    assert StepOk(code, blocks, r, k);
    var s, order := r.states[k], r.taken[k];
    var s0 := s.(firstAt := s.firstAt - set start | start in order);
    forall i | 0 <= i < |order| ensures order[i] % BLOCK == 0 {
      assert order[i] in order;
    }
    LessIsFaithful(code, blocks, s, s0);
    DeliverAllKeeps(code, blocks, s0, order);
    var next := k + 1;
    forall n ensures StoredIffCome(r, next, n) {
      assert StoredIffCome(r, k, n);
      HasComeLater(r, k, n);
    }
    forall b ensures FirstRight(r, next, b) {
      SweepFirst(r, k, b);
    }
  }

  lemma {:induction false} LessIsFaithful(code: Code, blocks: seq<seq<Payload>>, s: Receiver, s': Receiver)
    requires Blocks(code, blocks) && Faithful(code, blocks, s) && s'.buffer == s.buffer && s'.received == s.received
    ensures Faithful(code, blocks, s')
  {
    forall n ensures NotedIffStored(s', n) {
      assert NotedIffStored(s, n);
    }
  }

  lemma {:induction false} SweepFirst(r: Run, k: nat, b: nat)
    requires k < |r.events| == |r.taken| && |r.states| == |r.events| + 1 && r.events[k].SweepAt? && FirstRight(r, k, b)
    requires r.states[k + 1].firstAt == r.states[k].firstAt - set start | start in r.taken[k]
    ensures FirstRight(r, k + 1, b)
  {
    var next := k + 1;
    forall i: nat ensures CameOf(r, i, next, b) <==> CameOf(r, i, k, b) && !TakenAt(r, k, b) {
      CameLater(r, i, k, b);
    }
    if BLOCK * b in r.states[k].firstAt && !TakenAt(r, k, b) {
      var i: nat :| FirstCame(r, i, k, b) && r.events[i].at == r.states[k].firstAt[BLOCK * b];
      assert FirstCame(r, i, next, b);
    }
  }

  lemma {:induction false} RunKnows(code: Code, blocks: seq<seq<Payload>>, r: Run, k: nat)
    requires Blocks(code, blocks) && ValidRun(code, blocks, r) && k < |r.states|
    ensures Knows(code, blocks, r, k)
  {
    if k == 0 {
    } else {
      RunKnows(code, blocks, r, k - 1);
      if r.events[k - 1].Packet? {
        PacketKnown(code, blocks, r, k - 1);
      } else {
        SweepKnown(code, blocks, r, k - 1);
      }
    }
  }

  // ---- What a sweep takes -------------------------------------------------

  /** Some packet of the block has waited thirty milliseconds since it came. */
  ghost predicate Waited(r: Run, k: nat, b: nat)
    requires k < |r.events|
  {
    exists i: nat :: CameOf(r, i, k, b) && r.events[k].at - r.events[i].at >= 30
  }

  ghost predicate AllDataCame(r: Run, k: nat, b: nat) {
    forall x {:trigger At(BLOCK * b, x)} :: 0 <= x < K ==> HasCome(r, k, At(BLOCK * b, x))
  }

  /** A sweep takes a block exactly if one of its packets has come since it was last
      taken and waited thirty milliseconds, or all ten data packets have come since. */
  lemma {:induction false} SweepTakes(code: Code, blocks: seq<seq<Payload>>, r: Run, k: nat, b: nat)
    requires Blocks(code, blocks) && ValidRun(code, blocks, r) && InOrder(r.events) && k < |r.events| && r.events[k].SweepAt?
    ensures BLOCK * b in r.taken[k] <==> Waited(r, k, b) || AllDataCame(r, k, b)
  {
    RunKnows(code, blocks, r, k);
    assert StepOk(code, blocks, r, k) && FirstRight(r, k, b);
    CompleteIffCame(code, blocks, r, k, b);
    WaitedIff(r, k, b);
    if AllDataCame(r, k, b) {
      SomeCame(r, k, b);
    }
  }

  /** So a packet waits for the first sweep from thirty milliseconds on at most. */
  lemma {:induction false} DeliveredInTime(code: Code, blocks: seq<seq<Payload>>, r: Run, i: nat, k: nat)
    requires Blocks(code, blocks) && ValidRun(code, blocks, r) && InOrder(r.events) && i < k < |r.events|
    requires r.events[i].Packet? && r.events[k].SweepAt? && r.events[k].at - r.events[i].at >= 30
    ensures exists l: nat :: i < l <= k && TakenAt(r, l, r.events[i].n / BLOCK)
  {
    var b := r.events[i].n / BLOCK;
    if CameOf(r, i, k, b) {
      SweepTakes(code, blocks, r, k, b);
      assert TakenAt(r, k, b);
    }
  }

  lemma {:induction false} CompleteIffCame(code: Code, blocks: seq<seq<Payload>>, r: Run, k: nat, b: nat)
    requires Blocks(code, blocks) && k < |r.states| && Knows(code, blocks, r, k)
    ensures Complete(r.states[k].received, BLOCK * b) <==> AllDataCame(r, k, b)
  {
    forall x | 0 <= x < K ensures At(BLOCK * b, x) in r.states[k].received <==> HasCome(r, k, At(BLOCK * b, x)) {
      BlockParts(b, x);
      assert NotedIffStored(r.states[k], At(BLOCK * b, x)) && StoredIffCome(r, k, At(BLOCK * b, x));
    }
  }

  lemma {:induction false} WaitedIff(r: Run, k: nat, b: nat)
    requires k < |r.events| && k < |r.states| && InOrder(r.events) && FirstRight(r, k, b)
    ensures Waited(r, k, b) <==>
            BLOCK * b in r.states[k].firstAt && r.events[k].at - r.states[k].firstAt[BLOCK * b] >= 30
  {
    if BLOCK * b in r.states[k].firstAt {
      var f: nat :| FirstCame(r, f, k, b) && r.events[f].at == r.states[k].firstAt[BLOCK * b];
      if Waited(r, k, b) {
        var i: nat :| CameOf(r, i, k, b) && r.events[k].at - r.events[i].at >= 30;
        assert f <= i;
      }
    }
  }

  lemma {:induction false} SomeCame(r: Run, k: nat, b: nat)
    requires AllDataCame(r, k, b)
    ensures exists i: nat :: CameOf(r, i, k, b)
  {
    BlockParts(b, 0);
    assert HasCome(r, k, At(BLOCK * b, 0));
    var i: nat :| Came(r, i, k, At(BLOCK * b, 0));
    assert CameOf(r, i, k, b);
  }

  // ---- What a sweep hands over --------------------------------------------

  /** A block's share: everything if ten packets came, else the payloads that came. */
  function Share(block: seq<Payload>, start: nat, numbers: set<nat>): seq<Payload>
    requires |block| == K
  {
    if |numbers| >= K then NonEmpty(block) else Those(block, start, numbers, K)
  }

  lemma {:induction false} DeliverShare(code: Code, blocks: seq<seq<Payload>>, s: Receiver, b: nat, numbers: set<nat>)
    requires Blocks(code, blocks) && Faithful(code, blocks, s) && b < |blocks|
    requires numbers == s.buffer.Keys * Positions(BLOCK * b)
    ensures Deliver(code, s, BLOCK * b).1 == Share(blocks[b], BLOCK * b, numbers)
  {
    HeldCount(s.buffer, BLOCK * b);
    if |numbers| >= K {
      DeliverExact(code, blocks, s, b);
    } else {
      DeliverPartial(code, blocks, s, b);
      forall j | 0 <= j < K ensures At(BLOCK * b, j) in s.buffer.Keys <==> At(BLOCK * b, j) in numbers {
        BlockParts(b, j);
        InBlockOf(b, At(BLOCK * b, j));
      }
      ThoseSame(blocks[b], BLOCK * b, s.buffer.Keys, numbers, K);
    }
  }

  /** Whole blocks that the sender has. */
  predicate OfBlocks(blocks: seq<seq<Payload>>, starts: seq<nat>) {
    forall i :: 0 <= i < |starts| ==>
      starts[i] % BLOCK == 0 && starts[i] / BLOCK < |blocks| && |blocks[starts[i] / BLOCK]| == K
  }

  /** The shares of these blocks, in this order, when these packets are there. */
  function Shares(blocks: seq<seq<Payload>>, numbers: set<nat>, starts: seq<nat>): seq<Payload>
    requires OfBlocks(blocks, starts)
  {
    if starts == [] then []
    else
      var last := starts[|starts| - 1];
      Shares(blocks, numbers, starts[..|starts| - 1]) + Share(blocks[last / BLOCK], last, numbers * Positions(last))
  }

  lemma {:induction false} SharesAre(code: Code, blocks: seq<seq<Payload>>, s: Receiver, starts: seq<nat>)
    requires Blocks(code, blocks) && Faithful(code, blocks, s) && OfBlocks(blocks, starts) && Distinct(starts)
    ensures DeliverAll(code, s, starts).1 == Shares(blocks, s.buffer.Keys, starts)
  {
    if starts == [] {
    } else {
      var init, last := starts[..|starts| - 1], starts[|starts| - 1];
      var b := last / BLOCK;
      SharesAre(code, blocks, s, init);
      assert last == BLOCK * b && last !in init;
      LastShare(code, blocks, s, init, b);
      DeliverLast(code, s, init, last, starts);
      SharesLast(blocks, s.buffer.Keys, init, last, starts);
    }
  }

  lemma {:induction false} DeliverLast(code: Code, s: Receiver, init: seq<nat>, last: nat, starts: seq<nat>)
    requires starts != [] && init == starts[..|starts| - 1] && last == starts[|starts| - 1]
    ensures DeliverAll(code, s, starts).1 ==
            DeliverAll(code, s, init).1 + Deliver(code, DeliverAll(code, s, init).0, last).1
  {
  }

  lemma {:induction false} SharesLast(blocks: seq<seq<Payload>>, numbers: set<nat>, init: seq<nat>, last: nat, starts: seq<nat>)
    requires OfBlocks(blocks, starts) && starts != [] && init == starts[..|starts| - 1] && last == starts[|starts| - 1]
    ensures Shares(blocks, numbers, starts) ==
            Shares(blocks, numbers, init) + Share(blocks[last / BLOCK], last, numbers * Positions(last))
  {
  }

  lemma {:induction false} LastShare(code: Code, blocks: seq<seq<Payload>>, s: Receiver, init: seq<nat>, b: nat)
    requires Blocks(code, blocks) && Faithful(code, blocks, s) && OfBlocks(blocks, init) && b < |blocks| && BLOCK * b !in init
    ensures var start := BLOCK * b;
      Deliver(code, DeliverAll(code, s, init).0, start).1 == Share(blocks[b], start, s.buffer.Keys * Positions(start))
  {
    var s1 := DeliverAll(code, s, init).0;
    DeliverAllKeeps(code, blocks, s, init);
    forall n: nat ensures n in s.buffer.Keys * Positions(BLOCK * b) <==> n in s1.buffer.Keys * Positions(BLOCK * b) {
      InBlockOf(b, n);
    }
    DeliverShare(code, blocks, s1, b, s.buffer.Keys * Positions(BLOCK * b));
  }

  /** What has come since its block was last taken. */
  ghost predicate IsCome(r: Run, k: nat, numbers: set<nat>) {
    forall n {:trigger HasCome(r, k, n)} :: n in numbers <==> HasCome(r, k, n)
  }

  /** A sweep hands over, block by block, all payloads of a block of which ten packets
      have come since it was last taken, and otherwise those that came. */
  lemma {:induction false} SweepDelivers(code: Code, blocks: seq<seq<Payload>>, r: Run, k: nat) returns (come: set<nat>)
    requires Blocks(code, blocks) && ValidRun(code, blocks, r) && k < |r.events| && r.events[k].SweepAt?
    ensures IsCome(r, k, come)
    ensures OfBlocks(blocks, r.taken[k]) && Distinct(r.taken[k]) && r.out[k] == Shares(blocks, come, r.taken[k])
  {
    RunKnows(code, blocks, r, k);
    assert StepOk(code, blocks, r, k);
    var s, order := r.states[k], r.taken[k];
    forall i | 0 <= i < |order| ensures order[i] % BLOCK == 0 && order[i] / BLOCK < |blocks| {
      assert order[i] in order && order[i] == BLOCK * (order[i] / BLOCK);
      TakenIsKnown(code, blocks, r, k, order[i] / BLOCK);
    }
    come := s.buffer.Keys;
    forall n: nat ensures n in come <==> HasCome(r, k, n) {
      assert StoredIffCome(r, k, n);
    }
    var s0 := s.(firstAt := s.firstAt - set start | start in order);
    LessIsFaithful(code, blocks, s, s0);
    SharesAre(code, blocks, s0, order);
  }

  lemma {:induction false} TakenIsKnown(code: Code, blocks: seq<seq<Payload>>, r: Run, k: nat, b: nat)
    requires Blocks(code, blocks) && ValidRun(code, blocks, r) && k < |r.states| && Knows(code, blocks, r, k)
    requires BLOCK * b in r.states[k].firstAt
    ensures b < |blocks|
  {
    assert FirstRight(r, k, b);
    var i: nat :| FirstCame(r, i, k, b) && r.events[i].at == r.states[k].firstAt[BLOCK * b];
    assert StepOk(code, blocks, r, i);
  }
}
