/** The receiver of the datagram lane with its two locks: `ingest` notes a packet
    under one and stores it under the other, while `deliverBlock` of the sweeping
    goroutine checks, decodes, fills in, takes and forgets in separate steps. */
module FecRace {
  import opened Bytes
  import opened FecBlocks
  import opened FecGaps
  import opened FecReceiver
  import opened FecSender
  import opened Wrappers

  // ---- Steps --------------------------------------------------------------

  /** How far the delivery of block `b` has come.  `held` is what the decoder held
      when it reconstructed, and `f` keeps what the filling of the gaps saw and what
      was noted since.  A block that had all its data at the check has no gaps. */
  datatype Phase =
    | Idle
    | Checked(b: nat)
    | Decoded(b: nat, held: Held, recovered: seq<Payload>)
    | Ready(b: nat, f: Filling)
    | Taken(b: nat)

  /** `inFlight` is the packet that is noted and not stored yet, `taken` the blocks
      delivered so far. */
  datatype State = State(
    received: map<nat, Payload>, buffer: map<nat, seq<byte>>, inFlight: Option<nat>, phase: Phase, taken: set<nat>)

  datatype Step = NoteNext(n: nat) | StoreIt | Check(b: nat) | Decode | FillIn | Take | Forget

  const EMPTY: State := State(map[], map[], None, Idle, {})

  predicate Enabled(blocks: seq<seq<Payload>>, s: State, e: Step) {
    match e
    case NoteNext(n) => s.inFlight.None? && n / BLOCK < |blocks|
    case StoreIt => s.inFlight.Some? && s.inFlight.value / BLOCK < |blocks|
    case Check(b) => s.phase.Idle? && b < |blocks|
    case Decode => s.phase.Checked?
    case FillIn => s.phase.Decoded? && |s.phase.held| == BLOCK
    case Take => s.phase.Ready?
    case Forget => s.phase.Taken?
  }

  function Since(phase: Phase, n: nat): Phase {
    if phase.Ready? then phase.(f := phase.f.(since := phase.f.since + {n})) else phase
  }

  /** What `Take` hands to the application. */
  function Output(s: State): seq<Payload>
    requires s.phase.Ready?
  {
    Collect(s.received, BLOCK * s.phase.b, K)
  }

  /** Packet `n` of the sender's blocks is noted. */
  ghost function NoteNumber(code: Code, blocks: seq<seq<Payload>>, received: map<nat, Payload>, n: nat): (m: map<nat, Payload>)
    requires Blocks(code, blocks) && n / BLOCK < |blocks|
    ensures m == if n % BLOCK < K then received[n := blocks[n / BLOCK][n % BLOCK]] else received
  {
    NoteIs(code, blocks, received, n);
    Note(received, PacketAt(code, blocks, n))
  }

  ghost function StoreNumber(code: Code, blocks: seq<seq<Payload>>, buffer: map<nat, seq<byte>>, n: nat): (m: map<nat, seq<byte>>)
    requires Blocks(code, blocks) && n / BLOCK < |blocks|
    ensures m == buffer[n := Body(code, blocks[n / BLOCK], n % BLOCK)]
  {
    StoreIs(code, blocks, buffer, n);
    Store(buffer, PacketAt(code, blocks, n))
  }

  ghost function Next(code: Code, blocks: seq<seq<Payload>>, s: State, e: Step): State
    requires Blocks(code, blocks) && Enabled(blocks, s, e)
  {
    match e
    case NoteNext(n) =>
      s.(received := NoteNumber(code, blocks, s.received, n), inFlight := Some(n), phase := Since(s.phase, n))
    case StoreIt =>
      s.(buffer := StoreNumber(code, blocks, s.buffer, s.inFlight.value), inFlight := None)
    case Check(b) =>
      var f := Filling(HeldAt(s.buffer, BLOCK * b), s.received.Keys, {});
      s.(phase := if Complete(s.received, BLOCK * b) then Ready(b, f) else Checked(b))
    case Decode =>
      var held := HeldAt(s.buffer, BLOCK * s.phase.b);
      s.(phase := Decoded(s.phase.b, held, Reconstruct(code, held)))
    case FillIn =>
      s.(received := Fill(s.received, BLOCK * s.phase.b, s.phase.recovered, K).0,
         phase := Ready(s.phase.b, Filling(s.phase.held, s.received.Keys, {})))
    case Take =>
      s.(received := s.received - Positions(BLOCK * s.phase.b), phase := Taken(s.phase.b), taken := s.taken + {s.phase.b})
    case Forget =>
      s.(buffer := s.buffer - Positions(BLOCK * s.phase.b), phase := Idle)
  }

  /** An interleaving of the two goroutines: its steps, and the state before the first
      and after each of them. */
  datatype Run = Run(steps: seq<Step>, states: seq<State>)

  ghost predicate ValidRun(code: Code, blocks: seq<seq<Payload>>, r: Run)
    requires Blocks(code, blocks)
  {
    && |r.states| == |r.steps| + 1 && r.states[0] == EMPTY
    && forall k {:trigger StepOk(code, blocks, r, k)} :: 0 <= k < |r.steps| ==> StepOk(code, blocks, r, k)
  }

  ghost predicate StepOk(code: Code, blocks: seq<seq<Payload>>, r: Run, k: nat)
    requires Blocks(code, blocks) && k < |r.steps| && |r.states| == |r.steps| + 1
  {
    Enabled(blocks, r.states[k], r.steps[k]) && r.states[k + 1] == Next(code, blocks, r.states[k], r.steps[k])
  }

  lemma {:induction false} OneMoreStep(code: Code, blocks: seq<seq<Payload>>, r: Run, e: Step) returns (more: Run)
    requires Blocks(code, blocks) && ValidRun(code, blocks, r) && Enabled(blocks, r.states[|r.steps|], e)
    ensures ValidRun(code, blocks, more) && more.steps == r.steps + [e]
    ensures more.states == r.states + [Next(code, blocks, r.states[|r.steps|], e)]
  {
    more := Run(r.steps + [e], r.states + [Next(code, blocks, r.states[|r.steps|], e)]);
    forall k | 0 <= k < |more.steps| ensures StepOk(code, blocks, more, k) {
      if k < |r.steps| {
        StepStays(code, blocks, r, more, k);
      }
    }
  }

  lemma {:induction false} StepStays(code: Code, blocks: seq<seq<Payload>>, r: Run, more: Run, k: nat)
    requires Blocks(code, blocks) && ValidRun(code, blocks, r) && k < |r.steps| < |more.steps| == |more.states| - 1
    requires more.steps[k] == r.steps[k] && more.states[k] == r.states[k] && more.states[k + 1] == r.states[k + 1]
    ensures StepOk(code, blocks, more, k)
  {
    assert StepOk(code, blocks, r, k);
  }

  // ---- What every interleaving keeps --------------------------------------

  /** Payloads may stand in the wrong place only in a gap that was filled, until its
      own packet comes in or the block is taken. */
  predicate Astray(s: State, n: nat) {
    s.phase.Ready? && s.phase.b == n / BLOCK && n % BLOCK < K && n !in s.phase.f.before && n !in s.phase.f.since
  }

  predicate Right(blocks: seq<seq<Payload>>, s: State, n: nat) {
    NotedRight(blocks, s.received, n) || Astray(s, n)
  }

  predicate Arrived(s: State, n: nat) {
    n in s.buffer || s.inFlight == Some(n)
  }

  /** Until its block is taken, a data packet is noted before it is stored, and but
      for gaps just filled nothing else is noted. */
  predicate NotedFirst(s: State, n: nat) {
    n / BLOCK !in s.taken && n % BLOCK < K ==>
      && (Arrived(s, n) ==> n in s.received)
      && (n in s.received ==> Arrived(s, n) || (s.phase.Ready? && s.phase.b == n / BLOCK))
  }

  ghost predicate PhaseRight(code: Code, blocks: seq<seq<Payload>>, s: State)
    requires Blocks(code, blocks)
  {
    match s.phase
    case Idle => true
    case Checked(b) => b < |blocks|
    case Decoded(b, held, recovered) =>
      && b < |blocks| && HeldOf(code, blocks[b], held) && recovered == Reconstruct(code, held)
      && (b !in s.taken ==> HeldNoted(held, s.received.Keys, BLOCK * b))
    case Ready(b, f) =>
      && b < |blocks| && HeldOf(code, blocks[b], f.held) && Holding(s.received, f, BLOCK * b, blocks[b])
      && (b !in s.taken ==> HeldNoted(f.held, f.before, BLOCK * b))
    case Taken(b) => b < |blocks| && b in s.taken
  }

  ghost predicate AllStored(code: Code, blocks: seq<seq<Payload>>, s: State)
    requires Blocks(code, blocks)
  {
    forall n {:trigger StoredRight(code, blocks, s.buffer, n)} :: StoredRight(code, blocks, s.buffer, n)
  }

  ghost predicate AllRight(blocks: seq<seq<Payload>>, s: State) {
    forall n {:trigger Right(blocks, s, n)} :: Right(blocks, s, n)
  }

  ghost predicate AllNotedFirst(s: State) {
    forall n {:trigger NotedFirst(s, n)} :: NotedFirst(s, n)
  }

  ghost predicate Inv(code: Code, blocks: seq<seq<Payload>>, s: State)
    requires Blocks(code, blocks)
  {
    && AllStored(code, blocks, s) && AllRight(blocks, s) && AllNotedFirst(s) && PhaseRight(code, blocks, s)
    && (s.inFlight.Some? ==> s.inFlight.value / BLOCK < |blocks|)
  }

  lemma {:induction false} StepKeepsInv(code: Code, blocks: seq<seq<Payload>>, s: State, e: Step)
    requires Blocks(code, blocks) && Inv(code, blocks, s) && Enabled(blocks, s, e)
    ensures Inv(code, blocks, Next(code, blocks, s, e))
  {
    match e
    case NoteNext(n) => NoteKeeps(code, blocks, s, n);
    case StoreIt => StoreKeeps(code, blocks, s);
    case Check(b) => CheckKeeps(code, blocks, s, b);
    case Decode => DecodeKeeps(code, blocks, s);
    case FillIn => FillKeeps(code, blocks, s);
    case Take => TakeKeeps(code, blocks, s);
    case Forget => ForgetKeeps(code, blocks, s);
  }

  lemma {:induction false} NoteKeeps(code: Code, blocks: seq<seq<Payload>>, s: State, n: nat)
    requires Blocks(code, blocks) && Inv(code, blocks, s) && Enabled(blocks, s, NoteNext(n))
    ensures Inv(code, blocks, Next(code, blocks, s, NoteNext(n)))
  {
    var s' := Next(code, blocks, s, NoteNext(n));
    forall k ensures Right(blocks, s', k) && NotedFirst(s', k) {
      assert Right(blocks, s, k) && NotedFirst(s, k);
    }
    if s.phase.Ready? {
      NoteHolds(blocks, s.received, s'.received, s.phase.f, s.phase.b, n);
    }
  }

  /** A packet that comes in puts its payload where it belongs. */
  lemma {:induction false} NoteHolds(blocks: seq<seq<Payload>>, received: map<nat, Payload>, noted: map<nat, Payload>,
                                     f: Filling, b: nat, n: nat)
    requires b < |blocks| && |blocks[b]| == K && |f.held| == BLOCK && Holding(received, f, BLOCK * b, blocks[b])
    requires n / BLOCK < |blocks| && |blocks[n / BLOCK]| == K
    requires noted == if n % BLOCK < K then received[n := blocks[n / BLOCK][n % BLOCK]] else received
    ensures Holding(noted, f.(since := f.since + {n}), BLOCK * b, blocks[b])
  {
    var start, f' := BLOCK * b, f.(since := f.since + {n});
    forall j | 0 <= j < K ensures HoldsAt(noted, f', start, blocks[b], j) {
      assert HoldsAt(received, f, start, blocks[b], j);
      BlockParts(b, j);
    }
  }

  lemma {:induction false} StoreKeeps(code: Code, blocks: seq<seq<Payload>>, s: State)
    requires Blocks(code, blocks) && Inv(code, blocks, s) && Enabled(blocks, s, StoreIt)
    ensures Inv(code, blocks, Next(code, blocks, s, StoreIt))
  {
    var s' := Next(code, blocks, s, StoreIt);
    forall k ensures StoredRight(code, blocks, s'.buffer, k) && Right(blocks, s', k) && NotedFirst(s', k) {
      assert StoredRight(code, blocks, s.buffer, k) && Right(blocks, s, k) && NotedFirst(s, k);
    }
  }

  /** Only the phase changes, and not from one in which payloads stand astray. */
  lemma {:induction false} PhaseKeeps(code: Code, blocks: seq<seq<Payload>>, s: State, phase: Phase)
    requires Blocks(code, blocks) && Inv(code, blocks, s) && !s.phase.Ready?
    ensures var s' := s.(phase := phase);
      AllStored(code, blocks, s') && AllRight(blocks, s') && AllNotedFirst(s')
  {
    var s' := s.(phase := phase);
    forall k ensures StoredRight(code, blocks, s'.buffer, k) && Right(blocks, s', k) && NotedFirst(s', k) {
      assert StoredRight(code, blocks, s.buffer, k) && Right(blocks, s, k) && NotedFirst(s, k);
    }
  }

  lemma {:induction false} AllNoted(blocks: seq<seq<Payload>>, s: State)
    requires AllRight(blocks, s) && !s.phase.Ready?
    ensures forall n {:trigger NotedRight(blocks, s.received, n)} :: NotedRight(blocks, s.received, n)
  {
    forall n ensures NotedRight(blocks, s.received, n) {
      assert Right(blocks, s, n);
    }
  }

  lemma {:induction false} CheckKeeps(code: Code, blocks: seq<seq<Payload>>, s: State, b: nat)
    requires Blocks(code, blocks) && Inv(code, blocks, s) && Enabled(blocks, s, Check(b))
    ensures Inv(code, blocks, Next(code, blocks, s, Check(b)))
  {
    PhaseKeeps(code, blocks, s, Next(code, blocks, s, Check(b)).phase);
    AllNoted(blocks, s);
    NotedHereIs(blocks, s.received, b);
    HeldAtIs(code, blocks, s.buffer, b);
    if Complete(s.received, BLOCK * b) {
      CompleteHolds(s.received, HeldAt(s.buffer, BLOCK * b), BLOCK * b, blocks[b]);
    }
  }

  lemma {:induction false} CompleteHolds(received: map<nat, Payload>, held: Held, start: nat, block: seq<Payload>)
    requires |held| == BLOCK && |block| == K && NotedHere(received, start, block) && Complete(received, start)
    ensures Holding(received, Filling(held, received.Keys, {}), start, block) && HeldNoted(held, received.Keys, start)
  {
    forall j | 0 <= j < K ensures HoldsAt(received, Filling(held, received.Keys, {}), start, block, j) {
      assert At(start, j) in received;
    }
  }

  lemma {:induction false} DecodeKeeps(code: Code, blocks: seq<seq<Payload>>, s: State)
    requires Blocks(code, blocks) && Inv(code, blocks, s) && Enabled(blocks, s, Decode)
    ensures Inv(code, blocks, Next(code, blocks, s, Decode))
  {
    var b := s.phase.b;
    PhaseKeeps(code, blocks, s, Next(code, blocks, s, Decode).phase);
    HeldAtIs(code, blocks, s.buffer, b);
    forall i | 0 <= i < K && HeldAt(s.buffer, BLOCK * b)[i].Some? && b !in s.taken
      ensures At(BLOCK * b, i) in s.received
    {
      BlockParts(b, i);
      assert NotedFirst(s, At(BLOCK * b, i));
    }
  }

  lemma {:induction false} FillKeeps(code: Code, blocks: seq<seq<Payload>>, s: State)
    requires Blocks(code, blocks) && Inv(code, blocks, s) && Enabled(blocks, s, FillIn)
    ensures Inv(code, blocks, Next(code, blocks, s, FillIn))
  {
    var s' := Next(code, blocks, s, FillIn);
    var b := s.phase.b;
    AllNoted(blocks, s);
    NotedHereIs(blocks, s.received, b);
    FillHolds(code, blocks[b], s.phase.held, s.received, BLOCK * b);
    FillOnlyHere(s.received, BLOCK * b, s.phase.recovered, K);
    forall n ensures Right(blocks, s', n) && NotedFirst(s', n) {
      assert NotedRight(blocks, s.received, n) && NotedFirst(s, n);
      InPositions(b, n);
    }
  }

  lemma {:induction false} InPositions(b: nat, n: nat)
    ensures n in Positions(BLOCK * b) <==> n / BLOCK == b
  {
  }

  lemma {:induction false} TakeKeeps(code: Code, blocks: seq<seq<Payload>>, s: State)
    requires Blocks(code, blocks) && Inv(code, blocks, s) && Enabled(blocks, s, Take)
    ensures Inv(code, blocks, Next(code, blocks, s, Take))
  {
    var s' := Next(code, blocks, s, Take);
    forall n ensures StoredRight(code, blocks, s'.buffer, n) && Right(blocks, s', n) && NotedFirst(s', n) {
      assert StoredRight(code, blocks, s.buffer, n) && Right(blocks, s, n) && NotedFirst(s, n);
      InPositions(s.phase.b, n);
    }
  }

  lemma {:induction false} ForgetKeeps(code: Code, blocks: seq<seq<Payload>>, s: State)
    requires Blocks(code, blocks) && Inv(code, blocks, s) && Enabled(blocks, s, Forget)
    ensures Inv(code, blocks, Next(code, blocks, s, Forget))
  {
    var s' := Next(code, blocks, s, Forget);
    forall n ensures StoredRight(code, blocks, s'.buffer, n) && Right(blocks, s', n) && NotedFirst(s', n) {
      assert StoredRight(code, blocks, s.buffer, n) && Right(blocks, s, n) && NotedFirst(s, n);
      InPositions(s.phase.b, n);
    }
  }

  lemma {:induction false} EveryInterleaving(code: Code, blocks: seq<seq<Payload>>, r: Run, t: nat)
    requires Blocks(code, blocks) && ValidRun(code, blocks, r) && t < |r.states|
    ensures Inv(code, blocks, r.states[t])
  {
    if t == 0 {
    } else {
      EveryInterleaving(code, blocks, r, t - 1);
      assert StepOk(code, blocks, r, t - 1);
      StepKeepsInv(code, blocks, r.states[t - 1], r.steps[t - 1]);
    }
  }

  // ---- What is delivered --------------------------------------------------

  /** In state `t` of the run, block `b` is to be taken next. */
  ghost predicate ReadyAt(code: Code, blocks: seq<seq<Payload>>, r: Run, t: nat, b: nat)
    requires Blocks(code, blocks)
  {
    ValidRun(code, blocks, r) && t < |r.states| && r.states[t].phase.Ready? && r.states[t].phase.b == b
  }

  /** However the goroutines interleave, a block that has all its data, or had ten
      packets decoded and its patched gaps in line, comes out whole; one that had
      fewer than ten comes out with the payloads that were noted. */
  lemma {:induction false} EveryDelivery(code: Code, blocks: seq<seq<Payload>>, r: Run, t: nat, b: nat)
    requires Blocks(code, blocks) && ReadyAt(code, blocks, r, t, b)
    ensures var s, start := r.states[t], BLOCK * b;
      && b < |blocks| && |s.phase.f.held| == BLOCK
      && (Enough(s.phase.f, start) && InLine(s.phase.f, start) ==> Output(s) == NonEmpty(blocks[b]))
      && (Count(s.phase.f.held) < K ==> Output(s) == Those(blocks[b], start, s.phase.f.before + s.phase.f.since, K))
  {
    EveryInterleaving(code, blocks, r, t);
    var s := r.states[t];
    var f := s.phase.f;
    if Enough(f, BLOCK * b) && InLine(f, BLOCK * b) {
      InLineRestores(s.received, f, BLOCK * b, blocks[b]);
      CollectExact(s.received, BLOCK * b, blocks[b], K);
      assert blocks[b][..K] == blocks[b];
    }
    if Count(f.held) < K {
      NothingPatched(s.received, f, BLOCK * b, blocks[b], K);
    }
  }

  lemma {:induction false} NothingPatched(m: map<nat, Payload>, f: Filling, start: nat, block: seq<Payload>, i: nat)
    requires |f.held| == BLOCK && |block| == K && i <= K && Count(f.held) < K && Holding(m, f, start, block)
    ensures Collect(m, start, i) == Those(block, start, f.before + f.since, i)
  {
    if i == 0 {
    } else {
      NothingPatched(m, f, start, block, i - 1);
      assert HoldsAt(m, f, start, block, i - 1);
    }
  }

  /** The block is taken for the first time, with ten packets decoded or all its data
      noted. */
  ghost predicate FirstTaking(code: Code, blocks: seq<seq<Payload>>, r: Run, t: nat, b: nat)
    requires Blocks(code, blocks)
  {
    && ReadyAt(code, blocks, r, t, b) && b !in r.states[t].taken && b < |blocks|
    && Enough(r.states[t].phase.f, BLOCK * b)
  }

  /** The exact condition, at the moment the block is taken.  It has `m` different
      payloads and was then closed.  It comes out right if and only if each gap whose
      own packet has not come in since the filling had no more missed packets before
      it, or before the empty part, than gaps. */
  lemma {:induction false} DeliveredIff(code: Code, blocks: seq<seq<Payload>>, r: Run, t: nat, b: nat, m: nat)
    requires Blocks(code, blocks) && FirstTaking(code, blocks, r, t, b) && Closed(blocks[b], m)
    ensures |r.states[t].phase.f.held| == BLOCK
    ensures Output(r.states[t]) == NonEmpty(blocks[b]) <==> Settled(r.states[t].phase.f, BLOCK * b, m)
  {
    EveryInterleaving(code, blocks, r, t);
    TakenIff(r.states[t].received, r.states[t].phase.f, BLOCK * b, blocks[b], m);
  }

  /** For a block of ten different payloads: if and only if every data packet that
      was missing at the filling behind one noted too late for the decoder has been
      noted since. */
  lemma {:induction false} FullBlockIff(code: Code, blocks: seq<seq<Payload>>, r: Run, t: nat, b: nat)
    requires Blocks(code, blocks) && FirstTaking(code, blocks, r, t, b) && Telling(blocks[b])
    ensures |r.states[t].phase.f.held| == BLOCK
    ensures Output(r.states[t]) == NonEmpty(blocks[b]) <==> LateRepaired(r.states[t].phase.f, BLOCK * b)
  {
    DeliveredIff(code, blocks, r, t, b, K);
    InLineIff(code, blocks, r, t, b);
  }

  /** At a first delivery the patched gaps are in line exactly if that is so. */
  lemma {:induction false} InLineIff(code: Code, blocks: seq<seq<Payload>>, r: Run, t: nat, b: nat)
    requires Blocks(code, blocks) && ReadyAt(code, blocks, r, t, b) && b !in r.states[t].taken
    ensures |r.states[t].phase.f.held| == BLOCK
    ensures InLine(r.states[t].phase.f, BLOCK * b) <==> LateRepaired(r.states[t].phase.f, BLOCK * b)
    ensures Settled(r.states[t].phase.f, BLOCK * b, K) <==> LateRepaired(r.states[t].phase.f, BLOCK * b)
  {
    EveryInterleaving(code, blocks, r, t);
    SettledIffRepaired(r.states[t].phase.f, BLOCK * b);
  }

  // ---- Between the filling and the taking ---------------------------------

  /** Step `d` fills the gaps, and none of the steps from there to `t` takes the block. */
  ghost predicate FilledAt(code: Code, blocks: seq<seq<Payload>>, r: Run, d: nat, t: nat)
    requires Blocks(code, blocks)
  {
    && ValidRun(code, blocks, r) && d < t < |r.states| && r.steps[d].FillIn?
    && forall k :: d < k < t ==> !r.steps[k].Take?
  }

  predicate NotedBetween(r: Run, d: nat, t: nat, n: nat) {
    exists k :: d < k < t && k < |r.steps| && r.steps[k] == NoteNext(n)
  }

  lemma {:induction false} ReadyStep(code: Code, blocks: seq<seq<Payload>>, s: State, e: Step)
    requires Blocks(code, blocks) && s.phase.Ready? && Enabled(blocks, s, e) && !e.Take?
    ensures var s' := Next(code, blocks, s, e);
      s'.phase == (if e.NoteNext? then Since(s.phase, e.n) else s.phase) && s'.taken == s.taken
  {
  }

  /** What is kept of the filling: what it saw, and exactly what was noted since. */
  lemma {:induction false} FillingKept(code: Code, blocks: seq<seq<Payload>>, r: Run, d: nat, t: nat)
    requires Blocks(code, blocks) && FilledAt(code, blocks, r, d, t)
    ensures var s, s' := r.states[d], r.states[t];
      && s.phase.Decoded? && s'.phase.Ready? && s'.phase.b == s.phase.b && s'.taken == s.taken
      && s'.phase.f.held == s.phase.held && s'.phase.f.before == s.received.Keys
    ensures forall n :: n in r.states[t].phase.f.since <==> NotedBetween(r, d, t, n)
  {
    assert StepOk(code, blocks, r, t - 1);
    if t == d + 1 {
    } else {
      FillingKept(code, blocks, r, d, t - 1);
      ReadyStep(code, blocks, r.states[t - 1], r.steps[t - 1]);
      forall n ensures n in r.states[t].phase.f.since <==> NotedBetween(r, d, t, n) {
        NotedLater(r, d, t - 1, n);
      }
    }
  }

  lemma {:induction false} NotedLater(r: Run, d: nat, t: nat, n: nat)
    requires d < t < |r.steps|
    ensures NotedBetween(r, d, t + 1, n) <==> NotedBetween(r, d, t, n) || r.steps[t] == NoteNext(n)
  {
    if NotedBetween(r, d, t, n) {
      var k :| d < k < t && k < |r.steps| && r.steps[k] == NoteNext(n);
      assert d < k < t + 1;
    }
  }

  /** In terms of the run: data packets `i < j`, both missing when the decoder ran,
      `i` noted before the gaps are filled and `j` not.  If `j` is not noted before
      the block is taken either, what is taken is wrong. */
  lemma {:induction false} LatePacketMisplaces(code: Code, blocks: seq<seq<Payload>>, r: Run, d: nat, t: nat, i: nat, j: nat)
    requires Blocks(code, blocks) && FilledAt(code, blocks, r, d, t) && MissedBoth(r.states[d], i, j)
    requires var b := r.states[d].phase.b; b < |blocks| && Telling(blocks[b]) && b !in r.states[d].taken
    requires !NotedBetween(r, d, t, At(BLOCK * r.states[d].phase.b, j))
    ensures var b := r.states[d].phase.b;
      ReadyAt(code, blocks, r, t, b) && Output(r.states[t]) != NonEmpty(blocks[b])
  {
    var b := r.states[d].phase.b;
    FillingKept(code, blocks, r, d, t);
    FullBlockIff(code, blocks, r, t, b);
    LateUnrepaired(r.states[t].phase.f, BLOCK * b, i, j);
  }

  /** Ten packets were decoded without `i` and `j`, and of the two `i` is noted. */
  predicate MissedBoth(s: State, i: nat, j: nat) {
    && s.phase.Decoded? && |s.phase.held| == BLOCK && i < j < K && Count(s.phase.held) >= K
    && s.phase.held[i].None? && At(BLOCK * s.phase.b, i) in s.received && At(BLOCK * s.phase.b, j) !in s.received
  }

  lemma {:induction false} LateUnrepaired(f: Filling, start: nat, i: nat, j: nat)
    requires |f.held| == BLOCK && i < j < K && Late(f.held, f.before, start, i) && Patched(f, start, j)
    ensures !LateRepaired(f, start)
  {
  }

  /** Once every packet that was missing at the filling has been noted, the block is
      right whatever was filled in. */
  lemma {:induction false} PacketsRepair(code: Code, blocks: seq<seq<Payload>>, r: Run, d: nat, t: nat)
    requires Blocks(code, blocks) && FilledAt(code, blocks, r, d, t)
    requires var s := r.states[d]; s.phase.Decoded? && AllNotedBetween(r, d, t, BLOCK * s.phase.b)
    ensures var b := r.states[d].phase.b;
      ReadyAt(code, blocks, r, t, b) && b < |blocks| && Output(r.states[t]) == NonEmpty(blocks[b])
  {
    FillingKept(code, blocks, r, d, t);
    var b, f := r.states[d].phase.b, r.states[t].phase.f;
    EveryDelivery(code, blocks, r, t, b);
    forall j | 0 <= j < K ensures !Patched(f, BLOCK * b, j) {
      assert NotedBy(r, d, t, At(BLOCK * b, j));
    }
  }

  predicate NotedBy(r: Run, d: nat, t: nat, n: nat)
    requires d < |r.states|
  {
    n in r.states[d].received || NotedBetween(r, d, t, n)
  }

  predicate AllNotedBetween(r: Run, d: nat, t: nat, start: nat)
    requires d < |r.states|
  {
    forall j {:trigger At(start, j)} :: 0 <= j < K ==> NotedBy(r, d, t, At(start, j))
  }

  // ---- A quiet delivery ---------------------------------------------------

  predicate QuietStep(e: Step, b: nat) {
    !e.FillIn? && (e.NoteNext? ==> e.n / BLOCK != b)
  }

  /** The receiver's gaps are the decoder's. */
  predicate SameGaps(s: State) {
    s.phase.Decoded? && |s.phase.held| == BLOCK &&
    forall i {:trigger At(BLOCK * s.phase.b, i)} :: 0 <= i < K ==>
      (s.phase.held[i].None? <==> At(BLOCK * s.phase.b, i) !in s.received)
  }

  lemma {:induction false} QuietKeeps(code: Code, blocks: seq<seq<Payload>>, s: State, e: Step)
    requires Blocks(code, blocks) && SameGaps(s) && QuietStep(e, s.phase.b) && Enabled(blocks, s, e)
    ensures SameGaps(Next(code, blocks, s, e)) && Next(code, blocks, s, e).phase == s.phase
  {
    match e
    case NoteNext(n) =>
      forall i | 0 <= i < K ensures At(BLOCK * s.phase.b, i) != n {
        BlockParts(s.phase.b, i);
      }
    case _ =>
  }

  /** The block is checked for the first time and none of its packets is on its way. */
  predicate StartsQuietly(s: State, b: nat) {
    s.phase == Checked(b) && b !in s.taken && (s.inFlight.Some? ==> s.inFlight.value / BLOCK != b)
  }

  lemma {:induction false} DecodeSeesAll(code: Code, blocks: seq<seq<Payload>>, s: State, b: nat)
    requires Blocks(code, blocks) && Inv(code, blocks, s) && StartsQuietly(s, b)
    ensures var d := Next(code, blocks, s, Decode); SameGaps(d) && d.phase.b == b
  {
    forall i | 0 <= i < K ensures HeldAt(s.buffer, BLOCK * b)[i].None? <==> At(BLOCK * b, i) !in s.received {
      BlockParts(b, i);
      assert NotedFirst(s, At(BLOCK * b, i));
    }
  }

  /** Step `a` decodes block `b` quietly, and nothing disturbs it up to `t`. */
  ghost predicate QuietFrom(code: Code, blocks: seq<seq<Payload>>, r: Run, a: nat, t: nat, b: nat)
    requires Blocks(code, blocks)
  {
    && ValidRun(code, blocks, r) && a < t < |r.states| && r.steps[a].Decode? && StartsQuietly(r.states[a], b)
    && forall k :: a < k < t ==> QuietStep(r.steps[k], b)
  }

  lemma {:induction false} QuietGaps(code: Code, blocks: seq<seq<Payload>>, r: Run, a: nat, t: nat, b: nat)
    requires Blocks(code, blocks) && QuietFrom(code, blocks, r, a, t, b)
    ensures SameGaps(r.states[t]) && r.states[t].phase.b == b
  {
    assert StepOk(code, blocks, r, t - 1);
    if t == a + 1 {
      EveryInterleaving(code, blocks, r, a);
      DecodeSeesAll(code, blocks, r.states[a], b);
    } else {
      QuietGaps(code, blocks, r, a, t - 1, b);
      QuietKeeps(code, blocks, r.states[t - 1], r.steps[t - 1]);
    }
  }

  lemma {:induction false} SameGapsInLine(held: Held, noted: set<nat>, since: set<nat>, start: nat)
    requires |held| == BLOCK
    requires forall i {:trigger At(start, i)} :: 0 <= i < K ==> (held[i].None? <==> At(start, i) !in noted)
    ensures InLine(Filling(held, noted, since), start)
  {
    var f := Filling(held, noted, since);
    forall i | 0 <= i < K ensures !Late(held, noted, start, i) {
      assert At(start, i) == start + i;
    }
    SettledIffRepaired(f, start);
  }

  /** If none of a block's packets is on its way when the decoder starts, and none is
      noted before the gaps are filled, they are in line whenever the block is taken. */
  lemma {:induction false} QuietIsInLine(code: Code, blocks: seq<seq<Payload>>, r: Run, a: nat, d: nat, t: nat, b: nat)
    requires Blocks(code, blocks) && QuietFrom(code, blocks, r, a, d, b) && FilledAt(code, blocks, r, d, t)
    ensures ReadyAt(code, blocks, r, t, b) && |r.states[t].phase.f.held| == BLOCK && InLine(r.states[t].phase.f, BLOCK * b)
  {
    QuietGaps(code, blocks, r, a, d, b);
    FillingKept(code, blocks, r, d, t);
    var s := r.states[d];
    SameGapsInLine(s.phase.held, s.received.Keys, r.states[t].phase.f.since, BLOCK * b);
  }

  // ---- A run that goes wrong and is repaired ------------------------------

  function Numbers(ns: seq<nat>): set<nat> {
    set n | n in ns
  }

  lemma {:induction false} NumbersGrow(ns: seq<nat>)
    requires ns != []
    ensures Numbers(ns) == Numbers(ns[..|ns| - 1]) + {ns[|ns| - 1]}
  {
    assert ns == ns[..|ns| - 1] + [ns[|ns| - 1]];
  }

  /** After these arrivals each packet is noted and stored. */
  predicate ArrivedAll(s: State, ns: seq<nat>) {
    && s.inFlight == None && s.phase == Idle && s.taken == {}
    && s.buffer.Keys == Numbers(ns) && s.received.Keys <= Numbers(ns)
  }

  lemma {:induction false} ArrivalKeeps(code: Code, blocks: seq<seq<Payload>>, s: State, ns: seq<nat>, n: nat)
    requires Blocks(code, blocks) && n / BLOCK < |blocks| && ns != [] && ns[|ns| - 1] == n
    requires ArrivedAll(s, ns[..|ns| - 1])
    ensures ArrivedAll(Next(code, blocks, Next(code, blocks, s, NoteNext(n)), StoreIt), ns)
  {
    NumbersGrow(ns);
  }

  /** The state a run ends in. */
  function Last(r: Run): State
    requires r.states != []
  {
    r.states[|r.states| - 1]
  }

  lemma {:induction false} ArrivalsLead(code: Code, blocks: seq<seq<Payload>>, ns: seq<nat>) returns (r: Run)
    requires Blocks(code, blocks) && forall k :: 0 <= k < |ns| ==> ns[k] / BLOCK < |blocks|
    ensures ValidRun(code, blocks, r) && ArrivedAll(Last(r), ns)
  {
    if ns == [] {
      r := Run([], [EMPTY]);
    } else {
      var init, n := ns[..|ns| - 1], ns[|ns| - 1];
      var before := ArrivalsLead(code, blocks, init);
      var noted := OneMoreStep(code, blocks, before, NoteNext(n));
      r := OneMoreStep(code, blocks, noted, StoreIt);
      ArrivalKeeps(code, blocks, Last(before), ns, n);
    }
  }

  /** The decoder held these packets of block `b`, `i` is noted since and `j` still
      missing. */
  predicate IsLate(s: State, ns: seq<nat>, b: nat, i: nat, j: nat) {
    && s.phase.Decoded? && s.phase.b == b && s.taken == {}
    && s.phase.held == HeldAt(s.buffer, BLOCK * b) && s.buffer.Keys == Numbers(ns)
    && At(BLOCK * b, i) in s.received && At(BLOCK * b, j) !in s.received && s.inFlight == Some(At(BLOCK * b, i))
  }

  lemma {:induction false} LateCheck(code: Code, blocks: seq<seq<Payload>>, s: State, ns: seq<nat>, b: nat, i: nat)
    requires Blocks(code, blocks) && b < |blocks| && i < K && At(BLOCK * b, i) !in Numbers(ns) && ArrivedAll(s, ns)
    ensures Enabled(blocks, s, Check(b)) && Next(code, blocks, s, Check(b)) == s.(phase := Checked(b))
  {
    assert At(BLOCK * b, i) !in s.received;
  }

  lemma {:induction false} LateNote(code: Code, blocks: seq<seq<Payload>>, s: State, ns: seq<nat>, b: nat, i: nat, j: nat)
    requires Blocks(code, blocks) && b < |blocks| && i < j < K && At(BLOCK * b, j) !in Numbers(ns)
    requires ArrivedAll(s.(phase := Idle), ns) && s.phase == Checked(b)
    ensures var d, n := Next(code, blocks, s, Decode), At(BLOCK * b, i);
      Enabled(blocks, d, NoteNext(n)) && IsLate(Next(code, blocks, d, NoteNext(n)), ns, b, i, j)
  {
    BlockParts(b, i);
    assert At(BLOCK * b, j) !in s.received.Keys;
  }

  lemma {:induction false} AllHeld(buffer: map<nat, seq<byte>>, b: nat)
    requires forall n :: n in buffer ==> n / BLOCK == b
    ensures Count(HeldAt(buffer, BLOCK * b)) == |buffer.Keys|
  {
    HeldCount(buffer, BLOCK * b);
    forall n | n in buffer.Keys ensures n in Positions(BLOCK * b) {
      InPositions(b, n);
    }
    assert buffer.Keys * Positions(BLOCK * b) == buffer.Keys;
  }

  /** Ten packets or more of block `b`: all its data packets but `i` and `j`. */
  predicate AllBut(ns: seq<nat>, b: nat, i: nat, j: nat) {
    && i < j < K && |Numbers(ns)| >= K && (forall k :: 0 <= k < |ns| ==> ns[k] / BLOCK == b)
    && (forall x {:trigger At(BLOCK * b, x)} :: 0 <= x < K ==> (At(BLOCK * b, x) in Numbers(ns) <==> x != i && x != j))
  }

  lemma {:induction false} LateHeld(s: State, ns: seq<nat>, b: nat, i: nat, j: nat)
    requires AllBut(ns, b, i, j) && IsLate(s, ns, b, i, j)
    ensures MissedBoth(s, i, j)
  {
    AllHeld(s.buffer, b);
    assert At(BLOCK * b, i) !in s.buffer.Keys;
  }

  /** A run in which these packets arrive, the block is checked and decoded, and then
      packet `i` comes in. */
  lemma {:induction false} LateRun(code: Code, blocks: seq<seq<Payload>>, ns: seq<nat>, b: nat, i: nat, j: nat) returns (r: Run)
    requires Blocks(code, blocks) && b < |blocks| && AllBut(ns, b, i, j)
    ensures ValidRun(code, blocks, r) && IsLate(Last(r), ns, b, i, j)
  {
    r := ArrivalsLead(code, blocks, ns);
    assert At(BLOCK * b, i) !in Numbers(ns) && At(BLOCK * b, j) !in Numbers(ns);
    LateCheck(code, blocks, Last(r), ns, b, i);
    LateNote(code, blocks, Last(r).(phase := Checked(b)), ns, b, i, j);
    r := OneMoreStep(code, blocks, r, Check(b));
    r := OneMoreStep(code, blocks, r, Decode);
    r := OneMoreStep(code, blocks, r, NoteNext(At(BLOCK * b, i)));
  }

  lemma {:induction false} OnlyOneMissing(code: Code, blocks: seq<seq<Payload>>, s: State, ns: seq<nat>, b: nat, i: nat, j: nat, x: nat)
    requires Blocks(code, blocks) && Inv(code, blocks, s) && IsLate(s, ns, b, i, j) && AllBut(ns, b, i, j)
    requires x < K && x != j
    ensures At(BLOCK * b, x) in s.received
  {
    if x != i {
      BlockParts(b, x);
      assert At(BLOCK * b, x) in s.buffer.Keys;
      assert NotedFirst(s, At(BLOCK * b, x));
    }
  }

  /** Both happen, with one and the same condition at the filling: there is a run that
      would deliver the block wrong at one moment, and right at the next, after `j`
      has come in between filling and taking. */
  lemma {:induction false} SecondPacketRepairs(code: Code, blocks: seq<seq<Payload>>, ns: seq<nat>, b: nat, i: nat, j: nat)
    returns (r: Run, t: nat)
    requires Blocks(code, blocks) && b < |blocks| && Telling(blocks[b]) && AllBut(ns, b, i, j)
    ensures ReadyAt(code, blocks, r, t, b) && Output(r.states[t]) != NonEmpty(blocks[b])
    ensures ReadyAt(code, blocks, r, t + 1, b) && Output(r.states[t + 1]) == NonEmpty(blocks[b])
  {
    var d: nat;
    r, d := RepairRun(code, blocks, ns, b, i, j);
    t := d + 2;
    WrongBefore(code, blocks, r, d, ns, b, i, j);
    RightAfter(code, blocks, r, d, ns, b, i, j);
  }

  lemma {:induction false} WrongBefore(code: Code, blocks: seq<seq<Payload>>, r: Run, d: nat, ns: seq<nat>, b: nat, i: nat, j: nat)
    requires Blocks(code, blocks) && b < |blocks| && Telling(blocks[b]) && AllBut(ns, b, i, j)
    requires ValidRun(code, blocks, r) && RepairsAt(r, d, At(BLOCK * b, j)) && IsLate(r.states[d], ns, b, i, j)
    ensures ReadyAt(code, blocks, r, d + 2, b) && Output(r.states[d + 2]) != NonEmpty(blocks[b])
  {
    LateHeld(r.states[d], ns, b, i, j);
    assert FilledAt(code, blocks, r, d, d + 2) && !NotedBetween(r, d, d + 2, At(BLOCK * b, j));
    LatePacketMisplaces(code, blocks, r, d, d + 2, i, j);
  }

  lemma {:induction false} RightAfter(code: Code, blocks: seq<seq<Payload>>, r: Run, d: nat, ns: seq<nat>, b: nat, i: nat, j: nat)
    requires Blocks(code, blocks) && b < |blocks| && AllBut(ns, b, i, j)
    requires ValidRun(code, blocks, r) && RepairsAt(r, d, At(BLOCK * b, j)) && IsLate(r.states[d], ns, b, i, j)
    ensures ReadyAt(code, blocks, r, d + 3, b) && Output(r.states[d + 3]) == NonEmpty(blocks[b])
  {
    AllComeIn(code, blocks, r, d, ns, b, i, j);
    PacketsRepair(code, blocks, r, d, d + 3);
  }

  lemma {:induction false} AllComeIn(code: Code, blocks: seq<seq<Payload>>, r: Run, d: nat, ns: seq<nat>, b: nat, i: nat, j: nat)
    requires Blocks(code, blocks) && AllBut(ns, b, i, j)
    requires ValidRun(code, blocks, r) && RepairsAt(r, d, At(BLOCK * b, j)) && IsLate(r.states[d], ns, b, i, j)
    ensures AllNotedBetween(r, d, d + 3, BLOCK * b)
  {
    forall x | 0 <= x < K ensures NotedBy(r, d, d + 3, At(BLOCK * b, x)) {
      if x == j {
        assert r.steps[d + 2] == NoteNext(At(BLOCK * b, x));
      } else {
        EveryInterleaving(code, blocks, r, d);
        OnlyOneMissing(code, blocks, r.states[d], ns, b, i, j, x);
      }
    }
  }

  /** Step `d` fills, then the packet in flight is stored and packet `n` noted. */
  predicate RepairsAt(r: Run, d: nat, n: nat) {
    && |r.steps| == d + 3 && |r.states| == d + 4
    && r.steps[d].FillIn? && r.steps[d + 1].StoreIt? && r.steps[d + 2] == NoteNext(n)
  }

  lemma {:induction false} RepairRun(code: Code, blocks: seq<seq<Payload>>, ns: seq<nat>, b: nat, i: nat, j: nat)
    returns (r: Run, d: nat)
    requires Blocks(code, blocks) && b < |blocks| && AllBut(ns, b, i, j)
    ensures ValidRun(code, blocks, r) && RepairsAt(r, d, At(BLOCK * b, j)) && IsLate(r.states[d], ns, b, i, j)
  {
    var late := LateRun(code, blocks, ns, b, i, j);
    d := |late.steps|;
    BlockParts(b, i);
    BlockParts(b, j);
    r := OneMoreStep(code, blocks, late, FillIn);
    r := OneMoreStep(code, blocks, r, StoreIt);
    r := OneMoreStep(code, blocks, r, NoteNext(At(BLOCK * b, j)));
    assert r.states[d] == late.states[d];
  }
}
