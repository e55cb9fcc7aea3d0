/** How the gaps of a block are filled when the receiver has noted more, or other,
    packets than the decoder held: which payload ends up where. */
module FecGaps {
  import opened Bytes
  import opened FecBlocks
  import opened FecReceiver
  import opened FecSender
  import opened Wrappers

  // ---- What a filling leaves ----------------------------------------------

  /** What the decoder held, the packets noted when the gaps were filled, and those
      noted since. */
  datatype Filling = Filling(held: Held, before: set<nat>, since: set<nat>)

  /** Position `j` was a gap, and its own packet has not come in since. */
  predicate Patched(f: Filling, start: nat, j: nat) {
    At(start, j) !in f.before && At(start, j) !in f.since
  }

  /** How many of the first `i` data packets the decoder did not hold. */
  function Missed(held: Held, i: nat): nat
    requires i <= |held|
  {
    if i == 0 then 0 else Missed(held, i - 1) + if held[i - 1].None? then 1 else 0
  }

  /** How many of the first `i` positions were gaps. */
  function Gaps(noted: set<nat>, start: nat, i: nat): nat {
    if i == 0 then 0 else Gaps(noted, start, i - 1) + if At(start, i - 1) !in noted then 1 else 0
  }

  /** What stands at position `j`: the block's own payload, or the recovered payload
      whose turn it was, or nothing if none was left. */
  predicate HoldsAt(m: map<nat, Payload>, f: Filling, start: nat, block: seq<Payload>, j: nat)
    requires |f.held| == BLOCK && |block| == K && j < K
  {
    if !Patched(f, start, j) then At(start, j) in m && m[At(start, j)] == block[j]
    else
      var recovered, turn := MissingOf(f.held, block, K), Gaps(f.before, start, j);
      if Count(f.held) >= K && turn < |recovered| then At(start, j) in m && m[At(start, j)] == recovered[turn]
      else At(start, j) !in m
  }

  predicate Holding(m: map<nat, Payload>, f: Filling, start: nat, block: seq<Payload>)
    requires |f.held| == BLOCK && |block| == K
  {
    forall j {:trigger HoldsAt(m, f, start, block, j)} :: 0 <= j < K ==> HoldsAt(m, f, start, block, j)
  }

  /** What the decoder held was noted. */
  predicate HeldNoted(held: Held, noted: set<nat>, start: nat)
    requires |held| == BLOCK
  {
    forall i {:trigger At(start, i)} :: 0 <= i < K && held[i].Some? ==> At(start, i) in noted
  }

  // ---- Filling ------------------------------------------------------------

  /** Each gap gets the payload whose turn it is, while there are any. */
  predicate FilledTo(m: map<nat, Payload>, received: map<nat, Payload>, start: nat, recovered: seq<Payload>, j: nat) {
    if At(start, j) in received then At(start, j) in m && m[At(start, j)] == received[At(start, j)]
    else
      var turn := Gaps(received.Keys, start, j);
      if turn < |recovered| then At(start, j) in m && m[At(start, j)] == recovered[turn] else At(start, j) !in m
  }

  lemma {:induction false} FillIs(received: map<nat, Payload>, start: nat, recovered: seq<Payload>, i: nat)
    requires i <= K
    ensures var (m, used) := Fill(received, start, recovered, i);
      && used == (if Gaps(received.Keys, start, i) < |recovered| then Gaps(received.Keys, start, i) else |recovered|)
      && forall j {:trigger FilledTo(m, received, start, recovered, j)} :: 0 <= j < i ==> FilledTo(m, received, start, recovered, j)
  {
    if i == 0 {
    } else {
      var (before, _) := Fill(received, start, recovered, i - 1);
      var (m, _) := Fill(received, start, recovered, i);
      FillIs(received, start, recovered, i - 1);
      FillOnlyHere(received, start, recovered, i - 1);
      forall j | 0 <= j < i ensures FilledTo(m, received, start, recovered, j) {
        if j < i - 1 {
          assert FilledTo(before, received, start, recovered, j);
        }
      }
    }
  }

  /** Ten held packets recover the missing payloads, none if none is missing. */
  lemma {:induction false} ReconstructIs(code: Code, block: seq<Payload>, held: Held)
    requires Mds(code) && ValidBlock(block) && |Word(code, block)| == BLOCK && HeldOf(code, block, held)
    requires Count(held) >= K
    ensures Reconstruct(code, held) == MissingOf(held, block, K)
  {
    if gap: nat :| gap < K && held[gap].None? {
      ReconstructExact(code, block, held, gap);
    } else {
      NoneMissing(held, block, K);
      match code.complete(PadHeld(held, Longest(held)))
      case None =>
      case Some(word) =>
        if |word| == BLOCK {
          NoneMissingFrom(held, word, K);
        }
    }
  }

  lemma {:induction false} NoneMissing(held: Held, block: seq<Payload>, i: nat)
    requires |held| == BLOCK && |block| == K && i <= K && forall x :: 0 <= x < K ==> held[x].Some?
    ensures MissingOf(held, block, i) == []
  {
    if i == 0 {
    } else {
      NoneMissing(held, block, i - 1);
    }
  }

  lemma {:induction false} NoneMissingFrom(held: Held, word: seq<Shard>, i: nat)
    requires |held| == |word| == BLOCK && i <= K && forall x :: 0 <= x < K ==> held[x].Some?
    ensures Missing(held, word, i) == []
  {
    if i == 0 {
    } else {
      NoneMissingFrom(held, word, i - 1);
    }
  }

  /** Right after the filling. */
  lemma {:induction false} FillHolds(code: Code, block: seq<Payload>, held: Held, received: map<nat, Payload>, start: nat)
    requires Mds(code) && ValidBlock(block) && |Word(code, block)| == BLOCK && HeldOf(code, block, held)
    requires NotedHere(received, start, block)
    ensures Holding(Fill(received, start, Reconstruct(code, held), K).0, Filling(held, received.Keys, {}), start, block)
  {
    var recovered := Reconstruct(code, held);
    var m, f := Fill(received, start, recovered, K).0, Filling(held, received.Keys, {});
    FillIs(received, start, recovered, K);
    if Count(held) >= K {
      ReconstructIs(code, block, held);
    }
    forall j | 0 <= j < K ensures HoldsAt(m, f, start, block, j) {
      assert FilledTo(m, received, start, recovered, j);
    }
  }

  // ---- Counting -----------------------------------------------------------

  lemma {:induction false} MissedCounts(held: Held, block: seq<Payload>, i: nat)
    requires |held| == BLOCK && |block| == K && i <= K
    ensures |MissingOf(held, block, i)| == Missed(held, i)
  {
    if i == 0 {
    } else {
      MissedCounts(held, block, i - 1);
    }
  }

  lemma {:induction false} MissedGrows(held: Held, i: nat, j: nat)
    requires i <= j <= |held|
    ensures Missed(held, i) <= Missed(held, j)
    decreases j
  {
    if i == j {
    } else {
      MissedGrows(held, i, j - 1);
    }
  }

  /** The recovered payloads are those of the packets not held, in order. */
  lemma {:induction false} MissingAt(held: Held, block: seq<Payload>, p: nat)
    requires |held| == BLOCK && |block| == K && p < K && held[p].None?
    ensures Missed(held, p) < |MissingOf(held, block, K)| && MissingOf(held, block, K)[Missed(held, p)] == block[p]
  {
    MissedCounts(held, block, p);
    MissingGrows(held, block, p + 1, K);
    assert MissingOf(held, block, p + 1)[Missed(held, p)] == block[p];
  }

  lemma {:induction false} NthMissing(held: Held, turn: nat, i: nat) returns (p: nat)
    requires i <= |held| && turn < Missed(held, i)
    ensures p < i && held[p].None? && Missed(held, p) == turn
  {
    if turn < Missed(held, i - 1) {
      p := NthMissing(held, turn, i - 1);
    } else {
      p := i - 1;
    }
  }

  lemma {:induction false} FewerGaps(held: Held, noted: set<nat>, start: nat, i: nat)
    requires |held| == BLOCK && i <= K && HeldNoted(held, noted, start)
    ensures Gaps(noted, start, i) <= Missed(held, i)
  {
    if i == 0 {
    } else {
      FewerGaps(held, noted, start, i - 1);
      assert At(start, i - 1) == start + (i - 1);
    }
  }

  /** Packet `i` came too late for the decoder and was noted before the filling. */
  predicate Late(held: Held, noted: set<nat>, start: nat, i: nat)
    requires i < |held|
  {
    held[i].None? && At(start, i) in noted
  }

  /** There are as many gaps as packets were missed exactly if none of them was late. */
  lemma {:induction false} LateCount(held: Held, noted: set<nat>, start: nat, j: nat)
    requires |held| == BLOCK && j <= K && HeldNoted(held, noted, start)
    ensures Missed(held, j) <= Gaps(noted, start, j) <==>
            forall i {:trigger Late(held, noted, start, i)} :: 0 <= i < j ==> !Late(held, noted, start, i)
  {
    if j == 0 {
    } else {
      LateCount(held, noted, start, j - 1);
      FewerGaps(held, noted, start, j - 1);
      assert Late(held, noted, start, j - 1) <==> held[j - 1].None? && At(start, j - 1) in noted;
    }
  }

  // ---- When the block is right --------------------------------------------

  /** Every patched position was a packet the decoder missed, with as many missed
      packets before it as gaps. */
  predicate InLine(f: Filling, start: nat)
    requires |f.held| == BLOCK
  {
    forall j {:trigger Patched(f, start, j)} :: 0 <= j < K && Patched(f, start, j) ==>
      f.held[j].None? && Missed(f.held, j) == Gaps(f.before, start, j)
  }

  /** All data was noted, or the decoder had its ten packets. */
  predicate Enough(f: Filling, start: nat) {
    Count(f.held) >= K || forall j {:trigger Patched(f, start, j)} :: 0 <= j < K ==> !Patched(f, start, j)
  }

  lemma {:induction false} InLineRestores(m: map<nat, Payload>, f: Filling, start: nat, block: seq<Payload>)
    requires |f.held| == BLOCK && |block| == K && Holding(m, f, start, block) && Enough(f, start) && InLine(f, start)
    ensures Restored(m, start, block, K)
  {
    forall j | 0 <= j < K ensures At(start, j) in m && m[At(start, j)] == block[j] {
      assert HoldsAt(m, f, start, block, j);
      if Patched(f, start, j) {
        MissingAt(f.held, block, j);
      }
    }
  }

  /** A block as it leaves the sender: different payloads, then, if it was closed
      early, empty ones from `m` on. */
  predicate Closed(block: seq<Payload>, m: nat) {
    && |block| == K && m <= K
    && (forall i :: 0 <= i < K ==> (block[i] == [] <==> m <= i))
    && (forall i, j :: 0 <= i < j < m ==> block[i] != block[j])
  }

  function Min(i: nat, j: nat): nat {
    if i < j then i else j
  }

  /** The turn of a patched position had not come before its own payload, or, in the
      empty part, before the last payload that is not empty. */
  predicate SettledAt(f: Filling, start: nat, m: nat, j: nat)
    requires |f.held| == BLOCK && j < K && m <= K
  {
    Patched(f, start, j) ==> Missed(f.held, Min(j, m)) <= Gaps(f.before, start, j)
  }

  predicate Settled(f: Filling, start: nat, m: nat)
    requires |f.held| == BLOCK && m <= K
  {
    forall j {:trigger SettledAt(f, start, m, j)} :: 0 <= j < K ==> SettledAt(f, start, m, j)
  }

  /** What stands at position `j` is a payload of the block from `j` or before, and
      the right one exactly if the position is settled. */
  lemma {:induction false} PatchIs(m: map<nat, Payload>, f: Filling, start: nat, block: seq<Payload>, filled: nat, j: nat)
    requires |f.held| == BLOCK && Closed(block, filled) && j < K && HoldsAt(m, f, start, block, j)
    requires Enough(f, start) && HeldNoted(f.held, f.before, start)
    ensures At(start, j) in m && (j < filled ==> m[At(start, j)] != [])
    ensures m[At(start, j)] == block[j] <==> SettledAt(f, start, filled, j)
  {
    if Patched(f, start, j) {
      var turn := Gaps(f.before, start, j);
      FewerGaps(f.held, f.before, start, j);
      MissingAt(f.held, block, j);
      var p := NthMissing(f.held, turn, j + 1);
      MissingAt(f.held, block, p);
      PatchSettled(f.held, turn, p, filled, j);
    }
  }

  /** Packet `p`, the one of that turn, is `j` itself or lies in the empty part with
      it exactly if no more packets than that were missed before. */
  lemma {:induction false} PatchSettled(held: Held, turn: nat, p: nat, filled: nat, j: nat)
    requires |held| == BLOCK && p <= j < K && filled <= K && held[p].None? && Missed(held, p) == turn
    ensures p == j || filled <= p <==> Missed(held, Min(j, filled)) <= turn
  {
    var c := Min(j, filled);
    if p < c {
      MissedGrows(held, p + 1, c);
    } else {
      MissedGrows(held, c, p);
    }
  }

  // ---- When what is delivered is right ------------------------------------

  lemma {:induction false} AllKept(ps: seq<Payload>)
    requires forall x :: 0 <= x < |ps| ==> ps[x] != []
    ensures NonEmpty(ps) == ps
  {
    if ps == [] {
    } else {
      var init, last := ps[..|ps| - 1], ps[|ps| - 1];
      AllKept(init);
      assert ps == init + [last];
    }
  }

  lemma {:induction false} KeptNone(ps: seq<Payload>)
    ensures NonEmpty(ps) == [] <==> forall x :: 0 <= x < |ps| ==> ps[x] == []
  {
    if ps == [] {
    } else {
      KeptNone(ps[..|ps| - 1]);
    }
  }

  lemma {:induction false} KeptParts(a: seq<Payload>, b: seq<Payload>)
    ensures NonEmpty(a + b) == NonEmpty(a) + NonEmpty(b)
  {
    if b == [] {
      assert a + b == a;
    } else {
      var init, last := b[..|b| - 1], b[|b| - 1];
      KeptParts(a, init);
      assert (a + b)[..|a + b| - 1] == a + init && (a + b)[|a + b| - 1] == last;
    }
  }

  /** Ten payloads that are not empty where the block's are not: the same is handed
      over only for the same payloads. */
  lemma {:induction false} SameOutput(v: seq<Payload>, block: seq<Payload>, m: nat)
    requires Closed(block, m) && |v| == K && forall x :: 0 <= x < m ==> v[x] != []
    ensures NonEmpty(v) == NonEmpty(block) <==> v == block
  {
    KeptFront(v, m);
    KeptFront(block, m);
    KeptNone(v[m..]);
    KeptNone(block[m..]);
    if NonEmpty(v) == NonEmpty(block) {
      FrontAndRest(v[..m], NonEmpty(v[m..]), block[..m]);
      SameParts(v, block, m);
    }
  }

  lemma {:induction false} KeptFront(ps: seq<Payload>, m: nat)
    requires m <= |ps| && forall x :: 0 <= x < m ==> ps[x] != []
    ensures NonEmpty(ps) == ps[..m] + NonEmpty(ps[m..])
  {
    assert ps == ps[..m] + ps[m..];
    KeptParts(ps[..m], ps[m..]);
    AllKept(ps[..m]);
  }

  lemma {:induction false} SameParts(a: seq<Payload>, b: seq<Payload>, m: nat)
    requires |a| == |b| && m <= |a| && a[..m] == b[..m]
    requires forall x :: 0 <= x < |a| - m ==> a[m..][x] == b[m..][x]
    ensures a == b
  {
    assert a[m..] == b[m..];
    assert a == a[..m] + a[m..] && b == b[..m] + b[m..];
  }

  lemma {:induction false} FrontAndRest(a: seq<Payload>, rest: seq<Payload>, b: seq<Payload>)
    requires |a| == |b| && a + rest == b + []
    ensures a == b && rest == []
  {
    assert |a + rest| == |b|;
    assert (a + rest)[..|a|] == a && b + [] == b;
  }

  /** What is taken is right exactly if every position is settled. */
  lemma {:induction false} TakenIff(m: map<nat, Payload>, f: Filling, start: nat, block: seq<Payload>, filled: nat)
    requires |f.held| == BLOCK && Closed(block, filled) && Holding(m, f, start, block)
    requires Enough(f, start) && HeldNoted(f.held, f.before, start)
    ensures Collect(m, start, K) == NonEmpty(block) <==> Settled(f, start, filled)
  {
    forall j | 0 <= j < K
      ensures At(start, j) in m && (j < filled ==> m[At(start, j)] != [])
      ensures m[At(start, j)] == block[j] <==> SettledAt(f, start, filled, j)
    {
      assert HoldsAt(m, f, start, block, j);
      PatchIs(m, f, start, block, filled, j);
    }
    var v := seq(K, j requires 0 <= j < K && At(start, j) in m => m[At(start, j)]);
    CollectExact(m, start, v, K);
    assert v[..K] == v;
    SameOutput(v, block, filled);
    if v == block {
      assert forall j :: 0 <= j < K ==> v[j] == block[j];
    }
  }

  /** Ten payloads that are not empty and differ. */
  predicate Telling(block: seq<Payload>) {
    Closed(block, K)
  }

  /** Every position that was missing behind a late packet has come in since. */
  predicate LateRepaired(f: Filling, start: nat)
    requires |f.held| == BLOCK
  {
    forall i, j {:trigger Late(f.held, f.before, start, i), Patched(f, start, j)} ::
      0 <= i < j < K && Late(f.held, f.before, start, i) ==> !Patched(f, start, j)
  }

  lemma {:induction false} SettledIffRepaired(f: Filling, start: nat)
    requires |f.held| == BLOCK && HeldNoted(f.held, f.before, start)
    ensures Settled(f, start, K) <==> LateRepaired(f, start)
    ensures InLine(f, start) <==> LateRepaired(f, start)
  {
    forall j | 0 <= j < K && Patched(f, start, j)
      ensures SettledAt(f, start, K, j) <==> forall i {:trigger Late(f.held, f.before, start, i)} :: 0 <= i < j ==> !Late(f.held, f.before, start, i)
      ensures f.held[j].None? && Gaps(f.before, start, j) <= Missed(f.held, j)
    {
      LateCount(f.held, f.before, start, j);
      FewerGaps(f.held, f.before, start, j);
      assert At(start, j) == start + j;
    }
  }
}
