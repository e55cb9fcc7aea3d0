/** The sweep of `common/split_tunnel` that turns overlapping rule ranges into
    disjoint segments, and the binary search over them. */
module FlattenRanges {
  import opened Lists
  import opened RangeEvents
  import opened Wrappers

  // ---- The heap -----------------------------------------------------------

  /** `container/heap` as an ascending list: the minimum is in front. */
  ghost predicate Ascending(h: seq<nat>) {
    forall i, j :: 0 <= i < j < |h| ==> h[i] <= h[j]
  }

  method Push(h: seq<nat>, x: nat) returns (r: seq<nat>)
    requires Ascending(h)
    ensures Ascending(r) && multiset(r) == multiset(h) + multiset{x}
  {
    var p := 0;
    while p < |h| && h[p] <= x
      invariant 0 <= p <= |h| && forall j :: 0 <= j < p ==> h[j] <= x
    {
      p := p + 1;
    }
    InsertedCounts(h, p, x);
    r := h[..p] + [x] + h[p..];
  }

  lemma {:induction false} PushMembers(h: seq<nat>, x: nat, r: seq<nat>)
    requires multiset(r) == multiset(h) + multiset{x}
    ensures forall y :: y in r <==> y in h || y == x
  {
    forall y
      ensures y in r <==> y in h || y == x
    {
      assert y in r <==> y in multiset(r);
      assert y in h <==> y in multiset(h);
    }
  }

  // ---- The sweep ----------------------------------------------------------

  /** After the events before `i`: the heap holds every started rule, except
      possibly those already ended, and `ended` marks exactly the ended ones.
      Deletion is lazy: an ended rule may still sit in the heap. */
  ghost predicate SweepInv(events: seq<Event>, i: nat, active: seq<nat>, ended: seq<bool>) {
    && i <= |events| && Ascending(active)
    && (forall n :: 0 <= n < |active| ==> active[n] < |ended| && Started(events, i, active[n]))
    && (forall j :: 0 <= j < i && events[j].start ==>
          events[j].idx < |ended| && (events[j].idx in active || ended[events[j].idx]))
    && (forall x :: 0 <= x < |ended| ==> (ended[x] <==> Ended(events, i, x)))
  }

  ghost predicate Started(events: seq<Event>, i: nat, x: nat)
    requires i <= |events|
  {
    exists j :: 0 <= j < i && events[j].start && events[j].idx == x
  }

  ghost predicate Ended(events: seq<Event>, i: nat, x: nat)
    requires i <= |events|
  {
    exists j :: 0 <= j < i && !events[j].start && events[j].idx == x
  }

  lemma {:induction false} StartedGrows(events: seq<Event>, i: nat, active: seq<nat>, grown: seq<nat>)
    requires i < |events| && events[i].start
    requires forall n :: 0 <= n < |active| ==> Started(events, i, active[n])
    requires forall y :: y in grown <==> y in active || y == events[i].idx
    ensures forall n :: 0 <= n < |grown| ==> Started(events, i + 1, grown[n])
  {
    forall n | 0 <= n < |grown|
      ensures Started(events, i + 1, grown[n])
    {
      assert grown[n] in grown;
    }
  }

  lemma {:induction false} StartKeeps(events: seq<Event>, i: nat, active: seq<nat>, grown: seq<nat>, ended: seq<bool>)
    requires SweepInv(events, i, active, ended) && i < |events| && events[i].start && events[i].idx < |ended|
    requires Ascending(grown) && multiset(grown) == multiset(active) + multiset{events[i].idx}
    ensures SweepInv(events, i + 1, grown, ended)
  {
    PushMembers(active, events[i].idx, grown);
    StartedGrows(events, i, active, grown);
    forall n | 0 <= n < |grown| ensures grown[n] < |ended| {
      assert grown[n] in grown;
    }
    forall x | 0 <= x < |ended| ensures ended[x] <==> Ended(events, i + 1, x) {
      EndedNext(events, i, x);
    }
  }

  lemma {:induction false} EndKeeps(events: seq<Event>, i: nat, active: seq<nat>, ended: seq<bool>)
    requires SweepInv(events, i, active, ended) && i < |events| && !events[i].start && events[i].idx < |ended|
    ensures SweepInv(events, i + 1, active, ended[events[i].idx := true])
  {
    forall n | 0 <= n < |active| ensures Started(events, i + 1, active[n]) {
      assert Started(events, i, active[n]);
    }
    var marked := ended[events[i].idx := true];
    forall x | 0 <= x < |ended| ensures marked[x] <==> Ended(events, i + 1, x) {
      EndedNext(events, i, x);
    }
  }

  lemma {:induction false} EndedNext(events: seq<Event>, i: nat, x: nat)
    requires i < |events|
    ensures Ended(events, i + 1, x) <==> Ended(events, i, x) || (!events[i].start && events[i].idx == x)
  {
  }

  /** Takes in all events at one address. */
  method AbsorbGroup(events: seq<Event>, i0: nat, active0: seq<nat>, ended0: seq<bool>)
    returns (i: nat, active: seq<nat>, ended: seq<bool>)
    requires i0 < |events| && SweepInv(events, i0, active0, ended0)
    requires forall j :: 0 <= j < |events| ==> events[j].idx < |ended0|
    ensures i0 < i <= |events| && SweepInv(events, i, active, ended) && |ended| == |ended0|
    ensures forall j :: i0 <= j < i ==> events[j].at == events[i0].at
    ensures i < |events| ==> events[i].at != events[i0].at
  {
    var at := events[i0].at;
    i, active, ended := i0, active0, ended0;
    while i < |events| && events[i].at == at
      invariant i0 <= i <= |events| && SweepInv(events, i, active, ended) && |ended| == |ended0|
      invariant forall j :: i0 <= j < i ==> events[j].at == at
    {
      if events[i].start {
        var grown := Push(active, events[i].idx);
        StartKeeps(events, i, active, grown, ended);
        active := grown;
      } else {
        EndKeeps(events, i, active, ended);
        ended := ended[events[i].idx := true];
      }
      i := i + 1;
    }
  }

  /** The lazy clean-up: pops ended rules off the front of the heap. */
  method DropEnded(events: seq<Event>, i: nat, active0: seq<nat>, ended: seq<bool>) returns (active: seq<nat>)
    requires SweepInv(events, i, active0, ended)
    ensures SweepInv(events, i, active, ended)
    ensures active != [] ==> active[0] < |ended| && !ended[active[0]]
  {
    active := active0;
    while active != [] && ended[active[0]]
      invariant SweepInv(events, i, active, ended)
    {
      active := active[1..];
    }
  }

  /** On the stretch from the last absorbed address to the next one, the front
      of the cleaned heap is the winning rule, and an empty heap means no rule. */
  lemma {:induction false} StretchWinner(raw: seq<IdxRange>, events: seq<Event>, i: nat, active: seq<nat>, ended: seq<bool>,
                      a: nat)
    requires ValidRaw(raw, |ended|) && EventsOf(events, raw) && SweepInv(events, i, active, ended)
    requires active != [] ==> !ended[active[0]]
    requires forall j :: 0 <= j < i ==> events[j].at <= a
    requires forall j :: i <= j < |events| ==> a < events[j].at
    requires a < SPACE
    ensures active == [] ==> !Matched(raw, a)
    ensures active != [] ==> Winner(raw, a, active[0])
  {
    forall k | 0 <= k < |raw| && Covers(raw[k], a)
      ensures raw[k].idx in active
    {
      CoveringIsActive(raw, events, i, active, ended, a, k);
    }
    if active != [] {
      FrontCovers(raw, events, i, active, ended, a);
    }
  }

  lemma {:induction false} CoveringIsActive(raw: seq<IdxRange>, events: seq<Event>, i: nat, active: seq<nat>, ended: seq<bool>,
                         a: nat, k: nat)
    requires ValidRaw(raw, |ended|) && EventsOf(events, raw) && SweepInv(events, i, active, ended)
    requires forall j :: 0 <= j < i ==> events[j].at <= a
    requires forall j :: i <= j < |events| ==> a < events[j].at
    requires k < |raw| && Covers(raw[k], a)
    ensures raw[k].idx in active
  {
    assert StartOf(raw[k]) in events;
    var j :| 0 <= j < |events| && events[j] == StartOf(raw[k]);
    assert j < i;
    forall e | 0 <= e < i && !events[e].start
      ensures events[e].idx != raw[k].idx
    {
      assert HasSource(events[e], raw);
      var other :| 0 <= other < |raw| && events[e] in Boundaries(raw[other]);
    }
  }

  lemma {:induction false} FrontCovers(raw: seq<IdxRange>, events: seq<Event>, i: nat, active: seq<nat>, ended: seq<bool>, a: nat)
    requires ValidRaw(raw, |ended|) && EventsOf(events, raw) && SweepInv(events, i, active, ended)
    requires active != [] && !ended[active[0]]
    requires forall j :: 0 <= j < i ==> events[j].at <= a
    requires forall j :: i <= j < |events| ==> a < events[j].at
    requires a < SPACE
    ensures exists k :: 0 <= k < |raw| && Covers(raw[k], a) && raw[k].idx == active[0]
  {
    assert active[0] in active;
    var j :| 0 <= j < i && events[j].start && events[j].idx == active[0];
    assert HasSource(events[j], raw);
    var k :| 0 <= k < |raw| && events[j] in Boundaries(raw[k]);
    if raw[k].hi + 1 < SPACE {
      assert EndOf(raw[k]) in events;
      var e :| 0 <= e < |events| && events[e] == EndOf(raw[k]);
      assert !Ended(events, i, active[0]);
      assert i <= e;
    }
    assert Covers(raw[k], a);
  }

  /** Adds the segment `[at, end]` of rule `best`, extending the previous segment
      when it belongs to the same rule and touches the new one. */
  method Emit(out0: seq<IdxRange>, ghost raw: seq<IdxRange>, at: nat, end: nat, best: nat)
    returns (out: seq<IdxRange>)
    requires Answers(out0, raw, at) && at <= end
    requires forall a: nat :: at <= a <= end ==> Winner(raw, a, best)
    ensures Answers(out, raw, end + 1)
  {
    var n := |out0|;
    if n > 0 && out0[n - 1].idx == best && out0[n - 1].hi + 1 == at {
      out := out0[n - 1 := out0[n - 1].(hi := end)];
    } else {
      out := out0 + [IdxRange(at, end, best)];
    }
    forall a: nat | a <= end && Matched(raw, a)
      ensures Matched(out, a)
    {
      if a < at {
        assert Matched(out0, a);
        var k :| 0 <= k < n && Covers(out0[k], a);
        assert Covers(out[k], a);
      } else {
        assert Covers(out[|out| - 1], a);
      }
    }
    forall k, a: nat | 0 <= k < |out| && Covers(out[k], a)
      ensures Winner(raw, a, out[k].idx)
    {
      if a < at { assert Covers(out0[k], a); }
    }
  }

  method Sweep(events: seq<Event>, ghost raw: seq<IdxRange>, ruleCount: nat) returns (out: seq<IdxRange>)
    requires ValidRaw(raw, ruleCount) && EventsOf(events, raw) && SortedEvents(events)
    requires events != []
    ensures Answers(out, raw, SPACE)
  {
    var active: seq<nat>, ended := [], seq(ruleCount, _ => false);
    out := [];
    var i := 0;
    NothingBeforeFirst(raw, events);
    EventBounds(raw, events, ruleCount);
    while i < |events|
      invariant 0 <= i <= |events| && SweepInv(events, i, active, ended) && |ended| == ruleCount
      invariant Answers(out, raw, if i < |events| then events[i].at else SPACE)
      invariant 0 < i < |events| ==> events[i - 1].at < events[i].at
    {
      var at, i0 := events[i].at, i;
      i, active, ended := AbsorbGroup(events, i, active, ended);
      active := DropEnded(events, i, active, ended);
      var end := if i < |events| then events[i].at - 1 else SPACE - 1;
      assert i < |events| ==> Before(events[i0], events[i]);
      forall a: nat | at <= a <= end
        ensures active == [] ==> !Matched(raw, a)
        ensures active != [] ==> Winner(raw, a, active[0])
      {
        StretchWinner(raw, events, i, active, ended, a);
      }
      if active == [] {
      } else {
        out := Emit(out, raw, at, end, active[0]);
      }
    }
  }

  lemma {:induction false} NothingBeforeFirst(raw: seq<IdxRange>, events: seq<Event>)
    requires EventsOf(events, raw) && SortedEvents(events) && events != []
    ensures Answers([], raw, events[0].at)
  {
    forall k | 0 <= k < |raw|
      ensures events[0].at <= raw[k].lo
    {
      assert StartOf(raw[k]) in events;
    }
  }

  lemma {:induction false} EventBounds(raw: seq<IdxRange>, events: seq<Event>, ruleCount: nat)
    requires ValidRaw(raw, ruleCount) && EventsOf(events, raw)
    ensures forall j :: 0 <= j < |events| ==> events[j].idx < ruleCount && events[j].at < SPACE
  {
    forall j | 0 <= j < |events|
      ensures events[j].idx < ruleCount && events[j].at < SPACE
    {
      assert HasSource(events[j], raw);
    }
  }

  method Flatten(raw: seq<IdxRange>, ruleCount: nat) returns (out: seq<IdxRange>)
    requires ValidRaw(raw, ruleCount)
    ensures Answers(out, raw, SPACE)
  {
    if |raw| == 0 {
      return [];
    }
    var unsorted := BuildEvents(raw);
    var events := SortEvents(unsorted);
    RearrangedEvents(unsorted, events, raw);
    assert StartOf(raw[0]) in events;
    out := Sweep(events, raw, ruleCount);
  }

  // ---- Lookup -------------------------------------------------------------

  /** `sort.Search`: the first segment whose upper end is not below `addr`. */
  method Search(ranges: seq<IdxRange>, addr: nat) returns (i: nat)
    requires Disjoint(ranges)
    ensures i <= |ranges|
    ensures forall k :: 0 <= k < i ==> ranges[k].hi < addr
    ensures forall k :: i <= k < |ranges| ==> addr <= ranges[k].hi
  {
    i := 0;
    var j := |ranges|;
    while i < j
      invariant 0 <= i <= j <= |ranges|
      invariant forall k :: 0 <= k < i ==> ranges[k].hi < addr
      invariant forall k :: j <= k < |ranges| ==> addr <= ranges[k].hi
    {
      var h := (i + j) / 2;
      if ranges[h].hi < addr {
        i := h + 1;
      } else {
        j := h;
      }
    }
  }

  /** The lookup path of `bypassIP`, before the country list is asked. */
  method Lookup(ranges: seq<IdxRange>, addr: nat, ghost raw: seq<IdxRange>) returns (rule: Option<nat>)
    requires Answers(ranges, raw, SPACE) && addr < SPACE
    ensures rule.None? <==> !Matched(raw, addr)
    ensures rule.Some? ==> Winner(raw, addr, rule.value)
  {
    var i := Search(ranges, addr);
    if i < |ranges| && ranges[i].lo <= addr {
      assert Covers(ranges[i], addr);
      return Some(ranges[i].idx);
    }
    forall k | 0 <= k < |ranges|
      ensures !Covers(ranges[k], addr)
    {
      if i < k { assert ranges[i].hi < ranges[k].lo; }
    }
    return None;
  }
}
