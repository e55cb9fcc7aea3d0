/** Rule ranges of `common/split_tunnel`, what disjoint segments must answer for
    them, and the sorted boundary events of the sweep.  Addresses are naturals
    below 2^128; module `Addresses` shows that the byte arrays of the program
    behave as such naturals. */
module RangeEvents {
  import opened Lists

  const SPACE: nat := 0x1_0000_0000_0000_0000_0000_0000_0000_0000

  datatype IdxRange = IdxRange(lo: nat, hi: nat, idx: nat)
  datatype Event = Event(at: nat, idx: nat, start: bool)

  predicate Covers(r: IdxRange, a: nat) {
    r.lo <= a <= r.hi
  }

  /** What `publishLocked` hands to the sweep: real intervals, one per rule. */
  ghost predicate ValidRaw(raw: seq<IdxRange>, ruleCount: nat) {
    && (forall k :: 0 <= k < |raw| ==> raw[k].lo <= raw[k].hi < SPACE && raw[k].idx < ruleCount)
    && (forall j, k :: 0 <= j < |raw| && 0 <= k < |raw| && raw[j].idx == raw[k].idx ==> j == k)
  }

  ghost predicate Matched(raw: seq<IdxRange>, a: nat) {
    exists k :: 0 <= k < |raw| && Covers(raw[k], a)
  }

  /** `w` is the smallest rule index whose range covers `a`: the rule that a
      linear scan of the list would meet first. */
  ghost predicate Winner(raw: seq<IdxRange>, a: nat, w: nat) {
    && (exists k :: 0 <= k < |raw| && Covers(raw[k], a) && raw[k].idx == w)
    && (forall k :: 0 <= k < |raw| && Covers(raw[k], a) ==> w <= raw[k].idx)
  }

  ghost predicate Disjoint(out: seq<IdxRange>) {
    && (forall k :: 0 <= k < |out| ==> out[k].lo <= out[k].hi)
    && (forall j, k :: 0 <= j < k < |out| ==> out[j].hi < out[k].lo)
  }

  /** The segments answer every address below `upto` exactly as the raw rules do. */
  ghost predicate Answers(out: seq<IdxRange>, raw: seq<IdxRange>, upto: nat) {
    && Disjoint(out)
    && (forall k :: 0 <= k < |out| ==> out[k].hi < upto)
    && (forall k, a: nat :: 0 <= k < |out| && Covers(out[k], a) ==> Winner(raw, a, out[k].idx))
    && (forall a: nat :: a < upto && Matched(raw, a) ==> Matched(out, a))
  }

  // ---- Events -------------------------------------------------------------

  function StartOf(r: IdxRange): Event { Event(r.lo, r.idx, true) }
  function EndOf(r: IdxRange): Event { Event(r.hi + 1, r.idx, false) }

  /** The events of one range: no end for one that reaches the last address. */
  function Boundaries(r: IdxRange): seq<Event> {
    if r.hi + 1 < SPACE then [StartOf(r), EndOf(r)] else [StartOf(r)]
  }

  ghost predicate HasSource(e: Event, raw: seq<IdxRange>) {
    exists k :: 0 <= k < |raw| && e in Boundaries(raw[k])
  }

  /** Every range has its boundaries among the events, and there are no others.
      A range that reaches the last address has no end event. */
  ghost predicate EventsOf(events: seq<Event>, raw: seq<IdxRange>) {
    && (forall k {:trigger StartOf(raw[k])} :: 0 <= k < |raw| ==> StartOf(raw[k]) in events)
    && (forall k {:trigger EndOf(raw[k])} :: 0 <= k < |raw| && raw[k].hi + 1 < SPACE ==> EndOf(raw[k]) in events)
    && (forall j {:trigger HasSource(events[j], raw)} :: 0 <= j < |events| ==> HasSource(events[j], raw))
  }

  predicate Before(e: Event, f: Event) {
    e.at < f.at || (e.at == f.at && (e.start || !f.start))
  }

  ghost predicate SortedEvents(events: seq<Event>) {
    forall i, j :: 0 <= i < j < |events| ==> Before(events[i], events[j])
  }

  method BuildEvents(raw: seq<IdxRange>) returns (events: seq<Event>)
    ensures EventsOf(events, raw)
  {
    events := [];
    for i := 0 to |raw|
      invariant EventsOf(events, raw[..i])
    {
      ExtendEvents(events, raw, i);
      ghost var grown := events + Boundaries(raw[i]);
      events := events + [StartOf(raw[i])];
      if raw[i].hi + 1 < SPACE {
        events := events + [EndOf(raw[i])];
      }
      assert events == grown;
    }
    assert raw[..|raw|] == raw;
  }

  lemma {:induction false} ExtendEvents(events: seq<Event>, raw: seq<IdxRange>, i: nat)
    requires i < |raw| && EventsOf(events, raw[..i])
    ensures EventsOf(events + Boundaries(raw[i]), raw[..i + 1])
  {
    var after := events + Boundaries(raw[i]);
    var r := raw[..i + 1];
    forall j | 0 <= j < |after| ensures HasSource(after[j], r) {
      if j < |events| {
        assert HasSource(events[j], raw[..i]);
        var k :| 0 <= k < i && events[j] in Boundaries(raw[..i][k]);
        assert r[k] == raw[..i][k] && after[j] == events[j];
      } else {
        assert r[i] == raw[i] && after[j] in Boundaries(raw[i]);
      }
    }
    forall k | 0 <= k < |r|
      ensures StartOf(r[k]) in after && (r[k].hi + 1 < SPACE ==> EndOf(r[k]) in after)
    {
      if k < i {
        assert r[k] == raw[..i][k];
      } else {
        assert StartOf(r[i]) == after[|events|];
        assert r[i].hi + 1 < SPACE ==> EndOf(r[i]) == after[|events| + 1];
      }
    }
  }

  /** `sort.Slice` on the events: any sorted rearrangement will do, and this one
      is by insertion. */
  method SortEvents(events: seq<Event>) returns (sorted: seq<Event>)
    ensures SortedEvents(sorted) && multiset(sorted) == multiset(events)
    ensures forall i, j :: 0 <= i < j < |sorted| ==> sorted[i].at <= sorted[j].at
    ensures forall i, j :: 0 <= i < j < |sorted| && sorted[i].at == sorted[j].at && sorted[j].start ==> sorted[i].start
  {
    sorted := [];
    for i := 0 to |events|
      invariant SortedEvents(sorted) && multiset(sorted) == multiset(events[..i])
    {
      assert events[..i + 1] == events[..i] + [events[i]];
      sorted := InsertEvent(sorted, events[i]);
    }
    assert events[..|events|] == events;
  }

  method InsertEvent(sorted: seq<Event>, e: Event) returns (r: seq<Event>)
    requires SortedEvents(sorted)
    ensures SortedEvents(r) && multiset(r) == multiset(sorted) + multiset{e}
  {
    var p := |sorted|;
    while p > 0 && !Before(sorted[p - 1], e)
      invariant 0 <= p <= |sorted|
      invariant forall j :: p <= j < |sorted| ==> Before(e, sorted[j])
    {
      p := p - 1;
    }
    InsertedCounts(sorted, p, e);
    r := sorted[..p] + [e] + sorted[p..];
  }

  lemma {:induction false} SameMembers(s: seq<Event>, t: seq<Event>)
    requires multiset(s) == multiset(t)
    ensures forall e :: e in s <==> e in t
  {
    forall e ensures e in s <==> e in t {
      assert e in s <==> e in multiset(s);
      assert e in t <==> e in multiset(t);
    }
  }

  /** A rearrangement has the same boundaries. */
  lemma {:induction false} RearrangedEvents(events: seq<Event>, sorted: seq<Event>, raw: seq<IdxRange>)
    requires EventsOf(events, raw) && multiset(events) == multiset(sorted)
    ensures EventsOf(sorted, raw)
  {
    SameMembers(events, sorted);
    forall j | 0 <= j < |sorted| ensures HasSource(sorted[j], raw) {
      assert sorted[j] in sorted;
      var k :| 0 <= k < |events| && events[k] == sorted[j];
    }
  }
}
