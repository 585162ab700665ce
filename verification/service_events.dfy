/**
 * Clients and timed events of the discrete-event queue simulation
 * (LW_A_1), with the arrival schedule that is generated before the run.
 */
module ServiceEvents {

  /** A client: identifier, arrival time and difficulty (its service duration). */
  datatype Client = Client(id: int, arrivalTime: real, difficulty: int)

  /** The two event types: 0 is an arrival, 1 a service completion. */
  datatype EventType = Arrival | Completion

  /** A timed event; an arrival carries agent id -1. */
  datatype Event = Event(time: real, kind: EventType, clientId: int, agentId: int)

  /** Events are ordered by time only; equal times are left unordered. */
  predicate EarlierOrSame(e: Event, f: Event) {
    e.time <= f.time
  }

  /** Index k holds an event of minimal time in evs. */
  predicate IsEarliest(evs: seq<Event>, k: int) {
    0 <= k < |evs| && forall j :: 0 <= j < |evs| ==> EarlierOrSame(evs[k], evs[j])
  }

  /** A non-empty pending-event collection always has an earliest event. */
  lemma {:induction false} EarliestExists(evs: seq<Event>)
    requires evs != []
    ensures exists k :: IsEarliest(evs, k)
  {
    if |evs| == 1 {
      assert IsEarliest(evs, 0);
    } else {
      var rest := evs[1..];
      EarliestExists(rest);
      var k :| IsEarliest(rest, k);
      if evs[0].time <= rest[k].time {
        assert IsEarliest(evs, 0);
      } else {
        assert IsEarliest(evs, k + 1);
      }
    }
  }

  /** The sequence with the event at index k taken out (a pop). */
  function RemoveAt(evs: seq<Event>, k: nat): (r: seq<Event>)
    requires k < |evs|
    ensures |r| == |evs| - 1
    ensures forall j :: 0 <= j < |r| ==> r[j] == (if j < k then evs[j] else evs[j + 1])
  {
    evs[..k] + evs[k + 1..]
  }

  /** Removing index k takes exactly that event out of the collection. */
  lemma RemoveAtMultiset(evs: seq<Event>, k: nat)
    requires k < |evs|
    ensures multiset(RemoveAt(evs, k)) + multiset{evs[k]} == multiset(evs)
  {
    assert evs == evs[..k] + [evs[k]] + evs[k + 1..];
  }

  /** The event is an arrival. */
  function IsArrival(): Event -> bool {
    (e: Event) => e.kind == Arrival
  }

  /** The event is a completion scheduled for agent a. */
  function CompletionFor(a: int): Event -> bool {
    (e: Event) => e.kind == Completion && e.agentId == a
  }

  /** Number of events in evs that satisfy p. */
  function CountWhere(evs: seq<Event>, p: Event -> bool): nat
  {
    if evs == [] then 0 else (if p(evs[0]) then 1 else 0) + CountWhere(evs[1..], p)
  }

  lemma {:induction false} CountWhereAppend(s: seq<Event>, t: seq<Event>, p: Event -> bool)
    ensures CountWhere(s + t, p) == CountWhere(s, p) + CountWhere(t, p)
  {
    if s == [] {
      assert s + t == t;
    } else {
      assert (s + t)[1..] == s[1..] + t;
      CountWhereAppend(s[1..], t, p);
    }
  }

  /** Pushing one event raises the count by one exactly when it satisfies p. */
  lemma CountWhereSnoc(s: seq<Event>, x: Event, p: Event -> bool)
    ensures CountWhere(s + [x], p) == CountWhere(s, p) + (if p(x) then 1 else 0)
  {
    CountWhereAppend(s, [x], p);
    assert [x][1..] == [];
  }

  /** Popping the event at index k lowers the count by one exactly when it satisfies p. */
  lemma CountWhereRemove(s: seq<Event>, k: nat, p: Event -> bool)
    requires k < |s|
    ensures CountWhere(s, p) == CountWhere(RemoveAt(s, k), p) + (if p(s[k]) then 1 else 0)
  {
    var front, back := s[..k], s[k + 1..];
    assert RemoveAt(s, k) == front + back;
    assert s[k..] == [s[k]] + back;
    assert s == front + s[k..];
    assert ([s[k]] + back)[1..] == back;
    CountWhereAppend(front, [s[k]] + back, p);
    CountWhereAppend(front, back, p);
  }

  /** A count of zero means no event satisfies p. */
  lemma CountWhereZero(s: seq<Event>, p: Event -> bool)
    requires CountWhere(s, p) == 0
    ensures forall k :: 0 <= k < |s| ==> !p(s[k])
  {
    forall k | 0 <= k < |s| ensures !p(s[k]) {
      CountWhereRemove(s, k, p);
    }
  }

  /** Sum of a sequence of reals. */
  function Sum(xs: seq<real>): real
  {
    if xs == [] then 0.0 else xs[0] + Sum(xs[1..])
  }

  /**
   * The arrival events pushed by the recursive client generator when it
   * starts at time base with the given intervals still to draw: client
   * firstId arrives one interval after base, each next client one interval
   * after the previous one.
   */
  function ArrivalEvents(base: real, intervals: seq<real>, firstId: int): (r: seq<Event>)
    decreases |intervals|
    ensures |r| == |intervals|
    ensures forall k :: 0 <= k < |r| ==> r[k].kind == Arrival && r[k].clientId == firstId + k && r[k].agentId == -1
  {
    if intervals == [] then []
    else [Event(base + intervals[0], Arrival, firstId, -1)]
         + ArrivalEvents(base + intervals[0], intervals[1..], firstId + 1)
  }

  /** The k-th generated arrival is client firstId + k at base plus the first k + 1 intervals. */
  lemma {:induction false} ArrivalEventAt(base: real, intervals: seq<real>, firstId: int, k: nat)
    requires k < |intervals|
    ensures |ArrivalEvents(base, intervals, firstId)| == |intervals|
    ensures ArrivalEvents(base, intervals, firstId)[k]
         == Event(base + Sum(intervals[..k + 1]), Arrival, firstId + k, -1)
    decreases |intervals|
  {
    var rest := ArrivalEvents(base + intervals[0], intervals[1..], firstId + 1);
    if k == 0 {
      if |intervals| > 1 {
        ArrivalEventAt(base + intervals[0], intervals[1..], firstId + 1, 0);
      }
      assert intervals[..1][1..] == [];
    } else {
      ArrivalEventAt(base + intervals[0], intervals[1..], firstId + 1, k - 1);
      assert intervals[..k + 1][1..] == intervals[1..][..k];
    }
  }

  /** Every generated event is an arrival, so the schedule holds |intervals| arrivals. */
  lemma {:induction false} ArrivalEventsCount(base: real, intervals: seq<real>, firstId: int)
    ensures CountWhere(ArrivalEvents(base, intervals, firstId), IsArrival()) == |intervals|
    ensures forall a :: CountWhere(ArrivalEvents(base, intervals, firstId), CompletionFor(a)) == 0
    decreases |intervals|
  {
    if intervals != [] {
      var head := [Event(base + intervals[0], Arrival, firstId, -1)];
      var rest := ArrivalEvents(base + intervals[0], intervals[1..], firstId + 1);
      ArrivalEventsCount(base + intervals[0], intervals[1..], firstId + 1);
      CountWhereAppend(head, rest, IsArrival());
      forall a ensures CountWhere(head + rest, CompletionFor(a)) == 0 {
        CountWhereAppend(head, rest, CompletionFor(a));
      }
    }
  }

  /** With non-negative intervals every generated arrival is at or after base (after it, for positive ones). */
  lemma {:induction false} ArrivalTimesAbove(base: real, intervals: seq<real>, firstId: int)
    requires forall k :: 0 <= k < |intervals| ==> intervals[k] >= 0.0
    ensures forall k :: 0 <= k < |ArrivalEvents(base, intervals, firstId)| ==>
              ArrivalEvents(base, intervals, firstId)[k].time >= base
    ensures (forall k :: 0 <= k < |intervals| ==> intervals[k] > 0.0) ==>
              forall k :: 0 <= k < |ArrivalEvents(base, intervals, firstId)| ==>
                ArrivalEvents(base, intervals, firstId)[k].time > base
    decreases |intervals|
  {
    if intervals != [] {
      ArrivalTimesAbove(base + intervals[0], intervals[1..], firstId + 1);
    }
  }

  /**
   * Arrival times are cumulative sums of the intervals: non-decreasing when
   * every interval is non-negative, strictly increasing when every interval
   * is positive.
   */
  lemma {:induction false} ArrivalTimesOrdered(base: real, intervals: seq<real>, firstId: int)
    requires forall k :: 0 <= k < |intervals| ==> intervals[k] >= 0.0
    ensures forall i, j :: 0 <= i < j < |ArrivalEvents(base, intervals, firstId)| ==>
              ArrivalEvents(base, intervals, firstId)[i].time <= ArrivalEvents(base, intervals, firstId)[j].time
    ensures (forall k :: 0 <= k < |intervals| ==> intervals[k] > 0.0) ==>
              forall i, j :: 0 <= i < j < |ArrivalEvents(base, intervals, firstId)| ==>
                ArrivalEvents(base, intervals, firstId)[i].time < ArrivalEvents(base, intervals, firstId)[j].time
    decreases |intervals|
  {
    if intervals != [] {
      var evs := ArrivalEvents(base, intervals, firstId);
      var rest := ArrivalEvents(base + intervals[0], intervals[1..], firstId + 1);
      ArrivalTimesOrdered(base + intervals[0], intervals[1..], firstId + 1);
      ArrivalTimesAbove(base + intervals[0], intervals[1..], firstId + 1);
      assert evs[0].time == base + intervals[0];
      assert forall j :: 1 <= j < |evs| ==> evs[j] == rest[j - 1];
    }
  }

  /** after is before with events appended, none of them earlier than t. */
  predicate Extends(before: seq<Event>, after: seq<Event>, t: real)
  {
    && |before| <= |after|
    && after[..|before|] == before
    && forall k :: |before| <= k < |after| ==> after[k].time >= t
  }
  /** Events are popped in non-decreasing time order and nothing pending is earlier than the last pop. */
  predicate Chronological(popped: seq<Event>, pending: seq<Event>)
  {
    && (forall i, j :: 0 <= i < j < |popped| ==> popped[i].time <= popped[j].time)
    && (popped != [] ==> forall k :: 0 <= k < |pending| ==> pending[k].time >= popped[|popped| - 1].time)
  }

  /** Popping an earliest event keeps the popped sequence in time order. */
  lemma ChronologicalPop(popped: seq<Event>, pending: seq<Event>, k: nat)
    requires Chronological(popped, pending) && IsEarliest(pending, k)
    ensures Chronological(popped + [pending[k]], RemoveAt(pending, k))
  {
    var r := RemoveAt(pending, k);
    forall j | 0 <= j < |r| ensures r[j].time >= pending[k].time {
      assert r[j] == pending[if j < k then j else j + 1];
    }
  }

  /** Events pushed no earlier than the last pop keep the order. */
  lemma ChronologicalExtend(popped: seq<Event>, rest: seq<Event>, after: seq<Event>)
    requires popped != [] && Chronological(popped, rest)
    requires Extends(rest, after, popped[|popped| - 1].time)
    ensures Chronological(popped, after)
  {
    forall k | 0 <= k < |after| ensures after[k].time >= popped[|popped| - 1].time {
      if k < |rest| {
        assert after[k] == after[..|rest|][k];
      }
    }
  }
}
