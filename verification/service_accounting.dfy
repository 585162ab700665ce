/**
 * The bookkeeping of the queue simulation (LW_A_1) stated on values: a
 * snapshot of each agent's queue, client in service and served counter,
 * the pending events, and how one arrival or one completion changes them.
 */
module ServiceAccounting {
  import opened Wrappers
  import opened ServiceEvents

  /**
   * An agent's state apart from its cached load: queue, client in service,
   * served counter, next-free time and total work time.
   */
  datatype AgentView = AgentView(queue: seq<Client>, current: Option<Client>, served: nat, nextFree: real, work: real)

  /** finishService: the client in service is released. */
  function FinishView(x: AgentView): (r: AgentView)
    ensures r.current.None?
    ensures r.queue == x.queue && r.served == x.served && r.nextFree == x.nextFree && r.work == x.work
  {
    x.(current := None)
  }

  /**
   * startNextService at time t: if the agent is idle and its queue is not
   * empty, the head goes into service, the agent is busy until t plus its
   * difficulty, and both counters rise.
   */
  function StartView(x: AgentView, t: real): (r: AgentView)
    ensures r.current.Some? <==> x.current.Some? || x.queue != []
    ensures |r.queue| + (if r.current.Some? then 1 else 0) == |x.queue| + (if x.current.Some? then 1 else 0)
    ensures x.current.None? && x.queue != [] ==>
      r.current == Some(x.queue[0]) && r.queue == x.queue[1..] && r.served == x.served + 1
    ensures x.current.Some? || x.queue == [] ==> r == x
  {
    if x.queue != [] && x.current.None? then
      var d := x.queue[0].difficulty as real;
      AgentView(x.queue[1..], Some(x.queue[0]), x.served + 1, t + d, x.work + d)
    else x
  }

  /** addClient: the client joins the back of the queue. */
  function EnqueueView(x: AgentView, c: Client): (r: AgentView)
    ensures |r.queue| == |x.queue| + 1 && r.queue[..|x.queue|] == x.queue && r.queue[|x.queue|] == c
    ensures r.current == x.current && r.served == x.served && r.nextFree == x.nextFree && r.work == x.work
  {
    x.(queue := x.queue + [c])
  }

  function SumOf(v: seq<AgentView>, f: AgentView -> int): int
  {
    if v == [] then 0 else f(v[0]) + SumOf(v[1..], f)
  }

  /** Replacing one agent's view changes a sum by the difference of the two terms. */
  lemma {:induction false} SumOfUpdate(v: seq<AgentView>, i: nat, x: AgentView, f: AgentView -> int)
    requires i < |v|
    ensures SumOf(v[i := x], f) == SumOf(v, f) - f(v[i]) + f(x)
  {
    if i == 0 {
      assert v[i := x][1..] == v[1..];
    } else {
      assert v[i := x][1..] == v[1..][i - 1 := x];
      SumOfUpdate(v[1..], i - 1, x, f);
    }
  }

  /** A sum of terms that are all zero is zero. */
  lemma {:induction false} SumOfZero(v: seq<AgentView>, f: AgentView -> int)
    requires forall k :: 0 <= k < |v| ==> f(v[k]) == 0
    ensures SumOf(v, f) == 0
  {
    if v != [] {
      SumOfZero(v[1..], f);
    }
  }

  /** A zero sum of terms that are never negative has every term zero. */
  lemma {:induction false} SumOfZeroTerms(v: seq<AgentView>, f: AgentView -> int)
    requires forall k :: 0 <= k < |v| ==> f(v[k]) >= 0
    requires SumOf(v, f) == 0
    ensures forall k :: 0 <= k < |v| ==> f(v[k]) == 0
  {
    if v != [] {
      SumOfNonnegative(v[1..], f);
      SumOfZeroTerms(v[1..], f);
      assert forall k :: 1 <= k < |v| ==> v[k] == v[1..][k - 1];
    }
  }

  /** A sum of terms that are never negative is not negative. */
  lemma {:induction false} SumOfNonnegative(v: seq<AgentView>, f: AgentView -> int)
    requires forall k :: 0 <= k < |v| ==> f(v[k]) >= 0
    ensures SumOf(v, f) >= 0
  {
    if v != [] {
      SumOfNonnegative(v[1..], f);
    }
  }

  /** 1 for an agent with a client in service. */
  function Serving(): AgentView -> int {
    (a: AgentView) => if a.current.Some? then 1 else 0
  }

  /** The agent's served counter (raised when service starts). */
  function Served(): AgentView -> int {
    (a: AgentView) => a.served
  }

  /** Clients admitted to the agent and not yet finished: queued plus in service. */
  function Outstanding(): AgentView -> int {
    (a: AgentView) => |a.queue| + (if a.current.Some? then 1 else 0)
  }

  /** All clients in a queue have a difficulty of at least 1. */
  predicate PositiveDifficulties(q: seq<Client>)
  {
    forall k :: 0 <= k < |q| ==> q[k].difficulty >= 1
  }

  /**
   * Completion events name existing agents, and an agent has a client in
   * service exactly when one completion event for it is pending (none otherwise).
   */
  predicate EventsMatch(pending: seq<Event>, v: seq<AgentView>)
  {
    && (forall k :: 0 <= k < |pending| && pending[k].kind == Completion ==> 0 <= pending[k].agentId < |v|)
    && (forall i :: 0 <= i < |v| ==>
          CountWhere(pending, CompletionFor(i)) == if v[i].current.Some? then 1 else 0)
  }

  /** An agent queues clients only while serving one, and queued difficulties are positive. */
  predicate QueuesOk(v: seq<AgentView>)
  {
    forall i :: 0 <= i < |v| ==>
      (v[i].queue != [] ==> v[i].current.Some?) && PositiveDifficulties(v[i].queue)
  }

  /**
   * The run's bookkeeping: events match the agents, queues are consistent,
   * and the agents' served counters add up to the clients served so far
   * plus the clients in service.
   */
  predicate Accounting(pending: seq<Event>, v: seq<AgentView>, served: int)
  {
    && EventsMatch(pending, v)
    && QueuesOk(v)
    && SumOf(v, Served()) == served + SumOf(v, Serving())
  }

  /** Where the pending events are kept does not matter to the bookkeeping. */
  lemma {:induction false} AccountingPop(pending: seq<Event>, k: nat, v: seq<AgentView>, served: int)
    requires k < |pending|
    requires Accounting(pending, v, served)
    ensures Accounting(RemoveAt(pending, k) + [pending[k]], v, served)
  {
    var p' := RemoveAt(pending, k) + [pending[k]];
    forall i | 0 <= i < |v|
      ensures CountWhere(p', CompletionFor(i)) == CountWhere(pending, CompletionFor(i))
    {
      CountWhereRemove(pending, k, CompletionFor(i));
      CountWhereSnoc(RemoveAt(pending, k), pending[k], CompletionFor(i));
    }
    forall j | 0 <= j < |p'| && p'[j].kind == Completion ensures 0 <= p'[j].agentId < |v| {
      if j < k {
        assert p'[j] == pending[j];
      } else if j < |p'| - 1 {
        assert p'[j] == pending[j + 1];
      }
    }
  }

  /** The completion event an agent pushes when it takes the head of its queue x.queue at time t. */
  function NextCompletion(x: AgentView, t: real, a: int): Event
  {
    if x.queue == [] then Event(t, Completion, 0, a)
    else Event(t + x.queue[0].difficulty as real, Completion, x.queue[0].id, a)
  }

  /** True when StartView(x, t) actually starts a service. */
  predicate Starts(x: AgentView)
  {
    x.queue != [] && x.current.None?
  }

  /** The pending events after an agent in state x tries to start at time t. */
  function AfterStart(pending: seq<Event>, x: AgentView, t: real, a: int): seq<Event>
  {
    if Starts(x) then pending + [NextCompletion(x, t, a)] else pending
  }

  /** Appending one completion event for agent a keeps every agent's count of other kinds. */
  lemma AfterStartCounts(pending: seq<Event>, x: AgentView, t: real, a: int)
    ensures CountWhere(AfterStart(pending, x, t, a), IsArrival()) == CountWhere(pending, IsArrival())
    ensures forall i :: (CountWhere(AfterStart(pending, x, t, a), CompletionFor(i)) ==
      CountWhere(pending, CompletionFor(i)) + (if Starts(x) && i == a then 1 else 0))
  {
    var c := NextCompletion(x, t, a);
    CountWhereSnoc(pending, c, IsArrival());
    forall i ensures CountWhere(pending + [c], CompletionFor(i)) == CountWhere(pending, CompletionFor(i)) + (if i == a then 1 else 0) {
      CountWhereSnoc(pending, c, CompletionFor(i));
    }
  }

  /**
   * A popped completion at time t names an agent with a client in service.
   * The agent finishes it, the served total rises by one, and the agent
   * starts its queue head, if any: the bookkeeping holds again, one fewer
   * client is outstanding, the arrivals pending are the same and nothing
   * pushed is earlier than t.
   */
  lemma DepartureStep(rest: seq<Event>, e: Event, v: seq<AgentView>, served: int)
    requires e.kind == Completion
    requires Accounting(rest + [e], v, served)
    ensures 0 <= e.agentId < |v| && v[e.agentId].current.Some?
    ensures var a := e.agentId; var x := FinishView(v[a]);
      var v' := v[a := StartView(x, e.time)]; var p' := AfterStart(rest, x, e.time, a);
      && Accounting(p', v', served + 1)
      && SumOf(v', Outstanding()) == SumOf(v, Outstanding()) - 1
      && CountWhere(p', IsArrival()) == CountWhere(rest, IsArrival())
      && Extends(rest, p', e.time)
  {
    var pending := rest + [e];
    assert pending[|rest|] == e;
    var a := e.agentId;
    forall i | 0 <= i < |v|
      ensures CountWhere(pending, CompletionFor(i)) == CountWhere(rest, CompletionFor(i)) + (if i == a then 1 else 0)
    {
      CountWhereSnoc(rest, e, CompletionFor(i));
    }
    var x := FinishView(v[a]);
    var y := StartView(x, e.time);
    var p' := AfterStart(rest, x, e.time, a);
    AfterStartCounts(rest, x, e.time, a);
    assert forall k :: 0 <= k < |rest| ==> rest[k] == pending[k];
    assert forall k :: 0 <= k < |rest| ==> p'[k] == rest[k];
    SumOfUpdate(v, a, y, Served());
    SumOfUpdate(v, a, y, Serving());
    SumOfUpdate(v, a, y, Outstanding());
  }

  /**
   * A popped arrival at time t: the client joins agent s's queue, and if s
   * was idle it starts at once. The bookkeeping holds again, one more client
   * is outstanding, one fewer arrival is pending and nothing pushed is
   * earlier than t.
   */
  lemma ArrivalStep(rest: seq<Event>, e: Event, v: seq<AgentView>, served: int, s: nat, client: Client)
    requires e.kind == Arrival
    requires Accounting(rest + [e], v, served)
    requires s < |v| && client.difficulty >= 1
    ensures var x := EnqueueView(v[s], client);
      var v' := v[s := StartView(x, e.time)]; var p' := AfterStart(rest, x, e.time, s);
      && Accounting(p', v', served)
      && SumOf(v', Outstanding()) == SumOf(v, Outstanding()) + 1
      && CountWhere(p', IsArrival()) == CountWhere(rest, IsArrival())
      && Extends(rest, p', e.time)
  {
    var pending := rest + [e];
    assert pending[|rest|] == e;
    CountWhereSnoc(rest, e, IsArrival());
    forall i | 0 <= i < |v|
      ensures CountWhere(pending, CompletionFor(i)) == CountWhere(rest, CompletionFor(i))
    {
      CountWhereSnoc(rest, e, CompletionFor(i));
    }
    var x := EnqueueView(v[s], client);
    var y := StartView(x, e.time);
    var p' := AfterStart(rest, x, e.time, s);
    AfterStartCounts(rest, x, e.time, s);
    assert forall k :: 0 <= k < |rest| ==> rest[k] == pending[k];
    assert forall k :: 0 <= k < |rest| ==> p'[k] == rest[k];
    SumOfUpdate(v, s, y, Served());
    SumOfUpdate(v, s, y, Serving());
    SumOfUpdate(v, s, y, Outstanding());
  }

  /** An arrival popped and then ignored leaves the bookkeeping intact. */
  lemma DropArrival(rest: seq<Event>, e: Event, v: seq<AgentView>, served: int)
    requires e.kind == Arrival
    requires Accounting(rest + [e], v, served)
    ensures Accounting(rest, v, served)
  {
    var pending := rest + [e];
    assert pending[|rest|] == e;
    forall i | 0 <= i < |v|
      ensures CountWhere(pending, CompletionFor(i)) == CountWhere(rest, CompletionFor(i))
    {
      CountWhereSnoc(rest, e, CompletionFor(i));
    }
    assert forall k :: 0 <= k < |rest| ==> rest[k] == pending[k];
  }

  /** Arrivals added to an idle system leave the bookkeeping intact. */
  lemma PrimedAccounting(evs: seq<Event>, v: seq<AgentView>, served: int)
    requires Accounting([], v, served)
    requires forall k :: 0 <= k < |evs| ==> evs[k].kind == Arrival
    requires forall i :: CountWhere(evs, CompletionFor(i)) == 0
    ensures Accounting(evs, v, served)
  {
  }

  /**
   * With no client outstanding and no arrival pending, no event is pending
   * at all: no agent serves, so no completion can be pending either.
   */
  lemma QuietPending(pending: seq<Event>, v: seq<AgentView>, served: int)
    requires Accounting(pending, v, served)
    requires SumOf(v, Outstanding()) == 0 && CountWhere(pending, IsArrival()) == 0
    ensures pending == []
  {
    SumOfZeroTerms(v, Outstanding());
    CountWhereZero(pending, IsArrival());
    // The first pending event, if any, is no arrival, so it is a completion
    // for an agent that serves no one: its count of pending completions is zero.
    var first := if pending == [] then 0 else pending[0].agentId;
    var count := CountWhere(pending, CompletionFor(first));
    if pending != [] {
      assert false;
    }
  }

  /**
   * With no event pending no agent is serving, so no client is queued
   * either, and nothing is outstanding.
   */
  lemma DrainedStep(v: seq<AgentView>, served: int)
    requires Accounting([], v, served)
    ensures SumOf(v, Outstanding()) == 0
    ensures SumOf(v, Serving()) == 0
  {
    SumOfZero(v, Outstanding());
    SumOfZero(v, Serving());
  }
}
