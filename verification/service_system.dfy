/**
 * The simulation controller of the queue simulation (LW_A_1): it primes the
 * full arrival schedule, then pops events in time order, dispatching each
 * arrival to the least-loaded agent and restarting service on each
 * completion, and finally builds the sorted report.
 *
 * The random generator is replaced by two supplied streams of draws: the
 * inter-arrival intervals and the difficulties, each read through a cursor.
 */
module ServiceSystem {
  import opened Wrappers
  import opened ServiceEvents
  import opened ServiceAgent
  import opened ServiceReport
  import opened ServiceAccounting

  /**
   * The dispatch rule: scans the loads from index 1 and keeps the first
   * strictly smaller one. The tie clause `i < selected` can never hold, as
   * selected is always below i, so the lowest index among the minima wins.
   */
  method LeastLoaded(loads: seq<real>) returns (selected: nat)
    requires |loads| > 0
    ensures selected < |loads|
    ensures forall j :: 0 <= j < |loads| ==> loads[selected] <= loads[j]
    ensures forall j :: 0 <= j < selected ==> loads[j] > loads[selected]
  {
    selected := 0;
    var minLoad := loads[0];
    var i := 1;
    while i < |loads|
      invariant 1 <= i <= |loads|
      invariant selected < i
      invariant minLoad == loads[selected]
      invariant forall j :: 0 <= j < i ==> minLoad <= loads[j]
      invariant forall j :: 0 <= j < selected ==> loads[j] > minLoad
    {
      var load := loads[i];
      if load < minLoad || (load == minLoad && i < selected) {
        minLoad := load;
        selected := i;
      }
      i := i + 1;
    }
  }

  class System {
    const n: nat
    const m: nat
    const agents: seq<Agent>
    const intervals: seq<real>
    const difficulties: seq<int>
    var intervalDraws: nat
    var difficultyDraws: nat
    var events: seq<Event>
    var clientsCreated: nat
    var clientsServed: nat
    /** Events in the order they were popped. */
    ghost var popped: seq<Event>
    /** The agents' views, kept in step with the agents. */
    ghost var views: seq<AgentView>

    /**
     * Agent i has id i (so the n agents are distinct objects), caches its
     * load correctly and is described by views[i].
     */
    ghost predicate AgentsOk()
      reads this`views, agents
    {
      && |agents| == n && |views| == n
      && (forall i :: 0 <= i < n ==> agents[i].id == i && agents[i].Valid() && agents[i].View() == views[i])
    }

    /** The system invariant, with the pending events given explicitly. */
    ghost predicate ValidWith(pending: seq<Event>)
      reads this`views, this`clientsServed, agents
    {
      && AgentsOk()
      && Accounting(pending, views, clientsServed)
      && (forall k :: 0 <= k < |difficulties| ==> 1 <= difficulties[k] <= 10)
    }

    ghost predicate Valid()
      reads this`views, this`clientsServed, this`events, agents
    {
      ValidWith(events)
    }

    /** The state the constructor leaves and run starts from. */
    ghost predicate Initial()
      reads this, agents
    {
      && Valid()
      && events == [] && popped == []
      && clientsCreated == 0 && clientsServed == 0
      && intervalDraws == 0 && difficultyDraws == 0
    }

    constructor (n: nat, m: nat, intervals: seq<real>, difficulties: seq<int>)
      requires forall k :: 0 <= k < |difficulties| ==> 1 <= difficulties[k] <= 10
      ensures this.n == n && this.m == m
      ensures this.intervals == intervals && this.difficulties == difficulties
      ensures Initial()
      ensures forall i :: 0 <= i < n ==> fresh(agents[i])
      ensures forall i :: 0 <= i < n ==>
        agents[i].clientQueue == [] && agents[i].currentClient == None &&
        agents[i].servedCount == 0 && agents[i].totalWorkTime == 0.0
    {
      var created: seq<Agent> := [];
      var i := 0;
      while i < n
        invariant 0 <= i <= n && |created| == i
        invariant forall j :: 0 <= j < i ==> fresh(created[j])
        invariant forall j :: 0 <= j < i ==>
          created[j].id == j && created[j].Valid() &&
          created[j].clientQueue == [] && created[j].currentClient == None &&
          created[j].servedCount == 0 && created[j].totalWorkTime == 0.0 &&
          created[j].nextFreeTime == 0.0
      {
        var agent := new Agent(i);
        created := created + [agent];
        i := i + 1;
      }
      this.n := n;
      this.m := m;
      this.agents := created;
      this.intervals := intervals;
      this.difficulties := difficulties;
      intervalDraws := 0;
      difficultyDraws := 0;
      events := [];
      clientsCreated := 0;
      clientsServed := 0;
      popped := [];
      views := seq(n, i => AgentView([], None, 0, 0.0, 0.0));
      new;
      assert AgentsOk();
      SumOfZero(views, Served());
      SumOfZero(views, Serving());
      assert Accounting([], views, 0);
    }

    /**
     * Generates the remaining clients recursively from currentTime: each
     * draws an interval (its arrival is that much after the previous one)
     * and a difficulty that is then discarded, and pushes an arrival event.
     */
    method CreateNextClient(currentTime: real)
      requires clientsCreated < m ==> intervalDraws + (m - clientsCreated) <= |intervals|
      requires clientsCreated < m ==> difficultyDraws + (m - clientsCreated) <= |difficulties|
      modifies this`intervalDraws, this`difficultyDraws, this`events, this`clientsCreated
      decreases m - clientsCreated
      ensures old(clientsCreated) >= m ==> unchanged(this)
      ensures old(clientsCreated) < m ==>
        && clientsCreated == m
        && intervalDraws == old(intervalDraws) + (m - old(clientsCreated))
        && difficultyDraws == old(difficultyDraws) + (m - old(clientsCreated))
        && events == old(events) + ArrivalEvents(currentTime, intervals[old(intervalDraws)..intervalDraws], old(clientsCreated) + 1)
    {
      if clientsCreated >= m {
        return;
      }
      var interval := intervals[intervalDraws];
      intervalDraws := intervalDraws + 1;
      var arrivalTime := currentTime + interval;
      var difficulty := difficulties[difficultyDraws];
      difficultyDraws := difficultyDraws + 1;
      var client := Client(clientsCreated + 1, arrivalTime, difficulty);
      events := events + [Event(arrivalTime, Arrival, client.id, -1)];
      clientsCreated := clientsCreated + 1;
      ghost var first := old(intervalDraws);
      if clientsCreated < m {
        CreateNextClient(arrivalTime);
      }
      assert intervals[first..intervalDraws][1..] == intervals[first + 1..intervalDraws];
      assert intervals[first..intervalDraws][0] == interval;
    }

    /** The loads the dispatcher reads, agent by agent. */
    function CurrentLoads(): (loads: seq<real>)
      reads agents
      ensures |loads| == |agents|
      ensures forall i :: 0 <= i < |agents| ==> loads[i] == agents[i].currentLoad
    {
      seq(|agents|, i requires 0 <= i < |agents| reads agents => agents[i].currentLoad)
    }

    /**
     * A completion: the named agent finishes its client, the served total
     * rises by one, and the agent starts its next queued client, if any.
     * The event has already been popped: it is still counted as pending
     * on entry.
     */
    method HandleDeparture(event: Event)
      requires event.kind == Completion
      requires ValidWith(events + [event])
      modifies agents, this`events, this`clientsServed, this`views
      ensures Valid()
      ensures 0 <= event.agentId < n && old(views)[event.agentId].current.Some?
      ensures var a := event.agentId; var x := FinishView(old(views)[a]);
        && views == old(views)[a := StartView(x, event.time)]
        && events == AfterStart(old(events), x, event.time, a)
      ensures clientsServed == old(clientsServed) + 1
      ensures SumOf(views, Outstanding()) == old(SumOf(views, Outstanding())) - 1
      ensures CountWhere(events, IsArrival()) == old(CountWhere(events, IsArrival()))
      ensures Extends(old(events), events, event.time)
    {
      var a := event.agentId;
      DepartureStep(events, event, views, clientsServed);
      clientsServed := clientsServed + 1;
      Release(a, event.time);
    }

    /**
     * The agent part of a completion: agent a finishes its client and, when
     * it is free and its queue is not empty, starts the next one.
     */
    method Release(a: nat, t: real)
      requires a < n && AgentsOk()
      modifies agents[a], this`events, this`views
      ensures AgentsOk()
      ensures var x := FinishView(old(agents[a].View()));
        && views == old(views)[a := StartView(x, t)]
        && events == AfterStart(old(events), x, t, a)
    {
      agents[a].FinishService();
      if agents[a].IsFree(t) && agents[a].GetQueueSize() > 0 {
        var started;
        started, events := agents[a].StartNextService(t, events);
      }
      views := views[a := agents[a].View()];
    }

    /**
     * An arrival: unless m clients have already been served, the client is
     * given a fresh difficulty and queued at the least-loaded agent, which
     * starts serving it at once if it is free. The event has already been
     * popped: it is still counted as pending on entry.
     */
    method HandleArrival(event: Event) returns (ghost selected: nat)
      requires event.kind == Arrival
      requires ValidWith(events + [event])
      requires clientsServed < m ==> n > 0 && difficultyDraws < |difficulties|
      modifies agents, this`events, this`difficultyDraws, this`views
      ensures Valid()
      ensures CountWhere(events, IsArrival()) == old(CountWhere(events, IsArrival()))
      ensures Extends(old(events), events, event.time)
      ensures old(clientsServed) >= m ==>
        events == old(events) && difficultyDraws == old(difficultyDraws) && views == old(views)
      ensures old(clientsServed) < m ==>
        && difficultyDraws == old(difficultyDraws) + 1
        && SumOf(views, Outstanding()) == old(SumOf(views, Outstanding())) + 1
        && selected < n
        && (forall j :: 0 <= j < n ==> old(agents[selected].currentLoad) <= old(agents[j].currentLoad))
        && (forall j :: 0 <= j < selected ==> old(agents[j].currentLoad) > old(agents[selected].currentLoad))
        && var x := EnqueueView(old(views)[selected], Client(event.clientId, event.time, difficulties[old(difficultyDraws)]));
           && views == old(views)[selected := StartView(x, event.time)]
           && events == AfterStart(old(events), x, event.time, selected)
    {
      if clientsServed >= m {
        DropArrival(events, event, views, clientsServed);
        return 0;
      }
      ghost var before := views;
      var loads := CurrentLoads();
      var chosen := LeastLoaded(loads);
      selected := chosen;
      var difficulty := difficulties[difficultyDraws];
      difficultyDraws := difficultyDraws + 1;
      var client := Client(event.clientId, event.time, difficulty);
      ArrivalStep(events, event, before, clientsServed, chosen, client);
      Admit(chosen, client, event.time);
      assert views == before[chosen := StartView(EnqueueView(before[chosen], client), event.time)];
    }

    /**
     * The agent part of an arrival: agent s queues the client and, if it is
     * free, tries to start serving.
     */
    method Admit(s: nat, client: Client, t: real)
      requires s < n && AgentsOk()
      modifies agents[s], this`events, this`views
      ensures AgentsOk()
      ensures var x := EnqueueView(old(agents[s].View()), client);
        && views == old(views)[s := StartView(x, t)]
        && events == AfterStart(old(events), x, t, s)
    {
      agents[s].AddClient(client);
      if agents[s].IsFree(t) {
        var started;
        started, events := agents[s].StartNextService(t, events);
      }
      views := views[s := agents[s].View()];
    }

    /**
     * The simulation: primes the whole arrival schedule from time 0, then
     * pops the earliest pending event (ties in any order) and handles it,
     * until no event is pending or m clients have been served; finally the
     * report is built. Every one of the m clients is served by the end.
     */
    method Run() returns (report: seq<ReportEntry>)
      requires Initial()
      requires m <= |intervals| && 2 * m <= |difficulties|
      requires m > 0 ==> n > 0
      modifies agents, this`events, this`popped, this`clientsServed, this`clientsCreated
      modifies this`intervalDraws, this`difficultyDraws, this`views
      ensures Valid()
      ensures clientsServed == m && events == [] && SumOf(views, Served()) == m
      ensures |popped| == 2 * m && Chronological(popped, events)
      ensures ReportSorted(report) && multiset(report) == multiset(Entries())
    {
      Prime();
      while events != [] && clientsServed < m
        invariant Valid()
        invariant clientsServed <= m
        invariant m == clientsServed + SumOf(views, Outstanding()) + CountWhere(events, IsArrival())
        invariant difficultyDraws + CountWhere(events, IsArrival()) == 2 * m
        invariant Chronological(popped, events)
        invariant |popped| + CountWhere(events, IsArrival()) == m + clientsServed
        decreases m - clientsServed + CountWhere(events, IsArrival())
      {
        var event := Step();
      }
      Drained();
      report := BuildReport();
    }

    /**
     * When the event loop stops, it stops for both reasons at once: every
     * client is served and no event is pending; the agents' served counters
     * then add up to m.
     */
    lemma Drained()
      requires Valid() && clientsServed <= m
      requires m == clientsServed + SumOf(views, Outstanding()) + CountWhere(events, IsArrival())
      requires events == [] || clientsServed == m
      ensures clientsServed == m && events == []
      ensures SumOf(views, Served()) == m
    {
      if events != [] {
        SumOfNonnegative(views, Outstanding());
        QuietPending(events, views, clientsServed);
      }
      DrainedStep(views, clientsServed);
    }

    /** The start of run: the arrival schedule of all m clients is generated from time 0. */
    method Prime()
      requires Initial() && m <= |intervals| && 2 * m <= |difficulties|
      modifies this`intervalDraws, this`difficultyDraws, this`events, this`clientsCreated
      ensures Primed() && popped == [] && clientsCreated == m
      ensures events == ArrivalEvents(0.0, intervals[..m], 1)
    {
      DrainedStep(views, clientsServed);
      CreateNextClient(0.0);
      PrimedFacts();
    }

    /** The state right after the arrival schedule is primed from time 0. */
    ghost predicate Primed()
      reads this`views, this`clientsServed, this`events, this`difficultyDraws, agents
    {
      && Valid()
      && CountWhere(events, IsArrival()) == m && difficultyDraws == m
      && SumOf(views, Outstanding()) == 0 && clientsServed == 0
    }

    /** The schedule primed by run holds m arrivals and nothing else. */
    lemma PrimedFacts()
      requires ValidWith([]) && clientsServed == 0 && SumOf(views, Outstanding()) == 0
      requires m <= |intervals| && difficultyDraws == m
      requires events == ArrivalEvents(0.0, intervals[..m], 1)
      ensures Primed()
    {
      ArrivalEventsCount(0.0, intervals[..m], 1);
      PrimedAccounting(events, views, clientsServed);
    }

    /**
     * The priority queue's top and pop: removes and returns an event of
     * least time; which one among equal times is left open.
     */
    method PopEarliest() returns (event: Event)
      requires events != [] && Valid() && Chronological(popped, events)
      modifies this`events, this`popped
      ensures forall j :: 0 <= j < |old(events)| ==> event.time <= old(events)[j].time
      ensures multiset(events) + multiset{event} == multiset(old(events))
      ensures ValidWith(events + [event])
      ensures CountWhere(old(events), IsArrival()) == CountWhere(events, IsArrival()) + (if event.kind == Arrival then 1 else 0)
      ensures popped == old(popped) + [event] && Chronological(popped, events)
    {
      EarliestExists(events);
      var k :| 0 <= k < |events| && IsEarliest(events, k);
      event := events[k];
      ghost var pending := events;
      events := RemoveAt(events, k);
      AccountingPop(pending, k, views, clientsServed);
      CountWhereRemove(pending, k, IsArrival());
      ChronologicalPop(popped, pending, k);
      RemoveAtMultiset(pending, k);
      popped := popped + [event];
    }

    /** One turn of run's event loop: pop the earliest event and dispatch it on its type. */
    method Step() returns (event: Event)
      requires Valid() && Chronological(popped, events)
      requires events != [] && clientsServed < m && n > 0
      requires difficultyDraws + CountWhere(events, IsArrival()) <= |difficulties|
      modifies agents, this`events, this`popped, this`clientsServed, this`difficultyDraws, this`views
      ensures Valid() && Chronological(popped, events)
      ensures event in multiset(old(events))
      ensures forall j :: 0 <= j < |old(events)| ==> event.time <= old(events)[j].time
      ensures popped == old(popped) + [event]
      ensures clientsServed <= old(clientsServed) + 1
      ensures difficultyDraws + CountWhere(events, IsArrival()) == old(difficultyDraws + CountWhere(events, IsArrival()))
      ensures clientsServed + SumOf(views, Outstanding()) + CountWhere(events, IsArrival()) ==
              old(clientsServed + SumOf(views, Outstanding()) + CountWhere(events, IsArrival()))
      ensures clientsServed - CountWhere(events, IsArrival()) == old(clientsServed - CountWhere(events, IsArrival())) + 1
    {
      event := PopEarliest();
      ghost var rest := events;
      Dispatch(event);
      ChronologicalExtend(popped, rest, events);
    }

    /**
     * Hands a popped event to the handler for its type. Either way the
     * arrivals still pending are unchanged and nothing earlier than the
     * event is pushed.
     */
    method Dispatch(event: Event)
      requires ValidWith(events + [event]) && clientsServed < m && n > 0
      requires event.kind == Arrival ==> difficultyDraws < |difficulties|
      modifies agents, this`events, this`clientsServed, this`difficultyDraws, this`views
      ensures Valid()
      ensures Extends(old(events), events, event.time)
      ensures CountWhere(events, IsArrival()) == old(CountWhere(events, IsArrival()))
      ensures event.kind == Arrival ==>
        && clientsServed == old(clientsServed) && difficultyDraws == old(difficultyDraws) + 1
        && SumOf(views, Outstanding()) == old(SumOf(views, Outstanding())) + 1
      ensures event.kind == Completion ==>
        && clientsServed == old(clientsServed) + 1 && difficultyDraws == old(difficultyDraws)
        && SumOf(views, Outstanding()) == old(SumOf(views, Outstanding())) - 1
    {
      if event.kind == Arrival {
        ghost var selected := HandleArrival(event);
      } else {
        HandleDeparture(event);
      }
    }

    /** One report entry per agent, in agent order. */
    function Entries(): (r: seq<ReportEntry>)
      reads agents
    {
      seq(|agents|, i requires 0 <= i < |agents| reads agents =>
        ReportEntry(agents[i].id, agents[i].servedCount, agents[i].totalWorkTime))
    }

    /**
     * The data of the report: one entry per agent, sorted by served count,
     * largest first, and then by total work time, smallest first.
     */
    method BuildReport() returns (report: seq<ReportEntry>)
      ensures ReportSorted(report) && multiset(report) == multiset(Entries())
    {
      var entries: seq<ReportEntry> := [];
      var i := 0;
      while i < |agents|
        invariant 0 <= i <= |agents|
        invariant entries == Entries()[..i]
      {
        entries := entries + [ReportEntry(agents[i].id, agents[i].servedCount, agents[i].totalWorkTime)];
        i := i + 1;
      }
      assert entries == Entries();
      report := SortReport(entries);
    }
  }
}
