/**
 * A service agent of the queue simulation (LW_A_1): a FIFO queue of
 * waiting clients, at most one client in service, the time it becomes
 * free, a cached load and two counters.
 */
module ServiceAgent {
  import opened Wrappers
  import opened ServiceEvents
  import opened ServiceAccounting

  /** Total difficulty of the queued clients, summed front to back. */
  function QueuedWork(q: seq<Client>): (r: real)
    ensures PositiveDifficulties(q) ==> r >= |q| as real
  {
    if q == [] then 0.0 else QueuedWork(q[..|q| - 1]) + q[|q| - 1].difficulty as real
  }

  /**
   * The load an agent reports: its absolute next-free time while a client
   * is in service (not the time remaining), plus the queued difficulties.
   */
  function Load(current: Option<Client>, nextFree: real, q: seq<Client>): (r: real)
    ensures PositiveDifficulties(q) && current.Some? ==> r >= nextFree + |q| as real
    ensures PositiveDifficulties(q) && current.None? ==> r >= |q| as real
  {
    (if current.Some? then nextFree else 0.0) + QueuedWork(q)
  }

  /** Taking the head of the queue lowers the queued work by the head's difficulty. */
  lemma {:induction false} QueuedWorkFront(q: seq<Client>)
    requires q != []
    ensures QueuedWork(q) == q[0].difficulty as real + QueuedWork(q[1..])
  {
    if |q| > 1 {
      var init := q[..|q| - 1];
      QueuedWorkFront(init);
      assert init[1..] == q[1..][..|q[1..]| - 1];
    }
  }

  /** Queued work is never negative when no difficulty is. */
  lemma {:induction false} QueuedWorkNonnegative(q: seq<Client>)
    requires forall k :: 0 <= k < |q| ==> q[k].difficulty >= 0
    ensures QueuedWork(q) >= 0.0
  {
    if q != [] {
      QueuedWorkNonnegative(q[..|q| - 1]);
    }
  }

  class Agent {
    const id: int
    var clientQueue: seq<Client>
    var currentLoad: real
    var nextFreeTime: real
    var currentClient: Option<Client>
    var servedCount: nat
    var totalWorkTime: real

    /** The cached load agrees with its definition. */
    ghost predicate Valid()
      reads this
    {
      currentLoad == Load(currentClient, nextFreeTime, clientQueue)
    }

    /** The agent's state apart from its cached load. */
    ghost function View(): AgentView
      reads this
    {
      AgentView(clientQueue, currentClient, servedCount, nextFreeTime, totalWorkTime)
    }

    constructor (id: int)
      ensures this.id == id && clientQueue == [] && currentClient == None
      ensures nextFreeTime == 0.0 && currentLoad == 0.0
      ensures servedCount == 0 && totalWorkTime == 0.0
      ensures Valid()
    {
      this.id := id;
      clientQueue := [];
      currentLoad := 0.0;
      nextFreeTime := 0.0;
      currentClient := None;
      servedCount := 0;
      totalWorkTime := 0.0;
    }

    /** Appends a client to the waiting queue and recomputes the load. */
    method AddClient(client: Client)
      modifies this
      ensures clientQueue == old(clientQueue) + [client]
      ensures currentClient == old(currentClient) && nextFreeTime == old(nextFreeTime)
      ensures servedCount == old(servedCount) && totalWorkTime == old(totalWorkTime)
      ensures Valid()
      ensures old(Valid()) ==> currentLoad == old(currentLoad) + client.difficulty as real
      ensures View() == EnqueueView(old(View()), client)
    {
      clientQueue := clientQueue + [client];
      UpdateLoad();
      assert clientQueue[..|clientQueue| - 1] == old(clientQueue);
    }

    /**
     * Starts serving the head of the queue at currentTime, unless the queue
     * is empty or a client is already in service; on success the returned
     * event sequence is the given one plus this agent's completion event.
     */
    method StartNextService(currentTime: real, events: seq<Event>) returns (started: bool, events': seq<Event>)
      modifies this
      ensures started <==> old(clientQueue) != [] && old(currentClient).None?
      ensures !started ==> unchanged(this) && events' == events
      ensures started ==>
        var c := old(clientQueue)[0];
        && currentClient == Some(c)
        && clientQueue == old(clientQueue)[1..]
        && nextFreeTime == currentTime + c.difficulty as real
        && servedCount == old(servedCount) + 1
        && totalWorkTime == old(totalWorkTime) + c.difficulty as real
        && events' == events + [Event(nextFreeTime, Completion, c.id, id)]
        && Valid()
      ensures View() == StartView(old(View()), currentTime)
    {
      if clientQueue == [] || currentClient.Some? {
        return false, events;
      }
      var c := clientQueue[0];
      currentClient := Some(c);
      clientQueue := clientQueue[1..];
      nextFreeTime := currentTime + c.difficulty as real;
      servedCount := servedCount + 1;
      totalWorkTime := totalWorkTime + c.difficulty as real;
      events' := events + [Event(nextFreeTime, Completion, c.id, id)];
      UpdateLoad();
      started := true;
    }

    /** Releases the client in service and recomputes the load. */
    method FinishService()
      modifies this
      ensures currentClient == None
      ensures clientQueue == old(clientQueue) && nextFreeTime == old(nextFreeTime)
      ensures servedCount == old(servedCount) && totalWorkTime == old(totalWorkTime)
      ensures Valid()
      ensures View() == FinishView(old(View()))
    {
      currentClient := None;
      UpdateLoad();
    }

    /** Recomputes the cached load by walking a copy of the queue. */
    method UpdateLoad()
      modifies this`currentLoad
      ensures Valid()
    {
      currentLoad := 0.0;
      if currentClient.Some? {
        currentLoad := currentLoad + nextFreeTime;
      }
      var base := currentLoad;
      var i := 0;
      while i < |clientQueue|
        invariant 0 <= i <= |clientQueue|
        invariant currentLoad == base + QueuedWork(clientQueue[..i])
      {
        assert clientQueue[..i + 1][..i] == clientQueue[..i];
        currentLoad := currentLoad + clientQueue[i].difficulty as real;
        i := i + 1;
      }
      assert clientQueue[..i] == clientQueue;
    }

    /** The load read by the dispatcher equals the recomputed definition. */
    function GetCurrentLoad(): (load: real)
      reads this
      requires Valid()
      ensures load == Load(currentClient, nextFreeTime, clientQueue)
    {
      currentLoad
    }

    /** True when no client is in service or the recorded free time has passed. */
    predicate IsFree(currentTime: real)
      reads this
    {
      currentClient.None? || nextFreeTime <= currentTime
    }

    function GetQueueSize(): nat
      reads this
    {
      |clientQueue|
    }
  }

  /**
   * Because the load counts the absolute next-free time, starting service at
   * time t raises an agent's load from the queued work to t plus that work.
   */
  lemma LoadAfterStart(q: seq<Client>, t: real)
    requires q != []
    ensures Load(Some(q[0]), t + q[0].difficulty as real, q[1..]) == t + Load(None, 0.0, q)
  {
    QueuedWorkFront(q);
  }
}
