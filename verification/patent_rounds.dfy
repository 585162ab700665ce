/**
 * The negotiation of the patent-exchange simulation (LW_A_2) on values:
 * the agents as a sequence of holdings, and what one negotiation of an
 * agent with all others, one round and the whole run do to them, with the
 * log of exchange results in the order the exchanges happen.
 */
module PatentRounds {
  import opened PatentAgent
  import opened PatentDealing

  /** The safeguard on the number of negotiation rounds. */
  const MaxIterations: int := 10000

  /** The number of successful exchanges in a log of exchange results. */
  function Successes(log: seq<bool>): nat
  {
    if log == [] then 0 else Successes(log[..|log| - 1]) + (if log[|log| - 1] then 1 else 0)
  }

  lemma {:induction false} SuccessesAppend(a: seq<bool>, b: seq<bool>)
    decreases |b|
    ensures Successes(a + b) == Successes(a) + Successes(b)
  {
    if b == [] {
      assert a + b == a;
    } else {
      assert (a + b)[..|a + b| - 1] == a + b[..|b| - 1];
      SuccessesAppend(a, b[..|b| - 1]);
    }
  }

  /** The agents' holdings after some exchanges, and the results of all exchanges so far in order. */
  datatype Trace = Trace(state: seq<Holding>, log: seq<bool>)

  /**
   * Agent i negotiates with agents j, j + 1, ... in turn, skipping itself;
   * each exchange sees the holdings the previous ones left, and its result
   * is appended to the log done.
   */
  ghost function NegotiationFrom(s: seq<Holding>, i: nat, j: nat, done: seq<bool>): (t: Trace)
    requires i < |s|
    decreases |s| - j
    ensures |t.state| == |s|
    ensures forall k :: 0 <= k < |s| ==> t.state[k].target == s[k].target
  {
    if j >= |s| then Trace(s, done)
    else if j == i then NegotiationFrom(s, i, j + 1, done)
    else
      var e := Exchange(s[i], s[j]);
      NegotiationFrom(s[i := e.first][j := e.second], i, j + 1, done + [e.ok])
  }

  /** One round from agent i on: every agent that is not complete negotiates with all others. */
  ghost function RoundFrom(s: seq<Holding>, i: nat, done: seq<bool>): (t: Trace)
    decreases |s| - i
    ensures |t.state| == |s|
    ensures forall k :: 0 <= k < |s| ==> t.state[k].target == s[k].target
  {
    if i >= |s| then Trace(s, done)
    else if Complete(s[i]) then RoundFrom(s, i + 1, done)
    else
      var n := NegotiationFrom(s, i, 0, done);
      RoundFrom(n.state, i + 1, n.log)
  }

  /**
   * A negotiation only appends to the log, one result for every other agent
   * it meets: from j = 0, agent i logs |s| - 1 results.
   */
  lemma {:induction false} NegotiationLog(s: seq<Holding>, i: nat, j: nat, done: seq<bool>)
    requires i < |s|
    decreases |s| - j
    ensures var t := NegotiationFrom(s, i, j, done);
      && |t.log| == |done| + (if j >= |s| then 0 else if j <= i then |s| - j - 1 else |s| - j)
      && t.log[..|done|] == done
  {
    if j < |s| {
      if j == i {
        NegotiationLog(s, i, j + 1, done);
      } else {
        var e := Exchange(s[i], s[j]);
        NegotiationLog(s[i := e.first][j := e.second], i, j + 1, done + [e.ok]);
        var t := NegotiationFrom(s[i := e.first][j := e.second], i, j + 1, done + [e.ok]);
        assert t.log[..|done|] == t.log[..|done| + 1][..|done|];
      }
    }
  }

  /** A round only appends to the log. */
  lemma {:induction false} RoundLog(s: seq<Holding>, i: nat, done: seq<bool>)
    decreases |s| - i
    ensures var t := RoundFrom(s, i, done); |done| <= |t.log| && t.log[..|done|] == done
  {
    if i < |s| {
      if Complete(s[i]) {
        RoundLog(s, i + 1, done);
      } else {
        var n := NegotiationFrom(s, i, 0, done);
        NegotiationLog(s, i, 0, done);
        RoundLog(n.state, i + 1, n.log);
        var t := RoundFrom(n.state, i + 1, n.log);
        assert t.log[..|done|] == t.log[..|n.log|][..|done|];
      }
    }
  }

  /** Every agent holds its whole target. */
  predicate AllDone(s: seq<Holding>)
    ensures AllDone(s) ==> forall h :: h in s ==> h.target <= h.current
  {
    forall k :: 0 <= k < |s| ==> Complete(s[k])
  }

  /** The end of a run: the holdings, the number of rounds played, and every exchange result. */
  datatype Simulation = Simulation(state: seq<Holding>, rounds: nat, log: seq<bool>)

  /**
   * The negotiation after r rounds whose exchange results were done: it
   * stops when every agent is complete or the safeguard is reached;
   * otherwise round r shuffles the agents by shuffles[r] and is played. It
   * never plays more than MaxIterations rounds, stopping earlier means every
   * agent is complete, and the log only grows.
   */
  ghost function SimulationFrom(s: seq<Holding>, shuffles: seq<seq<nat>>, r: nat, done: seq<bool>): (sim: Simulation)
    requires r <= MaxIterations <= |shuffles|
    requires forall k :: 0 <= k < |shuffles| ==> IsPermutation(shuffles[k], |s|)
    decreases MaxIterations - r
    ensures |sim.state| == |s|
    ensures r <= sim.rounds <= MaxIterations
    ensures sim.rounds < MaxIterations ==> AllDone(sim.state)
  {
    if AllDone(s) || r == MaxIterations then Simulation(s, r, done)
    else
      PermuteKeeps(s, shuffles[r]);
      var t := RoundFrom(Permute(s, shuffles[r]), 0, done);
      SimulationFrom(t.state, shuffles, r + 1, t.log)
  }

  /** The whole run only appends to the log: the results logged before round r stay as they were. */
  lemma {:induction false} SimulationLog(s: seq<Holding>, shuffles: seq<seq<nat>>, r: nat, done: seq<bool>)
    requires r <= MaxIterations <= |shuffles|
    requires forall k :: 0 <= k < |shuffles| ==> IsPermutation(shuffles[k], |s|)
    decreases MaxIterations - r
    ensures var sim := SimulationFrom(s, shuffles, r, done); |done| <= |sim.log| && sim.log[..|done|] == done
  {
    if !AllDone(s) && r < MaxIterations {
      PermuteKeeps(s, shuffles[r]);
      var t := RoundFrom(Permute(s, shuffles[r]), 0, done);
      RoundLog(Permute(s, shuffles[r]), 0, done);
      SimulationLog(t.state, shuffles, r + 1, t.log);
      var sim := SimulationFrom(t.state, shuffles, r + 1, t.log);
      assert sim.log[..|done|] == sim.log[..|t.log|][..|done|];
    }
  }
}
