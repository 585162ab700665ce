/**
 * The patent-exchange negotiation (LW_A_2) as a whole: generating the
 * agents, their targets and their initial patents, and the negotiation
 * loop in which every unfinished agent tries to exchange with every other
 * agent, round after round, until all targets are complete or 10000
 * rounds have passed.
 */
module PatentExchange {
  import opened PatentOrder
  import opened PatentIds
  import opened PatentAgent
  import opened PatentDealing
  import opened PatentRounds

  /** An ascending listing has no duplicates. */
  lemma AscendingDistinct(v: seq<string>)
    requires StrictlyAscending(v)
    ensures Distinct(v)
  {
    forall k, l | 0 <= k < |v| && 0 <= l < |v| && k != l ensures v[k] != v[l] {
      if k < l {
        BelowIrreflexive(v[k]);
      } else {
        BelowIrreflexive(v[l]);
      }
    }
  }

  /** There are no patents without agents. */
  lemma PoolNeedsAgents(numAgents: nat, targetSize: nat)
    ensures numAgents == 0 ==> numAgents * targetSize + ExtraCount(numAgents, targetSize) == 0
  {
  }

  /**
   * The first half of step 5: the pool listed in ascending order, then
   * shuffled by the permutation perm.
   */
  method Shuffle(allPatents: set<string>, perm: seq<nat>) returns (allPatentsVec: seq<string>)
    requires IsPermutation(perm, |allPatents|)
    ensures |allPatentsVec| == |allPatents| && Distinct(allPatentsVec)
    ensures forall x :: x in allPatentsVec <==> x in allPatents
    ensures forall i, j :: 0 <= i < j < |allPatentsVec| ==>
      (Below(allPatentsVec[i], allPatentsVec[j]) <==> perm[i] < perm[j])
  {
    var sorted := Ascending(allPatents);
    AscendingDistinct(sorted);
    PermuteKeeps(sorted, perm);
    allPatentsVec := Permute(sorted, perm);
    PermutedOrder(sorted, perm);
  }

  /**
   * Reordering an ascending listing by a permutation: of two positions, the
   * one the permutation fills from further forward holds the smaller string.
   */
  lemma PermutedOrder(sorted: seq<string>, perm: seq<nat>)
    requires StrictlyAscending(sorted) && IsPermutation(perm, |sorted|)
    ensures forall i, j :: 0 <= i < j < |perm| ==>
      (Below(Permute(sorted, perm)[i], Permute(sorted, perm)[j]) <==> perm[i] < perm[j])
  {
    var v := Permute(sorted, perm);
    forall i, j | 0 <= i < j < |perm|
      ensures Below(v[i], v[j]) <==> perm[i] < perm[j]
    {
      assert perm[i] != perm[j];
      if perm[j] < perm[i] {
        BelowAsymmetric(sorted[perm[j]], sorted[perm[i]]);
      }
    }
  }

  /** The patents held by at least one of the agents xs. */
  ghost function HeldBy(xs: seq<Agent>): set<string>
    reads set a | a in xs
  {
    set k, x | 0 <= k < |xs| && x in xs[k].currentPatents :: x
  }

  /** The agents' targets and holdings, as values. */
  ghost function Snapshot(xs: seq<Agent>): (s: seq<Holding>)
    reads set a | a in xs
    ensures |s| == |xs|
    ensures forall k :: 0 <= k < |xs| ==> s[k] == Holding(xs[k].targetPatents, xs[k].currentPatents)
  {
    seq(|xs|, k requires 0 <= k < |xs| reads xs => Holding(xs[k].targetPatents, xs[k].currentPatents))
  }

  /** What the agents hold together does not depend on their order. */
  lemma HeldBySameMembers(xs: seq<Agent>, ys: seq<Agent>)
    requires forall a :: a in xs <==> a in ys
    ensures HeldBy(xs) == HeldBy(ys)
  {
    forall x | x in HeldBy(xs) ensures x in HeldBy(ys) {
      var k :| 0 <= k < |xs| && x in xs[k].currentPatents;
      assert xs[k] in ys;
      var l :| 0 <= l < |ys| && ys[l] == xs[k];
    }
    forall x | x in HeldBy(ys) ensures x in HeldBy(xs) {
      var l :| 0 <= l < |ys| && x in ys[l].currentPatents;
      assert ys[l] in xs;
      var k :| 0 <= k < |xs| && xs[k] == ys[l];
    }
  }

  /** Step 1: agent i's target is the ids PatentId(i, 0) .. PatentId(i, targetSize - 1). */
  method MakeTargets(numAgents: nat, targetSize: nat) returns (targets: seq<set<string>>)
    ensures |targets| == numAgents
    ensures forall a :: 0 <= a < numAgents ==> targets[a] == TargetSet(a, targetSize) && |targets[a]| == targetSize
  {
    targets := seq(numAgents, _ => {});
    var i := 0;
    while i < numAgents
      invariant 0 <= i <= numAgents && |targets| == numAgents
      invariant forall a :: 0 <= a < i ==> targets[a] == TargetSet(a, targetSize) && |targets[a]| == targetSize
      invariant forall a :: i <= a < numAgents ==> targets[a] == {}
    {
      var j := 0;
      while j < targetSize
        invariant 0 <= j <= targetSize && |targets| == numAgents
        invariant targets[i] == TargetSet(i, j) && |targets[i]| == j
        invariant forall a :: 0 <= a < i ==> targets[a] == TargetSet(a, targetSize) && |targets[a]| == targetSize
        invariant forall a :: i < a < numAgents ==> targets[a] == {}
      {
        TargetSetStep(i, j);
        targets := targets[i := targets[i] + {PatentId(i, j)}];
        j := j + 1;
      }
      i := i + 1;
    }
  }

  /** Step 2: the union of all targets. */
  method UniteTargets(targets: seq<set<string>>, numAgents: nat, targetSize: nat) returns (allPatents: set<string>)
    requires |targets| == numAgents
    requires forall a :: 0 <= a < numAgents ==> targets[a] == TargetSet(a, targetSize) && |targets[a]| == targetSize
    ensures allPatents == TargetsUpTo(numAgents, targetSize)
    ensures |allPatents| == numAgents * targetSize
  {
    allPatents := {};
    var i := 0;
    while i < |targets|
      invariant 0 <= i <= numAgents
      invariant allPatents == TargetsUpTo(i, targetSize) && |allPatents| == i * targetSize
    {
      TargetsStep(i, targetSize);
      allPatents := allPatents + targets[i];
      assert (i + 1) * targetSize == i * targetSize + targetSize;
      i := i + 1;
    }
    assert i == numAgents;
  }

  /** Step 3: adds the numAgents * targetSize / 2 extra patents, each new. */
  method AddExtraPatents(targetPatents: set<string>, numAgents: nat, targetSize: nat) returns (allPatents: set<string>)
    requires targetPatents == TargetsUpTo(numAgents, targetSize)
    requires |targetPatents| == numAgents * targetSize
    ensures allPatents == AllPatents(numAgents, targetSize)
    ensures |allPatents| == numAgents * targetSize + ExtraCount(numAgents, targetSize)
  {
    allPatents := targetPatents;
    assert ExtraSet(0) == {};
    var additionalPatents := numAgents * targetSize / 2;
    var k := 0;
    while k < additionalPatents
      invariant 0 <= k <= additionalPatents
      invariant allPatents == TargetsUpTo(numAgents, targetSize) + ExtraSet(k)
      invariant |allPatents| == numAgents * targetSize + k
    {
      ExtraStep(k, numAgents, targetSize);
      var extra := ExtraId(k);
      assert extra !in allPatents;
      allPatents := allPatents + {extra};
      k := k + 1;
    }
  }

  class PatentSystem {
    var agents: seq<Agent>
    var totalCommunicationRounds: int

    /** Every agent's completion flag is up to date, and no agent appears twice. */
    ghost predicate Valid()
      reads this`agents, agents
    {
      && (forall k :: 0 <= k < |agents| ==> agents[k].Valid())
      && Distinct(agents)
    }

    /** Every agent holds its whole target. */
    ghost predicate AllComplete()
      reads this`agents, agents
    {
      forall k :: 0 <= k < |agents| ==> agents[k].targetPatents <= agents[k].currentPatents
    }

    constructor ()
      ensures agents == [] && totalCommunicationRounds == 0
    {
      agents := [];
      totalCommunicationRounds := 0;
    }

    /**
     * Creates numAgents agents with their targets and deals out all patents.
     * The shuffle of the pool is given as the permutation perm; the ghost
     * result is the shuffled pool: the pool's ascending listing reordered
     * by perm, so that of two positions the one perm fills from further
     * forward holds the smaller patent.
     */
    method GenerateInitialConditions(numAgents: nat, targetSize: nat, initialSetSize: nat, perm: seq<nat>)
      returns (ghost shuffled: seq<string>)
      requires IsPermutation(perm, numAgents * targetSize + ExtraCount(numAgents, targetSize))
      modifies this`agents
      ensures |agents| == numAgents && Valid()
      ensures forall a :: 0 <= a < numAgents ==>
        fresh(agents[a]) && agents[a].id == a && agents[a].targetPatents == TargetSet(a, targetSize)
      ensures |shuffled| == |perm| && forall i, j :: 0 <= i < j < |perm| ==>
        (Below(shuffled[i], shuffled[j]) <==> perm[i] < perm[j])
      ensures Distinct(shuffled) && (forall x :: x in shuffled <==> x in AllPatents(numAgents, targetSize))
      ensures forall a :: 0 <= a < numAgents ==>
        agents[a].currentPatents == Dealt(shuffled, a, numAgents, PatentsPerAgent(|shuffled|, numAgents, initialSetSize))
      ensures forall a, b :: 0 <= a < numAgents && 0 <= b < numAgents && a != b ==>
        && agents[a].targetPatents * agents[b].targetPatents == {}
        && agents[a].currentPatents * agents[b].currentPatents == {}
      ensures forall x :: x in AllPatents(numAgents, targetSize) <==>
        exists a :: 0 <= a < numAgents && x in agents[a].currentPatents
    {
      agents := [];
      var targets := MakeTargets(numAgents, targetSize);
      var allPatents := UniteTargets(targets, numAgents, targetSize);
      allPatents := AddExtraPatents(allPatents, numAgents, targetSize);

      CreateAgents(targets);

      var allPatentsVec := Shuffle(allPatents, perm);
      shuffled := allPatentsVec;

      var perAgent := if |allPatentsVec| < numAgents * initialSetSize then |allPatentsVec| / numAgents else initialSetSize;
      FirstRoundFits(|allPatentsVec|, numAgents, initialSetSize);
      PoolNeedsAgents(numAgents, targetSize);
      DealPatents(allPatentsVec, perAgent);
      DealingPartitions(allPatentsVec, numAgents, targetSize, perAgent);
    }

    /** Step 5: deals the shuffled pool v, first in blocks of perAgent, then round-robin. */
    method DealPatents(v: seq<string>, perAgent: nat)
      requires Distinct(agents) && |agents| * perAgent <= |v|
      requires v != [] ==> |agents| > 0
      requires forall b :: 0 <= b < |agents| ==> agents[b].currentPatents == {}
      modifies agents`currentPatents, agents`targetCompleted
      ensures Valid()
      ensures forall b :: 0 <= b < |agents| ==> agents[b].currentPatents == Dealt(v, b, |agents|, perAgent)
    {
      var patentIndex := DealBlocks(v, perAgent);
      DealRemainder(v, perAgent, patentIndex);
    }

    /** Step 4: agent i is created with id i and target targets[i]. */
    method CreateAgents(targets: seq<set<string>>)
      requires agents == []
      modifies this`agents
      ensures |agents| == |targets| && Distinct(agents)
      ensures forall a :: 0 <= a < |targets| ==>
        && fresh(agents[a]) && agents[a].id == a && agents[a].targetPatents == targets[a]
        && agents[a].currentPatents == {}
        && agents[a].communicationRounds == 0 && agents[a].successfulExchanges == 0
    {
      var i := 0;
      while i < |targets|
        invariant 0 <= i <= |targets| && |agents| == i && Distinct(agents)
        invariant forall a :: 0 <= a < i ==>
          && fresh(agents[a]) && agents[a].id == a && agents[a].targetPatents == targets[a]
          && agents[a].currentPatents == {}
          && agents[a].communicationRounds == 0 && agents[a].successfulExchanges == 0
      {
        var agent := new Agent(i, targets[i]);
        agents := agents + [agent];
        i := i + 1;
      }
    }

    /** The first dealing round: agent after agent receives the next perAgent patents of v. */
    method DealBlocks(v: seq<string>, perAgent: nat) returns (patentIndex: nat)
      requires Distinct(agents) && |agents| * perAgent <= |v|
      requires forall b :: 0 <= b < |agents| ==> agents[b].currentPatents == {}
      modifies agents`currentPatents, agents`targetCompleted
      ensures patentIndex == |agents| * perAgent
      ensures forall b :: 0 <= b < |agents| ==>
        agents[b].currentPatents == DealtBefore(v, patentIndex, b, |agents|, perAgent) && agents[b].Valid()
    {
      NothingDealt(v, |agents|, perAgent);
      patentIndex := 0;
      var a := 0;
      while a < |agents|
        invariant 0 <= a <= |agents| && patentIndex == a * perAgent
        invariant forall b :: 0 <= b < |agents| ==>
          agents[b].currentPatents == DealtBefore(v, patentIndex, b, |agents|, perAgent)
        invariant forall b :: 0 <= b < a ==> agents[b].Valid()
      {
        BlockEnds(a, |agents|, perAgent);
        var initialSet;
        initialSet, patentIndex := TakeBlock(v, patentIndex, perAgent);
        BlockDealt(v, a, |agents|, perAgent);
        agents[a].AddInitialPatents(initialSet);
        a := a + 1;
      }
    }

    /** The inner loop of the first round: the next perAgent patents of v, starting at position start. */
    static method TakeBlock(v: seq<string>, start: nat, perAgent: nat) returns (initialSet: set<string>, patentIndex: nat)
      requires start + perAgent <= |v|
      ensures patentIndex == start + perAgent
      ensures initialSet == Block(v, start, patentIndex)
    {
      initialSet := {};
      patentIndex := start;
      var j := 0;
      while j < perAgent && patentIndex < |v|
        invariant 0 <= j <= perAgent && patentIndex == start + j
        invariant initialSet == Block(v, start, patentIndex)
      {
        BlockGrows(v, start, patentIndex);
        initialSet := initialSet + {v[patentIndex]};
        patentIndex := patentIndex + 1;
        j := j + 1;
      }
    }

    /** The remaining patents go round-robin: position k to agent k % |agents|. */
    method DealRemainder(v: seq<string>, perAgent: nat, start: nat)
      requires Distinct(agents) && start == |agents| * perAgent <= |v|
      requires |v| > start ==> |agents| > 0
      requires forall b :: 0 <= b < |agents| ==>
        agents[b].currentPatents == DealtBefore(v, start, b, |agents|, perAgent) && agents[b].Valid()
      modifies agents`currentPatents, agents`targetCompleted
      ensures forall b :: 0 <= b < |agents| ==>
        agents[b].currentPatents == Dealt(v, b, |agents|, perAgent) && agents[b].Valid()
    {
      var patentIndex := start;
      while patentIndex < |v|
        invariant start <= patentIndex <= |v|
        invariant forall b :: 0 <= b < |agents| ==>
          agents[b].currentPatents == DealtBefore(v, patentIndex, b, |agents|, perAgent) && agents[b].Valid()
      {
        var agentIndex := patentIndex % |agents|;
        DealTo(v, patentIndex, agentIndex, |agents|, perAgent);
        agents[agentIndex].AddInitialPatents({v[patentIndex]});
        patentIndex := patentIndex + 1;
      }
    }

    /** True exactly when every agent's completion flag is set. */
    method IsSimulationComplete() returns (complete: bool)
      ensures complete <==> forall k :: 0 <= k < |agents| ==> agents[k].targetCompleted
    {
      var k := 0;
      while k < |agents|
        invariant 0 <= k <= |agents|
        invariant forall l :: 0 <= l < k ==> agents[l].targetCompleted
      {
        if !agents[k].IsTargetCompleted() {
          return false;
        }
        k := k + 1;
      }
      return true;
    }

    /**
     * The negotiation. Each round first checks for completion and the
     * iteration safeguard, then shuffles the agents by the round's
     * permutation and lets every unfinished agent try to exchange with
     * every other agent. The agents end as SimulationFrom says; the ghost
     * results are its number of rounds and its log of exchange results.
     */
    method RunSimulation(shuffles: seq<seq<nat>>) returns (warning: bool, ghost rounds: nat, ghost log: seq<bool>)
      requires Valid()
      requires |shuffles| >= MaxIterations
      requires forall r :: 0 <= r < |shuffles| ==> IsPermutation(shuffles[r], |agents|)
      modifies this`agents, this`totalCommunicationRounds, set x | x in agents
      ensures Valid() && |agents| == old(|agents|)
      ensures forall x :: x in agents <==> x in old(agents)
      ensures HeldBy(agents) == old(HeldBy(agents))
      ensures var sim := SimulationFrom(old(Snapshot(agents)), shuffles, 0, []);
        Snapshot(agents) == sim.state && rounds == sim.rounds && log == sim.log
      ensures rounds <= MaxIterations
      ensures warning <==> rounds == MaxIterations
      ensures rounds < MaxIterations ==> AllComplete()
      ensures totalCommunicationRounds == Successes(log)
    {
      totalCommunicationRounds := 0;
      var left;
      left, rounds, log := PlayRounds(shuffles);
      warning := left <= 0;
      if rounds < MaxIterations {
        assert AllDone(Snapshot(agents));
      }
    }

    /**
     * The loop of runSimulation: while some agent is incomplete and the
     * safeguard counter, decremented on every test that reaches it, was
     * still positive, play one more round. Returns the counter as the loop
     * leaves it.
     */
    method PlayRounds(shuffles: seq<seq<nat>>) returns (left: int, ghost rounds: nat, ghost log: seq<bool>)
      requires Valid()
      requires |shuffles| >= MaxIterations
      requires forall r :: 0 <= r < |shuffles| ==> IsPermutation(shuffles[r], |agents|)
      modifies this`agents, this`totalCommunicationRounds, set x | x in agents
      ensures Valid() && |agents| == old(|agents|)
      ensures forall x :: x in agents <==> x in old(agents)
      ensures HeldBy(agents) == old(HeldBy(agents))
      ensures SimulationFrom(old(Snapshot(agents)), shuffles, 0, []) == Simulation(Snapshot(agents), rounds, log)
      ensures left <= 0 <==> rounds == MaxIterations
      ensures totalCommunicationRounds == old(totalCommunicationRounds) + Successes(log)
    {
      ghost var sim := SimulationFrom(Snapshot(agents), shuffles, 0, []);
      left := MaxIterations;
      rounds := 0;
      log := [];
      while true
        invariant Valid() && |agents| == old(|agents|)
        invariant forall x :: x in agents <==> x in old(agents)
        invariant HeldBy(agents) == old(HeldBy(agents))
        invariant 0 <= rounds <= MaxIterations && rounds == MaxIterations - left
        invariant SimulationFrom(Snapshot(agents), shuffles, rounds, log) == sim
        invariant totalCommunicationRounds == old(totalCommunicationRounds) + Successes(log)
        decreases left
      {
        ghost var now := Snapshot(agents);
        var complete := IsSimulationComplete();
        assert complete <==> AllDone(now);
        if complete {
          break;
        }
        var r := MaxIterations - left;
        var proceed := left > 0;
        left := left - 1;
        if !proceed {
          break;
        }
        log := PlayRound(shuffles, r, log);
        rounds := r + 1;
      }
    }

    /**
     * The body of one round of the negotiation loop: shuffle by the round's
     * permutation, then play the round. The ghost argument and result are
     * the exchange results logged before and after it.
     */
    method PlayRound(shuffles: seq<seq<nat>>, r: nat, ghost done: seq<bool>) returns (ghost done': seq<bool>)
      requires Valid()
      requires r < MaxIterations <= |shuffles|
      requires forall k :: 0 <= k < |shuffles| ==> IsPermutation(shuffles[k], |agents|)
      requires !AllDone(Snapshot(agents))
      modifies this`agents, set x | x in agents, this`totalCommunicationRounds
      ensures Valid() && |agents| == old(|agents|)
      ensures forall x :: x in agents <==> x in old(agents)
      ensures HeldBy(agents) == old(HeldBy(agents))
      ensures SimulationFrom(Snapshot(agents), shuffles, r + 1, done') == SimulationFrom(old(Snapshot(agents)), shuffles, r, done)
      ensures totalCommunicationRounds == old(totalCommunicationRounds) + Successes(done') - Successes(done)
    {
      ShuffleAgents(shuffles[r]);
      done' := Round(done);
    }

    /** shuffle(agents.begin(), agents.end(), rng), with the random choices given as the permutation order. */
    method ShuffleAgents(order: seq<nat>)
      requires Valid() && IsPermutation(order, |agents|)
      modifies this`agents
      ensures Valid() && |agents| == old(|agents|)
      ensures forall x :: x in agents <==> x in old(agents)
      ensures HeldBy(agents) == old(HeldBy(agents))
      ensures Snapshot(agents) == Permute(old(Snapshot(agents)), order)
    {
      PermuteKeeps(agents, order);
      ghost var before := agents;
      agents := Permute(agents, order);
      HeldBySameMembers(before, agents);
    }

    /**
     * One round: every agent whose target is not complete negotiates with
     * every other agent, as RoundFrom says, and the results are appended to
     * the log done; the counter rises by the successful exchanges.
     */
    method Round(ghost done: seq<bool>) returns (ghost done': seq<bool>)
      requires Valid()
      modifies agents, this`totalCommunicationRounds
      ensures Valid() && HeldBy(agents) == old(HeldBy(agents))
      ensures RoundFrom(old(Snapshot(agents)), 0, done) == Trace(Snapshot(agents), done')
      ensures totalCommunicationRounds == old(totalCommunicationRounds) + Successes(done') - Successes(done)
    {
      ghost var whole := RoundFrom(Snapshot(agents), 0, done);
      done' := done;
      var i := 0;
      while i < |agents|
        invariant 0 <= i <= |agents|
        invariant Valid() && HeldBy(agents) == old(HeldBy(agents))
        invariant RoundFrom(Snapshot(agents), i, done') == whole
        invariant totalCommunicationRounds == old(totalCommunicationRounds) + Successes(done') - Successes(done)
      {
        if !agents[i].IsTargetCompleted() {
          done' := Negotiate(i, done');
        }
        i := i + 1;
      }
    }

    /**
     * agents[i].exchangeWith(agents[j]): the two agents change as Exchange
     * says and the result is whether it transferred anything.
     */
    method Attempt(i: nat, j: nat) returns (exchanged: bool)
      requires Valid() && i < |agents| && j < |agents| && i != j
      modifies agents[i], agents[j]
      ensures Valid() && HeldBy(agents) == old(HeldBy(agents))
      ensures var e := Exchange(old(Snapshot(agents))[i], old(Snapshot(agents))[j]);
        exchanged == e.ok && Snapshot(agents) == old(Snapshot(agents))[i := e.first][j := e.second]
    {
      ghost var s := Snapshot(agents);
      ghost var e := Exchange(s[i], s[j]);
      exchanged := agents[i].ExchangeWith(agents[j]);
      forall x | x in old(HeldBy(agents)) ensures x in HeldBy(agents) {
        var k :| 0 <= k < |agents| && x in old(agents[k].currentPatents);
        if k == i || k == j {
          assert x in agents[i].currentPatents + agents[j].currentPatents;
        }
      }
      forall x | x in HeldBy(agents) ensures x in old(HeldBy(agents)) {
        var k :| 0 <= k < |agents| && x in agents[k].currentPatents;
        if k == i || k == j {
          assert x in old(agents[i].currentPatents + agents[j].currentPatents);
        }
      }
      forall k | 0 <= k < |agents| ensures Snapshot(agents)[k] == s[i := e.first][j := e.second][k] {
        if k != i && k != j {
          assert agents[k] != agents[i] && agents[k] != agents[j];
        }
      }
    }

    /**
     * Agent i tries to exchange with every other agent in turn, as
     * NegotiationFrom says, and the results are appended to the log done;
     * the counter rises by the successful exchanges.
     */
    method Negotiate(i: nat, ghost done: seq<bool>) returns (ghost done': seq<bool>)
      requires Valid() && i < |agents|
      modifies agents, this`totalCommunicationRounds
      ensures Valid() && HeldBy(agents) == old(HeldBy(agents))
      ensures NegotiationFrom(old(Snapshot(agents)), i, 0, done) == Trace(Snapshot(agents), done')
      ensures totalCommunicationRounds == old(totalCommunicationRounds) + Successes(done') - Successes(done)
    {
      ghost var whole := NegotiationFrom(Snapshot(agents), i, 0, done);
      done' := done;
      var j := 0;
      while j < |agents|
        invariant 0 <= j <= |agents|
        invariant Valid() && HeldBy(agents) == old(HeldBy(agents))
        invariant NegotiationFrom(Snapshot(agents), i, j, done') == whole
        invariant totalCommunicationRounds == old(totalCommunicationRounds) + Successes(done') - Successes(done)
      {
        done' := Turn(i, j, done');
        j := j + 1;
      }
    }

    /**
     * One pass of the inner loop: agent i tries agent j unless they are the
     * same, and a successful exchange is counted. The ghost argument and
     * result are the exchange results logged before and after it.
     */
    method Turn(i: nat, j: nat, ghost done: seq<bool>) returns (ghost done': seq<bool>)
      requires Valid() && i < |agents| && j < |agents|
      modifies agents[i], agents[j], this`totalCommunicationRounds
      ensures Valid() && HeldBy(agents) == old(HeldBy(agents))
      ensures NegotiationFrom(Snapshot(agents), i, j + 1, done') == NegotiationFrom(old(Snapshot(agents)), i, j, done)
      ensures totalCommunicationRounds == old(totalCommunicationRounds) + Successes(done') - Successes(done)
    {
      done' := done;
      if i != j {
        var exchanged := Attempt(i, j);
        done' := done + [exchanged];
        assert done'[..|done|] == done;
        if exchanged {
          totalCommunicationRounds := totalCommunicationRounds + 1;
        }
      }
    }
  }
}
