/**
 * An agent of the patent-exchange negotiation (LW_A_2): a fixed target set
 * of patents, the set it currently holds, a completion flag and two
 * counters, and the three-way exchange rule between two agents.
 */
module PatentAgent {
  import opened PatentOrder

  /** What one call of exchangeWith does, chosen from the two agents' sets. */
  datatype Outcome =
    | NoExchange
      /** The completed caller gives patent p to the other agent and keeps it. */
    | GiftToOther(p: string)
      /** The completed other agent gives patent p to the caller and keeps it. */
    | GiftToThis(p: string)
      /** The caller receives p from the other agent and hands over q. */
    | Swap(p: string, q: string)

  /**
   * The exchange rule. A completed caller gives the first patent the other
   * agent lacks and the caller holds. Otherwise the caller looks for the
   * first patent it lacks and the other holds: it gets that patent for
   * free from a completed other agent, or swaps it for the first patent the
   * other lacks and the caller holds; with no such patent, nothing happens.
   */
  ghost function Rule(thisCompleted: bool, thisTarget: set<string>, thisCurrent: set<string>,
                      otherCompleted: bool, otherTarget: set<string>, otherCurrent: set<string>): (r: Outcome)
    ensures r.GiftToOther? ==> thisCompleted && IsLeast(r.p, (otherTarget - otherCurrent) * thisCurrent)
    ensures r.GiftToThis? ==> !thisCompleted && otherCompleted && IsLeast(r.p, (thisTarget - thisCurrent) * otherCurrent)
    ensures r.Swap? ==>
      && !thisCompleted && !otherCompleted
      && IsLeast(r.p, (thisTarget - thisCurrent) * otherCurrent)
      && IsLeast(r.q, (otherTarget - otherCurrent) * thisCurrent)
  {
    var give := (otherTarget - otherCurrent) * thisCurrent;
    var want := (thisTarget - thisCurrent) * otherCurrent;
    if thisCompleted then
      if give == {} then NoExchange else GiftToOther(Least(give))
    else if want == {} then NoExchange
    else if otherCompleted then GiftToThis(Least(want))
    else if give == {} then NoExchange
    else Swap(Least(want), Least(give))
  }

  /**
   * Every transfer the rule chooses moves a patent the receiver lacks and
   * needs from an agent that holds it; a swap moves two different patents.
   */
  lemma RuleTransfersNeededPatents(thisCompleted: bool, thisTarget: set<string>, thisCurrent: set<string>,
                                   otherCompleted: bool, otherTarget: set<string>, otherCurrent: set<string>)
    ensures var o := Rule(thisCompleted, thisTarget, thisCurrent, otherCompleted, otherTarget, otherCurrent);
      && (o.GiftToOther? ==> thisCompleted && o.p in thisCurrent && o.p in otherTarget - otherCurrent)
      && (o.GiftToThis? ==> !thisCompleted && otherCompleted && o.p in otherCurrent && o.p in thisTarget - thisCurrent)
      && (o.Swap? ==>
            && !thisCompleted && !otherCompleted
            && o.p in otherCurrent && o.p in thisTarget - thisCurrent
            && o.q in thisCurrent && o.q in otherTarget - otherCurrent
            && o.p != o.q)
      && (o.NoExchange? <==>
            if thisCompleted then (otherTarget - otherCurrent) * thisCurrent == {}
            else (thisTarget - thisCurrent) * otherCurrent == {} ||
                 (!otherCompleted && (otherTarget - otherCurrent) * thisCurrent == {}))
  {
  }

  /** A swap leaves both agents holding as many patents as before, and the two together hold the same patents. */
  lemma SwapConserves(a: set<string>, b: set<string>, p: string, q: string)
    requires p in b && p !in a && q in a && q !in b
    ensures |a + {p} - {q}| == |a| && |b + {q} - {p}| == |b|
    ensures (a + {p} - {q}) + (b + {q} - {p}) == a + b
    ensures (a + {p} - {q}) * (b + {q} - {p}) == a * b
  {
    assert a + {p} - {q} == (a - {q}) + {p};
    assert b + {q} - {p} == (b - {p}) + {q};
  }

  /** An agent as the exchange rule sees it: its target and the patents it holds. */
  datatype Holding = Holding(target: set<string>, current: set<string>)

  /** The agent holds its whole target. */
  predicate Complete(h: Holding)
  {
    h.target <= h.current
  }

  /** Both agents after one exchange, and whether a transfer took place. */
  datatype Exchanged = Exchanged(first: Holding, second: Holding, ok: bool)

  /**
   * One exchange between agents x (the caller) and y, with completion flags
   * that agree with the sets: the transfer Rule chooses, applied. Targets
   * stay, and the two agents together keep holding the same patents.
   */
  ghost function Exchange(x: Holding, y: Holding): (r: Exchanged)
    ensures r.first.target == x.target && r.second.target == y.target
    ensures r.first.current + r.second.current == x.current + y.current
    ensures r.ok <==> !Rule(Complete(x), x.target, x.current, Complete(y), y.target, y.current).NoExchange?
  {
    RuleTransfersNeededPatents(Complete(x), x.target, x.current, Complete(y), y.target, y.current);
    match Rule(Complete(x), x.target, x.current, Complete(y), y.target, y.current)
    case NoExchange => Exchanged(x, y, false)
    case GiftToOther(p) => Exchanged(x, y.(current := y.current + {p}), true)
    case GiftToThis(p) => Exchanged(x.(current := x.current + {p}), y, true)
    case Swap(p, q) =>
      Exchanged(x.(current := x.current + {p} - {q}), y.(current := y.current + {q} - {p}), true)
  }

  class Agent {
    const id: int
    const targetPatents: set<string>
    var currentPatents: set<string>
    var communicationRounds: int
    var successfulExchanges: int
    var targetCompleted: bool

    /** The completion flag agrees with the sets. */
    ghost predicate Valid()
      reads this
    {
      targetCompleted == (targetPatents <= currentPatents)
    }

    /** A new agent holds nothing and is not yet marked complete, even for an empty target. */
    constructor (agentId: int, target: set<string>)
      ensures id == agentId && targetPatents == target && currentPatents == {}
      ensures communicationRounds == 0 && successfulExchanges == 0 && !targetCompleted
    {
      id := agentId;
      targetPatents := target;
      currentPatents := {};
      communicationRounds := 0;
      successfulExchanges := 0;
      targetCompleted := false;
    }

    /** Adds the given patents to the holdings and recomputes the completion flag. */
    method AddInitialPatents(initialPatents: set<string>)
      modifies this`currentPatents, this`targetCompleted
      ensures currentPatents == old(currentPatents) + initialPatents
      ensures Valid()
    {
      currentPatents := currentPatents + initialPatents;
      CheckTargetCompletion();
    }

    /** Walks the target in ascending order and stops at the first patent not held. */
    method CheckTargetCompletion()
      modifies this`targetCompleted
      ensures Valid()
    {
      var targets := Ascending(targetPatents);
      targetCompleted := true;
      var i := 0;
      while i < |targets|
        invariant 0 <= i <= |targets|
        invariant targetCompleted
        invariant forall k :: 0 <= k < i ==> targets[k] in currentPatents
      {
        if targets[i] !in currentPatents {
          assert targets[i] in targetPatents;
          targetCompleted := false;
          break;
        }
        i := i + 1;
      }
    }

    /** The target patents not held, each once, in ascending order. */
    method GetNeededPatents() returns (needed: seq<string>)
      ensures StrictlyAscending(needed)
      ensures forall x :: x in needed <==> x in targetPatents - currentPatents
    {
      var targets := Ascending(targetPatents);
      needed := [];
      var i := 0;
      while i < |targets|
        invariant 0 <= i <= |targets|
        invariant StrictlyAscending(needed)
        invariant forall x :: x in needed <==> x in targets[..i] && x !in currentPatents
        invariant forall a, k :: 0 <= a < |needed| && i <= k < |targets| ==> Below(needed[a], targets[k])
      {
        if targets[i] !in currentPatents {
          needed := needed + [targets[i]];
        }
        assert targets[..i + 1] == targets[..i] + [targets[i]];
        i := i + 1;
      }
      assert targets[..i] == targets;
    }

    /**
     * One negotiation with another agent. Both agents' round counters rise
     * by one; what else changes is the outcome Rule chooses.
     */
    method ExchangeWith(other: Agent) returns (ok: bool)
      requires this != other
      modifies this, other
      ensures communicationRounds == old(communicationRounds) + 1
      ensures other.communicationRounds == old(other.communicationRounds) + 1
      ensures old(Valid()) && old(other.Valid()) ==> Valid() && other.Valid()
      ensures currentPatents + other.currentPatents == old(currentPatents + other.currentPatents)
      ensures var o := old(Rule(targetCompleted, targetPatents, currentPatents,
                                other.targetCompleted, other.targetPatents, other.currentPatents));
        && (ok <==> !o.NoExchange?)
        && (o.NoExchange? ==>
              && currentPatents == old(currentPatents) && other.currentPatents == old(other.currentPatents)
              && targetCompleted == old(targetCompleted) && other.targetCompleted == old(other.targetCompleted)
              && successfulExchanges == old(successfulExchanges)
              && other.successfulExchanges == old(other.successfulExchanges))
        && (o.GiftToOther? ==>
              && currentPatents == old(currentPatents) && other.currentPatents == old(other.currentPatents) + {o.p}
              && targetCompleted == old(targetCompleted) && other.Valid()
              && successfulExchanges == old(successfulExchanges)
              && other.successfulExchanges == old(other.successfulExchanges))
        && (o.GiftToThis? ==>
              && currentPatents == old(currentPatents) + {o.p} && other.currentPatents == old(other.currentPatents)
              && Valid() && other.targetCompleted == old(other.targetCompleted)
              && successfulExchanges == old(successfulExchanges) + 1
              && other.successfulExchanges == old(other.successfulExchanges))
        && (o.Swap? ==>
              && currentPatents == old(currentPatents) + {o.p} - {o.q}
              && other.currentPatents == old(other.currentPatents) + {o.q} - {o.p}
              && Valid() && other.Valid()
              && successfulExchanges == old(successfulExchanges) + 1
              && other.successfulExchanges == old(other.successfulExchanges) + 1)
    {
      communicationRounds := communicationRounds + 1;
      other.communicationRounds := other.communicationRounds + 1;

      if targetCompleted {
        var otherNeeded := other.GetNeededPatents();
        var i := 0;
        while i < |otherNeeded|
          invariant 0 <= i <= |otherNeeded|
          invariant forall k :: 0 <= k < i ==> otherNeeded[k] !in currentPatents
        {
          var patent := otherNeeded[i];
          if patent in currentPatents {
            FirstMatchIsLeast(otherNeeded, other.targetPatents - other.currentPatents, currentPatents, i);
            other.currentPatents := other.currentPatents + {patent};
            other.CheckTargetCompletion();
            return true;
          }
          i := i + 1;
        }
        NoMatchDisjoint(otherNeeded, other.targetPatents - other.currentPatents, currentPatents);
        return false;
      }

      var needed := GetNeededPatents();
      ghost var blocked := false;
      var i := 0;
      while i < |needed|
        invariant 0 <= i <= |needed|
        invariant forall k :: 0 <= k < i ==> needed[k] !in other.currentPatents
      {
        var patent := needed[i];
        if patent in other.currentPatents {
          FirstMatchIsLeast(needed, targetPatents - currentPatents, other.currentPatents, i);
          if other.targetCompleted {
            currentPatents := currentPatents + {patent};
            CheckTargetCompletion();
            successfulExchanges := successfulExchanges + 1;
            return true;
          }
          var otherNeeded := other.GetNeededPatents();
          var j := 0;
          while j < |otherNeeded|
            invariant 0 <= j <= |otherNeeded|
            invariant forall k :: 0 <= k < j ==> otherNeeded[k] !in currentPatents
          {
            var otherPatent := otherNeeded[j];
            if otherPatent in currentPatents {
              FirstMatchIsLeast(otherNeeded, other.targetPatents - other.currentPatents, currentPatents, j);
              currentPatents := currentPatents + {patent};
              currentPatents := currentPatents - {otherPatent};
              other.currentPatents := other.currentPatents + {otherPatent};
              other.currentPatents := other.currentPatents - {patent};
              CheckTargetCompletion();
              other.CheckTargetCompletion();
              successfulExchanges := successfulExchanges + 1;
              other.successfulExchanges := other.successfulExchanges + 1;
              return true;
            }
            j := j + 1;
          }
          NoMatchDisjoint(otherNeeded, other.targetPatents - other.currentPatents, currentPatents);
          blocked := true;
          break;
        }
        i := i + 1;
      }
      if !blocked {
        NoMatchDisjoint(needed, targetPatents - currentPatents, other.currentPatents);
      }
      return false;
    }

    function IsTargetCompleted(): bool reads this { targetCompleted }
  }
}
