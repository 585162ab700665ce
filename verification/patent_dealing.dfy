/**
 * The initial conditions of the patent-exchange negotiation (LW_A_2) on
 * values: the target sets, the pool of all patents, and how a shuffled
 * listing of the pool is dealt out, first in consecutive blocks and then
 * round-robin.
 */
module PatentDealing {
  import opened PatentIds

  /** The target set of agent a: its first `count` generated patent ids. */
  function TargetSet(a: nat, count: nat): set<string>
  {
    set j | 0 <= j < count :: PatentId(a, j)
  }

  /** The targets of agents 0 .. numAgents-1 together. */
  function TargetsUpTo(numAgents: nat, targetSize: nat): set<string>
  {
    set a, j | 0 <= a < numAgents && 0 <= j < targetSize :: PatentId(a, j)
  }

  /** Extra patents 0 .. count-1. */
  function ExtraSet(count: nat): set<string>
  {
    set k | 0 <= k < count :: ExtraId(k)
  }

  /** The number of extra patents: numAgents * targetSize / 2, rounded down. */
  function ExtraCount(numAgents: nat, targetSize: nat): nat
  {
    numAgents * targetSize / 2
  }

  /** Every patent in play: all targets plus the extras. */
  function AllPatents(numAgents: nat, targetSize: nat): set<string>
  {
    TargetsUpTo(numAgents, targetSize) + ExtraSet(ExtraCount(numAgents, targetSize))
  }

  /** Block size of the first dealing round: initialSetSize, or an even share when the pool is too small. */
  function PatentsPerAgent(total: nat, numAgents: nat, initialSetSize: nat): (r: nat)
    ensures r <= initialSetSize
    ensures numAgents * initialSetSize <= total ==> r == initialSetSize
  {
    if total < numAgents * initialSetSize then total / numAgents else initialSetSize
  }

  /**
   * Position k of the shuffled pool goes to agent a: the first numAgents
   * blocks of perAgent positions go to agents in order, the rest round-robin.
   */
  predicate OwnedBy(k: nat, a: nat, numAgents: nat, perAgent: nat)
    ensures OwnedBy(k, a, numAgents, perAgent) ==> a < numAgents
  {
    if k < numAgents * perAgent then a * perAgent <= k < a * perAgent + perAgent
    else numAgents > 0 && k % numAgents == a
  }

  /** The patents agent a has been dealt once the first `upTo` positions of v are handed out. */
  function DealtBefore(v: seq<string>, upTo: nat, a: nat, numAgents: nat, perAgent: nat): set<string>
  {
    set k | 0 <= k < upTo && k < |v| && OwnedBy(k, a, numAgents, perAgent) :: v[k]
  }

  /** The patents agent a is dealt from the whole listing v. */
  function Dealt(v: seq<string>, a: nat, numAgents: nat, perAgent: nat): set<string>
  {
    DealtBefore(v, |v|, a, numAgents, perAgent)
  }

  predicate Distinct<T(==)>(xs: seq<T>)
  {
    forall k, l :: 0 <= k < |xs| && 0 <= l < |xs| && k != l ==> xs[k] != xs[l]
  }

  /** perm lists each of 0 .. n-1 exactly once. */
  predicate IsPermutation(perm: seq<nat>, n: nat)
  {
    && |perm| == n
    && (forall k :: 0 <= k < n ==> perm[k] < n)
    && Distinct(perm)
    && (forall i :: 0 <= i < n ==> i in perm)
  }

  /** std::shuffle with its random choices given as the permutation order: position k receives xs[order[k]]. */
  function Permute<T>(xs: seq<T>, order: seq<nat>): (ys: seq<T>)
    requires forall k :: 0 <= k < |order| ==> order[k] < |xs|
    ensures |ys| == |order| && forall k :: 0 <= k < |order| ==> ys[k] == xs[order[k]]
  {
    seq(|order|, k requires 0 <= k < |order| => xs[order[k]])
  }

  /** Shuffling keeps the elements, and keeps them distinct. */
  lemma PermuteKeeps<T>(xs: seq<T>, order: seq<nat>)
    requires IsPermutation(order, |xs|)
    ensures |Permute(xs, order)| == |xs|
    ensures forall x :: x in Permute(xs, order) <==> x in xs
    ensures Distinct(xs) ==> Distinct(Permute(xs, order))
  {
    var ys := Permute(xs, order);
    forall x | x in xs ensures x in ys {
      var i :| 0 <= i < |xs| && xs[i] == x;
      assert i in order;
      var k :| 0 <= k < |order| && order[k] == i;
      assert ys[k] == x;
    }
  }

  lemma TargetSetStep(a: nat, j: nat)
    ensures TargetSet(a, j + 1) == TargetSet(a, j) + {PatentId(a, j)}
    ensures PatentId(a, j) !in TargetSet(a, j)
  {
    if PatentId(a, j) in TargetSet(a, j) {
      var j' :| 0 <= j' < j && PatentId(a, j') == PatentId(a, j);
      PatentIdInjective(a, j', a, j);
    }
  }

  /** Different agents' targets share no patent. */
  lemma TargetsDisjoint(a: nat, b: nat, count: nat)
    requires a != b
    ensures TargetSet(a, count) * TargetSet(b, count) == {}
  {
    forall x | x in TargetSet(a, count) ensures x !in TargetSet(b, count) {
      var j :| 0 <= j < count && x == PatentId(a, j);
      if x in TargetSet(b, count) {
        var k :| 0 <= k < count && x == PatentId(b, k);
        PatentIdInjective(a, j, b, k);
      }
    }
  }

  lemma TargetsStep(i: nat, targetSize: nat)
    ensures TargetsUpTo(i + 1, targetSize) == TargetsUpTo(i, targetSize) + TargetSet(i, targetSize)
    ensures TargetsUpTo(i, targetSize) * TargetSet(i, targetSize) == {}
  {
    forall x | x in TargetsUpTo(i, targetSize) ensures x !in TargetSet(i, targetSize) {
      var a, j :| 0 <= a < i && 0 <= j < targetSize && x == PatentId(a, j);
      if x in TargetSet(i, targetSize) {
        var k :| 0 <= k < targetSize && x == PatentId(i, k);
        PatentIdInjective(a, j, i, k);
      }
    }
    forall x | x in TargetsUpTo(i + 1, targetSize)
      ensures x in TargetsUpTo(i, targetSize) + TargetSet(i, targetSize)
    {
      var a, j :| 0 <= a < i + 1 && 0 <= j < targetSize && x == PatentId(a, j);
      if a < i {
        assert x in TargetsUpTo(i, targetSize);
      }
    }
  }

  lemma ExtraStep(k: nat, numAgents: nat, targetSize: nat)
    ensures ExtraSet(k + 1) == ExtraSet(k) + {ExtraId(k)}
    ensures ExtraId(k) !in TargetsUpTo(numAgents, targetSize) + ExtraSet(k)
  {
    if ExtraId(k) in ExtraSet(k) {
      var k' :| 0 <= k' < k && ExtraId(k') == ExtraId(k);
      ExtraIdInjective(k', k);
    }
    if ExtraId(k) in TargetsUpTo(numAgents, targetSize) {
      var a, j :| 0 <= a < numAgents && 0 <= j < targetSize && ExtraId(k) == PatentId(a, j);
      ExtraIsNotTarget(k, a, j);
    }
  }

  lemma MulMonotone(a: nat, b: nat, c: nat)
    requires a <= b
    ensures a * c <= b * c
  {
  }

  /** No position has two owners. */
  lemma OwnerUnique(k: nat, a: nat, b: nat, numAgents: nat, perAgent: nat)
    requires OwnedBy(k, a, numAgents, perAgent) && OwnedBy(k, b, numAgents, perAgent)
    ensures a == b
  {
    if k < numAgents * perAgent && a != b {
      if a < b {
        MulMonotone(a + 1, b, perAgent);
      } else {
        MulMonotone(b + 1, a, perAgent);
      }
    }
  }

  /** Every position of a pool that fills the first round has an owner among the agents. */
  lemma OwnerExists(k: nat, numAgents: nat, perAgent: nat)
    requires numAgents > 0
    ensures exists a :: 0 <= a < numAgents && OwnedBy(k, a, numAgents, perAgent)
  {
    if k < numAgents * perAgent {
      var a := k / perAgent;
      assert a * perAgent <= k < a * perAgent + perAgent;
      if a >= numAgents {
        MulMonotone(numAgents, a, perAgent);
      }
      assert OwnedBy(k, a, numAgents, perAgent);
    } else {
      assert OwnedBy(k, k % numAgents, numAgents, perAgent);
    }
  }

  /** Distinct agents are dealt disjoint sets from a listing without duplicates. */
  lemma DealtDisjoint(v: seq<string>, a: nat, b: nat, numAgents: nat, perAgent: nat)
    requires Distinct(v) && a != b
    ensures Dealt(v, a, numAgents, perAgent) * Dealt(v, b, numAgents, perAgent) == {}
  {
    forall x | x in Dealt(v, a, numAgents, perAgent) ensures x !in Dealt(v, b, numAgents, perAgent) {
      var k :| 0 <= k < |v| && OwnedBy(k, a, numAgents, perAgent) && v[k] == x;
      if x in Dealt(v, b, numAgents, perAgent) {
        var l :| 0 <= l < |v| && OwnedBy(l, b, numAgents, perAgent) && v[l] == x;
        if k == l {
          OwnerUnique(k, a, b, numAgents, perAgent);
        }
      }
    }
  }

  /** Every listed patent is dealt to some agent. */
  lemma DealtCovers(v: seq<string>, numAgents: nat, perAgent: nat, x: string)
    requires numAgents > 0 && x in v
    ensures exists a :: 0 <= a < numAgents && x in Dealt(v, a, numAgents, perAgent)
  {
    var k :| 0 <= k < |v| && v[k] == x;
    OwnerExists(k, numAgents, perAgent);
    var a :| 0 <= a < numAgents && OwnedBy(k, a, numAgents, perAgent);
    assert x in Dealt(v, a, numAgents, perAgent);
  }

  /** Handing out position idx adds v[idx] to its owner's patents and to no one else's. */
  lemma DealTo(v: seq<string>, idx: nat, a: nat, numAgents: nat, perAgent: nat)
    requires idx < |v| && OwnedBy(idx, a, numAgents, perAgent)
    ensures forall b :: DealtBefore(v, idx + 1, b, numAgents, perAgent)
                        == DealtBefore(v, idx, b, numAgents, perAgent) + (if b == a then {v[idx]} else {})
  {
    forall b ensures DealtBefore(v, idx + 1, b, numAgents, perAgent)
                     == DealtBefore(v, idx, b, numAgents, perAgent) + (if b == a then {v[idx]} else {})
    {
      if OwnedBy(idx, b, numAgents, perAgent) {
        OwnerUnique(idx, a, b, numAgents, perAgent);
      }
    }
  }

  /** Position j of agent a's block belongs to agent a. */
  lemma BlockOwned(a: nat, j: nat, numAgents: nat, perAgent: nat)
    requires a < numAgents && j < perAgent
    ensures OwnedBy(a * perAgent + j, a, numAgents, perAgent)
  {
    MulMonotone(a + 1, numAgents, perAgent);
  }

  /** Agent a's block ends within the first round. */
  lemma BlockEnds(a: nat, numAgents: nat, perAgent: nat)
    requires a < numAgents
    ensures a * perAgent + perAgent <= numAgents * perAgent
  {
    MulMonotone(a + 1, numAgents, perAgent);
  }

  /** Nothing is dealt before the first position. */
  lemma NothingDealt(v: seq<string>, numAgents: nat, perAgent: nat)
    ensures forall b :: DealtBefore(v, 0, b, numAgents, perAgent) == {}
  {
  }

  /** The first round fits in the pool. */
  lemma FirstRoundFits(total: nat, numAgents: nat, initialSetSize: nat)
    ensures numAgents * PatentsPerAgent(total, numAgents, initialSetSize) <= total
  {
    if total < numAgents * initialSetSize {
      var q := total / numAgents;
      assert q * numAgents + total % numAgents == total;
    }
  }

  /** Positions lo .. hi-1 of v. */
  function Block(v: seq<string>, lo: nat, hi: nat): set<string>
  {
    set k | lo <= k < hi && k < |v| :: v[k]
  }

  lemma BlockGrows(v: seq<string>, lo: nat, hi: nat)
    requires lo <= hi < |v|
    ensures Block(v, lo, hi + 1) == Block(v, lo, hi) + {v[hi]}
  {
  }

  /** Handing out agent a's whole block adds it to agent a's patents and to no one else's. */
  lemma BlockDealt(v: seq<string>, a: nat, numAgents: nat, perAgent: nat)
    requires a < numAgents && numAgents * perAgent <= |v|
    ensures forall b :: DealtBefore(v, a * perAgent + perAgent, b, numAgents, perAgent)
                        == DealtBefore(v, a * perAgent, b, numAgents, perAgent)
                           + (if b == a then Block(v, a * perAgent, a * perAgent + perAgent) else {})
  {
    BlockEnds(a, numAgents, perAgent);
    var j := 0;
    while j < perAgent
      invariant 0 <= j <= perAgent
      invariant forall b :: DealtBefore(v, a * perAgent + j, b, numAgents, perAgent)
                            == DealtBefore(v, a * perAgent, b, numAgents, perAgent)
                               + (if b == a then Block(v, a * perAgent, a * perAgent + j) else {})
    {
      BlockOwned(a, j, numAgents, perAgent);
      DealTo(v, a * perAgent + j, a, numAgents, perAgent);
      BlockGrows(v, a * perAgent, a * perAgent + j);
      j := j + 1;
    }
  }

  /**
   * Dealing a duplicate-free listing of all patents gives every patent to
   * exactly one agent: the agents' sets are pairwise disjoint and together
   * they are all patents.
   */
  lemma DealingPartitions(v: seq<string>, numAgents: nat, targetSize: nat, perAgent: nat)
    requires Distinct(v) && forall x :: x in v <==> x in AllPatents(numAgents, targetSize)
    requires v != [] ==> numAgents > 0
    ensures forall a, b :: 0 <= a < numAgents && 0 <= b < numAgents && a != b ==>
      && TargetSet(a, targetSize) * TargetSet(b, targetSize) == {}
      && Dealt(v, a, numAgents, perAgent) * Dealt(v, b, numAgents, perAgent) == {}
    ensures forall x :: x in AllPatents(numAgents, targetSize) <==>
      exists a :: 0 <= a < numAgents && x in Dealt(v, a, numAgents, perAgent)
  {
    forall a, b | 0 <= a < numAgents && 0 <= b < numAgents && a != b
      ensures TargetSet(a, targetSize) * TargetSet(b, targetSize) == {}
      ensures Dealt(v, a, numAgents, perAgent) * Dealt(v, b, numAgents, perAgent) == {}
    {
      TargetsDisjoint(a, b, targetSize);
      DealtDisjoint(v, a, b, numAgents, perAgent);
    }
    forall x | x in AllPatents(numAgents, targetSize)
      ensures exists a :: 0 <= a < numAgents && x in Dealt(v, a, numAgents, perAgent)
    {
      DealtCovers(v, numAgents, perAgent, x);
    }
  }
}
