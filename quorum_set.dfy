/** `SCPQuorumSet`: a threshold over flat validator keys and nested inner sets. */
module QuorumSets {
  import opened Keys

  datatype QuorumSet = QuorumSet(threshold: nat, validators: seq<PublicKey>, innerSets: seq<QuorumSet>)

  /** Number of direct children: validators plus inner sets. */
  function TopSize(q: QuorumSet): nat {
    |q.validators| + |q.innerSets|
  }

  /** Every leaf key of the tree, left to right: the node's validators, then
      the leaves of each inner set in order. */
  function Leaves(q: QuorumSet): seq<PublicKey>
    decreases q, 1
  {
    q.validators + LeavesOf(q.innerSets)
  }

  function LeavesOf(qs: seq<QuorumSet>): seq<PublicKey>
    decreases qs, 0
  {
    if qs == [] then [] else Leaves(qs[0]) + LeavesOf(qs[1..])
  }

  /** `LocalNode::forAllNodes` collected into a set: every key the tree mentions. */
  function AllNodes(q: QuorumSet): (nodes: set<PublicKey>)
    ensures forall k :: k in nodes <==> k in Leaves(q)
  {
    set k | k in Leaves(q)
  }

  lemma {:induction false} LeavesOfAppend(qs: seq<QuorumSet>, rs: seq<QuorumSet>)
    ensures LeavesOf(qs + rs) == LeavesOf(qs) + LeavesOf(rs)
    decreases qs
  {
    if qs == [] {
      assert qs + rs == rs;
    } else {
      assert (qs + rs)[1..] == qs[1..] + rs;
      LeavesOfAppend(qs[1..], rs);
    }
  }

  /** No path from the root passes through more than d nodes. */
  predicate DepthAtMost(q: QuorumSet, d: nat)
    decreases q
  {
    d >= 1 && forall i :: 0 <= i < |q.innerSets| ==> DepthAtMost(q.innerSets[i], d - 1)
  }

  /** Every node has at least one child and a threshold between 1 and its
      number of children. */
  predicate ThresholdsInRange(q: QuorumSet)
    decreases q
  {
    && TopSize(q) >= 1
    && 1 <= q.threshold <= TopSize(q)
    && forall i :: 0 <= i < |q.innerSets| ==> ThresholdsInRange(q.innerSets[i])
  }
}
