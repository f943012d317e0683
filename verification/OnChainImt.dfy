/**
 The on-chain incremental Merkle tree: one stored hash per level, an O(depth) insertion, and a ring
 buffer of recent roots.
 */
module OnChainImt {
  import opened Wrappers
  import opened PowersOfTwo
  import opened MerkleTree

  const ROOT_HISTORY_LENGTH: nat := 10
  const TREE_DEPTH_MAX: nat := 20

  /** The most recently updated left subtree of a level, after n > 0 insertions. */
  ghost function LatestLeft(n: nat, level: nat): nat
    requires n > 0
  {
    2 * Ancestor(n - 1, level + 1)
  }

  /** The buffer holds exactly the latest roots, in cyclic order ending at the last root's slot. */
  ghost predicate HoldsLatestRoots<F>(buffer: seq<F>, roots: seq<F>, last: nat, empty: F)
    ensures HoldsLatestRoots(buffer, roots, last, empty) ==> last < |buffer| == ROOT_HISTORY_LENGTH
  {
    && |buffer| == ROOT_HISTORY_LENGTH && roots != [] && last == (|roots| - 1) % ROOT_HISTORY_LENGTH
    && (forall t :: |roots| - ROOT_HISTORY_LENGTH <= t < |roots| && 0 <= t ==> buffer[t % ROOT_HISTORY_LENGTH] == roots[t])
    && (forall i :: |roots| <= i < ROOT_HISTORY_LENGTH ==> buffer[i] == empty)
  }

  lemma NextRoot<F>(buffer: seq<F>, roots: seq<F>, last: nat, empty: F, root: F)
    requires HoldsLatestRoots(buffer, roots, last, empty)
    ensures var next := (last + 1) % ROOT_HISTORY_LENGTH;
      HoldsLatestRoots(buffer[next := root], roots + [root], next, empty)
  {
  }

  class Imt<F(!new,==)> {
    const hasher: Hasher<F>
    const treeDepth: nat
    var root: F
    const frontiers: array<F>
    const zeroValues: seq<F>
    const rootsHistory: array<F>
    var lastRootIdx: nat
    var nextLeafIdx: nat
    ghost var leaves: seq<F>
    ghost var roots: seq<F>

    ghost predicate Valid()
      reads this, frontiers, rootsHistory
    {
      && 1 <= treeDepth <= TREE_DEPTH_MAX
      && frontiers.Length == treeDepth && rootsHistory.Length == ROOT_HISTORY_LENGTH && frontiers != rootsHistory
      && |zeroValues| == treeDepth && (forall k :: 0 <= k < treeDepth ==> zeroValues[k] == Zero(hasher, k))
      && nextLeafIdx == |leaves| <= Pow2(treeDepth)
      && root == Node(hasher, leaves, treeDepth, 0)
      && (forall k :: 0 <= k < treeDepth && leaves != [] ==> frontiers[k] == Node(hasher, leaves, k, LatestLeft(|leaves|, k)))
      && |roots| == |leaves| + 1 && (forall t :: 0 <= t < |roots| ==> roots[t] == Node(hasher, leaves[..t], treeDepth, 0))
      && HoldsLatestRoots(rootsHistory[..], roots, lastRootIdx, hasher.empty)
    }

    constructor (hasher: Hasher<F>, treeDepth: nat)
      requires 1 <= treeDepth <= TREE_DEPTH_MAX
      ensures Valid() && fresh(frontiers) && fresh(rootsHistory)
      ensures this.hasher == hasher && this.treeDepth == treeDepth && leaves == []
    {
      var zeros := GenerateZeroValuesForLevels(hasher, treeDepth);
      var empty := hasher.compress(zeros[treeDepth - 1], zeros[treeDepth - 1]);
      var history := new F[ROOT_HISTORY_LENGTH](_ => hasher.empty);
      history[0] := empty;
      this.hasher, this.treeDepth, zeroValues, root := hasher, treeDepth, zeros, empty;
      frontiers := new F[treeDepth](_ => hasher.empty);
      rootsHistory := history;
      lastRootIdx, nextLeafIdx := 0, 0;
      leaves, roots := [], [empty];
      new;
      ZeroSubtreeAtRoot(hasher, treeDepth);
    }

    /** Appends a leaf, or refuses when the tree is full and then changes nothing. */
    method Insert(leaf: F) returns (r: Result<(), string>)
      requires Valid()
      modifies this`root, this`nextLeafIdx, this`lastRootIdx, this`leaves, this`roots, frontiers, rootsHistory
      ensures Valid()
      ensures r.Err? <==> |old(leaves)| == Pow2(treeDepth)
      ensures r.Ok? ==> leaves == old(leaves) + [leaf] && roots == old(roots) + [root]
      ensures r.Err? ==> unchanged(this) && unchanged(frontiers) && unchanged(rootsHistory)
    {
      hide Node, Ancestor, Pow2, Zero, HoldsLatestRoots;
      if nextLeafIdx >= Pow2(treeDepth) {
        return Err("Tree is full");
      }
      var currentIdx, currentNodeValue := nextLeafIdx, leaf;
      ghost var n, all := nextLeafIdx, leaves + [leaf];
      ghost var before := frontiers[..];
      LeafLevel(hasher, leaves, leaf);
      for level := 0 to treeDepth
        modifies frontiers
        invariant currentIdx == Ancestor(n, level) && currentNodeValue == Node(hasher, all, level, currentIdx)
        invariant forall k :: 0 <= k < level ==> frontiers[k] == Node(hasher, all, k, LatestLeft(n + 1, k))
        invariant forall k :: level <= k < treeDepth ==> frontiers[k] == before[k]
      {
        LevelUp(hasher, leaves, leaf, level);
        var isLeftLeaf := currentIdx % 2 == 0;
        if isLeftLeaf {
          frontiers[level] := currentNodeValue;
          currentNodeValue := hasher.compress(currentNodeValue, zeroValues[level]);
        } else {
          currentNodeValue := hasher.compress(frontiers[level], currentNodeValue);
        }
        currentIdx := currentIdx / 2;
      }
      TopAncestor(n, treeDepth);
      root := currentNodeValue;
      nextLeafIdx := nextLeafIdx + 1;
      assert rootsHistory[..] == old(rootsHistory[..]);
      NextRoot(rootsHistory[..], roots, lastRootIdx, hasher.empty, root);
      IncLastRootIdx();
      rootsHistory[lastRootIdx] := root;
      leaves, roots := all, roots + [root];
      assert rootsHistory[..] == old(rootsHistory[..])[lastRootIdx := root];
      forall t | 0 <= t < |roots| ensures roots[t] == Node(hasher, leaves[..t], treeDepth, 0) {
        assert t < |roots| - 1 ==> leaves[..t] == old(leaves)[..t];
        assert t == |roots| - 1 ==> leaves[..t] == leaves;
      }
      return Ok(());
    }

    method IncLastRootIdx()
      requires lastRootIdx < ROOT_HISTORY_LENGTH
      modifies this`lastRootIdx
      ensures lastRootIdx == (old(lastRootIdx) + 1) % ROOT_HISTORY_LENGTH
    {
      if lastRootIdx == ROOT_HISTORY_LENGTH - 1 {
        lastRootIdx := 0;
      } else {
        lastRootIdx := lastRootIdx + 1;
      }
    }
  }

  lemma ZeroSubtreeAtRoot<F>(h: Hasher<F>, depth: nat)
    requires depth > 0
    ensures Node(h, [], depth, 0) == h.compress(Zero(h, depth - 1), Zero(h, depth - 1))
  {
    ZeroSubtree(h, [], depth, 0);
  }

  lemma LeafLevel<F>(h: Hasher<F>, leaves: seq<F>, leaf: F)
    ensures Ancestor(|leaves|, 0) == |leaves| && Node(h, leaves + [leaf], 0, |leaves|) == leaf
  {
  }

  /** One level of an insertion. On a left node the right sibling is still zero and the node becomes
      the latest left subtree; on a right node the latest left subtree is the sibling, untouched by
      the new leaf, and stays the latest. */
  lemma LevelUp<F>(h: Hasher<F>, leaves: seq<F>, leaf: F, level: nat)
    ensures var n, all := |leaves|, leaves + [leaf];
      var i := Ancestor(n, level);
      && Ancestor(n, level + 1) == i / 2
      && (i % 2 == 0 ==>
            && LatestLeft(n + 1, level) == i
            && Node(h, all, level + 1, i / 2) == h.compress(Node(h, all, level, i), Zero(h, level)))
      && (i % 2 == 1 ==>
            && n > 0 && LatestLeft(n + 1, level) == i - 1 == LatestLeft(n, level)
            && Node(h, leaves, level, i - 1) == Node(h, all, level, i - 1)
            && Node(h, all, level + 1, i / 2) == h.compress(Node(h, leaves, level, i - 1), Node(h, all, level, i)))
  {
    var n, all := |leaves|, leaves + [leaf];
    var i := Ancestor(n, level);
    NextAncestor(n, level);
    if i % 2 == 0 {
      ZeroSubtree(h, all, level, i + 1);
    } else {
      AppendFrame(h, leaves, leaf, level, i - 1);
      AncestorOfZero(level);
      PreviousAncestor(n, level);
      NextAncestor(n - 1, level);
    }
  }

  lemma {:induction false} AncestorOfZero(level: nat)
    ensures Ancestor(0, level) == 0
  {
    if level > 0 {
      AncestorOfZero(level - 1);
    }
  }

  /** Neighbouring positions have equal or neighbouring ancestors. */
  lemma {:induction false} PreviousAncestor(n: nat, level: nat)
    requires n > 0
    ensures Ancestor(n - 1, level) <= Ancestor(n, level) <= Ancestor(n - 1, level) + 1
  {
    if level > 0 {
      if (n - 1) / 2 != n / 2 {
        PreviousAncestor(n / 2, level - 1);
      }
    }
  }
}
