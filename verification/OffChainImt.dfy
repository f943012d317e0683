/**
 The off-chain Merkle tree: the whole tree in one array indexed from one, rebuilt level by level,
 and the inclusion proofs taken from it.
 */
module OffChainImt {
  import opened Wrappers
  import opened PowersOfTwo
  import opened MerkleTree
  import opened OnChainImt

  // ----- array indices -----

  /** The level of an array index, leaves being level zero. */
  function CalculateLevel(treeDepth: nat, i: nat): (level: nat)
    requires 1 <= i < 2 * Pow2(treeDepth)
    ensures level <= treeDepth && Pow2(treeDepth - level) <= i < 2 * Pow2(treeDepth - level)
  {
    Ilog2Bound(i, treeDepth);
    treeDepth - Ilog2(i)
  }

  /** Going up from a leaf's array index walks the ancestors of its position. */
  lemma {:induction false} HeapAncestor(depth: nat, pos: nat, k: nat)
    requires pos < Pow2(depth) && k <= depth
    ensures Ancestor(pos, k) < Pow2(depth - k) && Ancestor(Pow2(depth) + pos, k) == Pow2(depth - k) + Ancestor(pos, k)
  {
    if k > 0 {
      HeapAncestor(depth - 1, pos / 2, k - 1);
      assert (Pow2(depth) + pos) / 2 == Pow2(depth - 1) + pos / 2;
    }
  }

  // ----- what a rebuild leaves in the array -----

  /** The value at array index i after a rebuild: a child holding the empty marker is read as the
      zero value of its level. */
  ghost function Stored<F(!new)>(h: Hasher<F>, leaves: seq<F>, depth: nat, i: nat): F
    requires 1 <= i < 2 * Pow2(depth)
    decreases 2 * Pow2(depth) - i, 0
  {
    if i >= Pow2(depth) then Leaf(h, leaves, i - Pow2(depth))
    else h.compress(Read(h, leaves, depth, 2 * i), Read(h, leaves, depth, 2 * i + 1))
  }

  ghost function Read<F(!new)>(h: Hasher<F>, leaves: seq<F>, depth: nat, i: nat): F
    requires 1 <= i < 2 * Pow2(depth)
    decreases 2 * Pow2(depth) - i, 1
  {
    var v := Stored(h, leaves, depth, i);
    if v == h.empty then Zero(h, CalculateLevel(depth, i)) else v
  }

  /** The hash never produces the marker of an unset node. */
  ghost predicate SentinelFree<F(!new)>(h: Hasher<F>) {
    forall a, b :: h.compress(a, b) != h.empty
  }

  ghost predicate Insertable<F(!new)>(h: Hasher<F>, leaves: seq<F>) {
    forall i :: 0 <= i < |leaves| ==> leaves[i] != h.empty && leaves[i] != h.z0
  }

  /** No inner node of the tree equals the marker, unless the zero value of its level does too. */
  ghost predicate MarkerHarmless<F(!new)>(h: Hasher<F>, leaves: seq<F>, depth: nat) {
    forall k: nat, i: nat :: 1 <= k < depth && i < Pow2(depth - k) && Node(h, leaves, k, i) == h.empty ==> Zero(h, k) == h.empty
  }

  lemma IndexOfNode(depth: nat, a: nat, i: nat)
    requires a <= depth && i < Pow2(a)
    ensures (a < depth ==> 2 * Pow2(a) <= Pow2(depth)) && Pow2(a) <= Pow2(a) + i < 2 * Pow2(a) && Pow2(a) + i < 2 * Pow2(depth)
  {
    hide Pow2;
    if a < depth {
      Pow2Grows(a, depth);
    }
  }

  lemma LevelOf(depth: nat, a: nat, n: nat)
    requires a <= depth && Pow2(a) <= n < 2 * Pow2(a) && 1 <= n < 2 * Pow2(depth)
    ensures CalculateLevel(depth, n) == depth - a
  {
    Ilog2Unique(n, a);
  }

  lemma HarmlessAt<F(!new)>(h: Hasher<F>, leaves: seq<F>, depth: nat, k: nat, i: nat)
    requires MarkerHarmless(h, leaves, depth) && 1 <= k < depth && i < Pow2(depth - k)
    ensures Node(h, leaves, k, i) == h.empty ==> Zero(h, k) == h.empty
  {
  }

  lemma LeafIsNotMarker<F(!new)>(h: Hasher<F>, leaves: seq<F>, i: nat)
    requires h.Valid() && Insertable(h, leaves)
    ensures Leaf(h, leaves, i) != h.empty
  {
  }

  /** Where the marker is harmless the array holds the tree: index `2^a + i` is node i of level `depth - a`. */
  lemma {:induction false} StoredIsNode<F(!new)>(h: Hasher<F>, leaves: seq<F>, depth: nat, a: nat, i: nat)
    requires h.Valid() && MarkerHarmless(h, leaves, depth) && Insertable(h, leaves) && a <= depth && i < Pow2(a)
    ensures (a < depth ==> 2 * Pow2(a) <= Pow2(depth)) && Pow2(a) + i < 2 * Pow2(depth)
    ensures Stored(h, leaves, depth, Pow2(a) + i) == Node(h, leaves, depth - a, i)
    ensures a >= 1 ==> Read(h, leaves, depth, Pow2(a) + i) == Node(h, leaves, depth - a, i)
    decreases depth - a
  {
    hide Ilog2, Zero, MarkerHarmless, Leaf, Insertable, CalculateLevel;
    IndexOfNode(depth, a, i);
    if a == depth {
      LeafIsNotMarker(h, leaves, i);
    } else {
      if a >= 1 {
        HarmlessAt(h, leaves, depth, depth - a, i);
        LevelOf(depth, a, Pow2(a) + i);
      }
      assert Pow2(a + 1) == 2 * Pow2(a);
      StoredIsNode(h, leaves, depth, a + 1, 2 * i);
      StoredIsNode(h, leaves, depth, a + 1, 2 * i + 1);
    }
  }

  /** Reading the array at node i of level k gives that node. */
  ghost predicate ReadsNode<F(!new)>(h: Hasher<F>, leaves: seq<F>, depth: nat, k: nat, i: nat)
    requires k < depth && i < Pow2(depth - k)
  {
    Pow2(depth - k) + i < 2 * Pow2(depth) && Read(h, leaves, depth, Pow2(depth - k) + i) == Node(h, leaves, k, i)
  }

  /** Reading the array below its root gives the nodes of the tree. */
  ghost predicate ReadsTheTree<F(!new)>(h: Hasher<F>, leaves: seq<F>, depth: nat) {
    forall k: nat, i: nat :: k < depth && i < Pow2(depth - k) ==> ReadsNode(h, leaves, depth, k, i)
  }

  /** The marker test of the array is right exactly where the marker is harmless. */
  lemma ArrayIsTreeIff<F(!new)>(h: Hasher<F>, leaves: seq<F>, depth: nat)
    requires h.Valid() && Insertable(h, leaves)
    ensures ReadsTheTree(h, leaves, depth) <==> MarkerHarmless(h, leaves, depth)
  {
    hide MarkerHarmless, ReadsTheTree;
    if MarkerHarmless(h, leaves, depth) {
      HarmlessReads(h, leaves, depth);
    }
    if ReadsTheTree(h, leaves, depth) {
      ReadsHarmlessly(h, leaves, depth);
    }
  }

  lemma HarmlessReads<F(!new)>(h: Hasher<F>, leaves: seq<F>, depth: nat)
    requires h.Valid() && Insertable(h, leaves) && MarkerHarmless(h, leaves, depth)
    ensures ReadsTheTree(h, leaves, depth)
  {
    hide Ilog2, Pow2, Node, Zero, MarkerHarmless, Read;
    forall k: nat, i: nat | k < depth && i < Pow2(depth - k) ensures ReadsNode(h, leaves, depth, k, i) {
      StoredIsNode(h, leaves, depth, depth - k, i);
    }
  }

  lemma ReadsHarmlessly<F(!new)>(h: Hasher<F>, leaves: seq<F>, depth: nat)
    requires ReadsTheTree(h, leaves, depth)
    ensures MarkerHarmless(h, leaves, depth)
  {
    hide Ilog2, Pow2, Node, Zero, CalculateLevel;
    forall k: nat, i: nat | 1 <= k < depth && i < Pow2(depth - k) && Node(h, leaves, k, i) == h.empty
      ensures Zero(h, k) == h.empty
    {
      IndexOfNode(depth, depth - k, i);
      LevelOf(depth, depth - k, Pow2(depth - k) + i);
      assert ReadsNode(h, leaves, depth, k, i);
    }
  }

  /** The root a rebuild computes. */
  ghost function RebuiltRoot<F(!new)>(h: Hasher<F>, leaves: seq<F>, depth: nat): F {
    Stored(h, leaves, depth, 1)
  }

  lemma RebuiltRootIsRoot<F(!new)>(h: Hasher<F>, leaves: seq<F>, depth: nat)
    requires h.Valid() && MarkerHarmless(h, leaves, depth) && Insertable(h, leaves)
    ensures RebuiltRoot(h, leaves, depth) == Node(h, leaves, depth, 0)
  {
    StoredIsNode(h, leaves, depth, 0, 0);
  }

  /** A hash that never produces the marker is harmless for every tree. */
  lemma SentinelFreeIsHarmless<F(!new)>(h: Hasher<F>, leaves: seq<F>, depth: nat)
    requires SentinelFree(h)
    ensures MarkerHarmless(h, leaves, depth)
  {
    forall k: nat, i: nat | 1 <= k < depth && i < Pow2(depth - k) ensures Node(h, leaves, k, i) != h.empty {
      assert Node(h, leaves, k, i) == h.compress(Node(h, leaves, k - 1, 2 * i), Node(h, leaves, k - 1, 2 * i + 1));
    }
  }

  class Imt<F(!new,==)> {
    const hasher: Hasher<F>
    const nodes: array<F>
    const zeroValues: seq<F>
    const firstLeafIdx: nat
    var nextFreeLeafIdx: nat
    const treeDepth: nat
    ghost var leaves: seq<F>

    ghost predicate Valid()
      reads this, nodes
    {
      && 1 <= treeDepth <= TREE_DEPTH_MAX && hasher.Valid()
      && nodes.Length == 2 * Pow2(treeDepth) && firstLeafIdx == Pow2(treeDepth)
      && |zeroValues| == treeDepth && (forall k :: 0 <= k < treeDepth ==> zeroValues[k] == Zero(hasher, k))
      && nextFreeLeafIdx == firstLeafIdx + |leaves| <= nodes.Length
      && Insertable(hasher, leaves)
      && (forall i :: 0 <= i < |leaves| ==> nodes[firstLeafIdx + i] == leaves[i])
      && (forall i :: nextFreeLeafIdx <= i < nodes.Length ==> nodes[i] == hasher.empty || nodes[i] == hasher.z0)
    }

    /** Every node is up to date with the leaves. */
    ghost predicate Built()
      requires Valid()
      reads this, nodes
    {
      forall i :: 1 <= i < nodes.Length ==> nodes[i] == Stored(hasher, leaves, treeDepth, i)
    }

    constructor (hasher: Hasher<F>, treeDepth: nat)
      requires hasher.Valid() && 1 <= treeDepth <= TREE_DEPTH_MAX
      ensures Valid() && Built() && fresh(nodes)
      ensures this.hasher == hasher && this.treeDepth == treeDepth && leaves == []
    {
      var zeros := GenerateZeroValuesForLevels(hasher, treeDepth);
      this.hasher, this.treeDepth, zeroValues := hasher, treeDepth, zeros;
      nodes := new F[2 * Pow2(treeDepth)](_ => hasher.empty);
      firstLeafIdx, nextFreeLeafIdx := Pow2(treeDepth), Pow2(treeDepth);
      leaves := [];
      new;
      BuildTree();
    }

    function Root(): F
      requires Valid()
      reads this, nodes
    {
      nodes[1]
    }

    /** Refused exactly for the two reserved values or when the tree is full. */
    method InsertLeafLazy(leaf: F) returns (r: Result<(), string>)
      requires Valid()
      modifies this`nextFreeLeafIdx, this`leaves, nodes
      ensures Valid()
      ensures r.Err? <==> leaf == hasher.empty || leaf == hasher.z0 || |old(leaves)| == Pow2(treeDepth)
      ensures r.Ok? ==> leaves == old(leaves) + [leaf] && nodes[..] == old(nodes[..])[old(nextFreeLeafIdx) := leaf]
      ensures r.Err? ==> unchanged(this) && unchanged(nodes)
    {
      if leaf == hasher.empty || leaf == hasher.z0 {
        return Err("Leaf value is not valid");
      }
      if nextFreeLeafIdx >= nodes.Length {
        return Err("Tree is full");
      }
      nodes[nextFreeLeafIdx] := leaf;
      nextFreeLeafIdx := nextFreeLeafIdx + 1;
      leaves := leaves + [leaf];
      return Ok(());
    }

    /** A node below the root, an unset one read as the zero value of its level. */
    function NodeAt(i: nat): F
      requires Valid() && 2 <= i < nodes.Length
      reads this, nodes
    {
      if nodes[i] == hasher.empty then zeroValues[CalculateLevel(treeDepth, i)] else nodes[i]
    }

    lemma ReadsStored(i: nat)
      requires Valid() && 2 <= i < nodes.Length && nodes[i] == Stored(hasher, leaves, treeDepth, i)
      ensures NodeAt(i) == Read(hasher, leaves, treeDepth, i)
    {
    }

    method BuildTree()
      requires Valid()
      modifies nodes
      ensures Valid() && Built()
    {
      hide Pow2, Zero, Ilog2, Insertable, Leaf;
      LeavesFill();
      var lastLevelStartIdx := firstLeafIdx;
      for level := 1 to treeDepth + 1
        invariant Valid()
        invariant lastLevelStartIdx == Pow2(treeDepth - (level - 1))
        invariant forall i :: lastLevelStartIdx <= i < nodes.Length ==> nodes[i] == Stored(hasher, leaves, treeDepth, i)
      {
        var levelStartIdx := Pow2(treeDepth - level);
        HalfWay(treeDepth, level);
        for i := levelStartIdx to lastLevelStartIdx
          invariant Valid()
          invariant forall j :: levelStartIdx <= j < i || lastLevelStartIdx <= j < nodes.Length ==>
                      nodes[j] == Stored(hasher, leaves, treeDepth, j)
        {
          var leftChild := NodeAt(2 * i);
          var rightChild := NodeAt(2 * i + 1);
          ReadsStored(2 * i);
          ReadsStored(2 * i + 1);
          assert Stored(hasher, leaves, treeDepth, i) == hasher.compress(leftChild, rightChild);
          nodes[i] := hasher.compress(leftChild, rightChild);
        }
        lastLevelStartIdx := levelStartIdx;
      }
      assert lastLevelStartIdx == 1 by { HalfWay(treeDepth, treeDepth); }
    }

    // ----- inclusion proofs -----

    method FindLeafIndex(leaf: F) returns (r: Option<nat>)
      requires Valid()
      ensures r.None? ==> forall i :: firstLeafIdx <= i < nodes.Length ==> nodes[i] != leaf
      ensures r.Some? ==> firstLeafIdx <= r.value < nodes.Length && nodes[r.value] == leaf
                          && forall i :: firstLeafIdx <= i < r.value ==> nodes[i] != leaf
    {
      for i := firstLeafIdx to nodes.Length
        invariant forall j :: firstLeafIdx <= j < i ==> nodes[j] != leaf
      {
        if nodes[i] == leaf {
          return Some(i);
        }
      }
      return None;
    }

    /** The array siblings on the way up from the leaf at this position. */
    ghost predicate ArrayPath(path: seq<F>, pos: nat)
      requires Valid() && pos < Pow2(treeDepth)
      reads this, nodes
    {
      && |path| <= treeDepth
      && forall k :: 0 <= k < |path| ==>
           HeapIndex(treeDepth, pos, k) && path[k] == nodes[SiblingIndexOf(treeDepth, pos, k)]
    }

    lemma EmptyArrayPath(pos: nat)
      requires Valid() && pos < Pow2(treeDepth)
      ensures ArrayPath([], pos)
    {
    }

    lemma ArrayPathStep(path: seq<F>, pos: nat, sibling: F)
      requires Valid() && pos < Pow2(treeDepth) && ArrayPath(path, pos) && HeapIndex(treeDepth, pos, |path|)
      requires sibling == nodes[SiblingIndexOf(treeDepth, pos, |path|)]
      ensures ArrayPath(path + [sibling], pos)
    {
      hide HeapIndex, Pow2, Sibling, Ancestor;
      assert |path| < treeDepth by { IndexedBelowRoot(treeDepth, pos, |path|); }
    }

    /** The proof of the first leaf with this value; refused exactly when no leaf has it. */
    method ProofFor(leaf: F) returns (r: Result<MerkleProof<F>, string>, ghost pos: nat)
      requires Valid()
      ensures r.Err? <==> forall i :: firstLeafIdx <= i < nodes.Length ==> nodes[i] != leaf
      ensures r.Ok? ==>
        && pos < Pow2(treeDepth) && nodes[firstLeafIdx + pos] == leaf && (forall j :: firstLeafIdx <= j < firstLeafIdx + pos ==> nodes[j] != leaf)
        && r.value.leaf == leaf && r.value.siblingsSide == SidesAt(pos, treeDepth)
        && |r.value.siblingsPath| == treeDepth && ArrayPath(r.value.siblingsPath, pos)
    {
      hide Pow2, Ancestor, Zero, Insertable, HeapIndex, Sibling, ArrayPath;
      pos := 0;
      var found := FindLeafIndex(leaf);
      if found.None? {
        return Err("Leaf is not in the tree"), 0;
      }
      pos := found.value - firstLeafIdx;
      var path: seq<F>, sides: seq<nat> := [], [];
      var currentIdx := found.value;
      Start(treeDepth, pos);
      EmptyArrayPath(pos);
      while currentIdx > 1
        invariant |path| == |sides| <= treeDepth
        invariant currentIdx == Ancestor(found.value, |path|) == Pow2(treeDepth - |path|) + Ancestor(pos, |path|)
        invariant Ancestor(pos, |path|) < Pow2(treeDepth - |path|)
        invariant ArrayPath(path, pos)
        invariant sides == SidesAt(pos, treeDepth)[..|path|]
        decreases treeDepth - |path|
      {
        ghost var k := |path|;
        Climb(treeDepth, pos, k);
        var isLeftLeaf := currentIdx % 2 == 0;
        var sibling := if isLeftLeaf then nodes[currentIdx + 1] else nodes[currentIdx - 1];
        ArrayPathStep(path, pos, sibling);
        path := path + [sibling];
        assert SidesAt(pos, treeDepth)[k] == (if isLeftLeaf then 1 else 0);
        sides := sides + [if isLeftLeaf then 1 else 0];
        currentIdx := currentIdx / 2;
      }
      TopReached(treeDepth, |path|);
      return Ok(MerkleProof(leaf, path, sides)), pos;
    }

    /** Folds the path; an empty path is compared as the empty marker. */
    method VerifyMerkleProof(proof: MerkleProof<F>) returns (b: bool)
      requires Valid() && |proof.siblingsPath| <= |proof.siblingsSide|
      ensures b <==> Root() == if proof.siblingsPath == [] then hasher.empty
                               else FoldRoot(hasher, proof.leaf, proof.siblingsPath, proof.siblingsSide)
    {
      var parent := hasher.empty;
      var otherSibling := proof.leaf;
      for i := 0 to |proof.siblingsPath|
        invariant otherSibling == FoldRoot(hasher, proof.leaf, proof.siblingsPath[..i], proof.siblingsSide)
        invariant parent == if i == 0 then hasher.empty else otherSibling
      {
        var sibling := proof.siblingsPath[i];
        var isLeft := proof.siblingsSide[i] == 0;
        if isLeft {
          parent := hasher.compress(sibling, otherSibling);
        } else {
          parent := hasher.compress(otherSibling, sibling);
        }
        assert proof.siblingsPath[..i + 1][..i] == proof.siblingsPath[..i];
        otherSibling := parent;
      }
      assert proof.siblingsPath[..|proof.siblingsPath|] == proof.siblingsPath;
      return nodes[1] == parent;
    }

    /** In a rebuilt tree every array node is the node of the abstract tree. */
    lemma NodeOfTree(a: nat, i: nat)
      requires Valid() && Built() && MarkerHarmless(hasher, leaves, treeDepth) && a <= treeDepth && i < Pow2(a)
      ensures (a < treeDepth ==> 2 * Pow2(a) <= Pow2(treeDepth)) && nodes[Pow2(a) + i] == Node(hasher, leaves, treeDepth - a, i)
    {
      StoredIsNode(hasher, leaves, treeDepth, a, i);
    }

    /** The root of a rebuilt tree; where the marker is harmless it is that of the abstract tree. */
    lemma BuiltRoot()
      requires Valid() && Built()
      ensures Root() == RebuiltRoot(hasher, leaves, treeDepth)
      ensures MarkerHarmless(hasher, leaves, treeDepth) ==> Root() == Node(hasher, leaves, treeDepth, 0)
    {
      hide MarkerHarmless, Node;
      if MarkerHarmless(hasher, leaves, treeDepth) {
        RebuiltRootIsRoot(hasher, leaves, treeDepth);
      }
    }

    /** In a rebuilt tree the proof is the honest one, has full length and verifies. */
    lemma ProofsAreComplete(proof: MerkleProof<F>, pos: nat)
      requires Valid() && Built() && MarkerHarmless(hasher, leaves, treeDepth) && pos < Pow2(treeDepth)
      requires proof.leaf == nodes[firstLeafIdx + pos] && proof.siblingsSide == SidesAt(pos, treeDepth)
      requires |proof.siblingsPath| == treeDepth && ArrayPath(proof.siblingsPath, pos)
      ensures proof.leaf == Leaf(hasher, leaves, pos) && proof.siblingsPath == PathAt(hasher, leaves, pos, treeDepth)
      ensures Root() == FoldRoot(hasher, proof.leaf, proof.siblingsPath, proof.siblingsSide)
    {
      hide Ancestor, Pow2, Stored, Built, Node, MarkerHarmless, HeapIndex;
      var path := proof.siblingsPath;
      LeafOfTree(pos);
      ArrayPathIsHonest(path, pos);
      assert path[..treeDepth] == path;
      HonestFold(hasher, leaves, pos, path, proof.siblingsSide, treeDepth, treeDepth);
      TopAncestor(pos, treeDepth);
      BuiltRoot();
    }

    /** In a rebuilt tree a proof of full length with bit sides is accepted exactly when it is the
        array path of the leaf at its position, or when it contains a collision of the hash. */
    lemma AcceptedProofs(proof: MerkleProof<F>)
      requires Valid() && Built() && MarkerHarmless(hasher, leaves, treeDepth)
      requires Bits(proof.siblingsSide) && |proof.siblingsPath| == |proof.siblingsSide| == treeDepth
      ensures Position(proof.siblingsSide) < Pow2(treeDepth)
      ensures Root() == FoldRoot(hasher, proof.leaf, proof.siblingsPath, proof.siblingsSide)
         <==> (proof.leaf == nodes[firstLeafIdx + Position(proof.siblingsSide)] && ArrayPath(proof.siblingsPath, Position(proof.siblingsSide)))
              || exists j: nat :: CollidesAt(hasher, leaves, proof.leaf, proof.siblingsPath, proof.siblingsSide, j, treeDepth)
    {
      hide Ancestor, Pow2, Stored, Built, Node, MarkerHarmless, Position, CollidesAt, HeapIndex, ArrayPath;
      var pos := Position(proof.siblingsSide);
      LeafOfTree(pos);
      BuiltRoot();
      ProofsAreBinding(hasher, leaves, proof.leaf, proof.siblingsPath, proof.siblingsSide, treeDepth);
      ArrayPathIsHonest(proof.siblingsPath, pos);
    }

    /** In a rebuilt tree the array path is the path of the tree. */
    lemma ArrayPathIsHonest(path: seq<F>, pos: nat)
      requires Valid() && Built() && MarkerHarmless(hasher, leaves, treeDepth) && pos < Pow2(treeDepth) && |path| == treeDepth
      ensures ArrayPath(path, pos) <==> path == PathAt(hasher, leaves, pos, treeDepth)
    {
      hide Ancestor, Pow2, Stored, Built, Node, MarkerHarmless;
      forall k | 0 <= k < treeDepth
        ensures HeapIndex(treeDepth, pos, k) && nodes[SiblingIndexOf(treeDepth, pos, k)] == PathAt(hasher, leaves, pos, treeDepth)[k]
      {
        HeapIndexed(treeDepth, pos, k);
        SiblingIndex(treeDepth, pos, k);
        NodeOfTree(treeDepth - k, Sibling(Ancestor(pos, k)));
      }
    }

    lemma LeafOfTree(pos: nat)
      requires Valid() && Built() && MarkerHarmless(hasher, leaves, treeDepth) && pos < Pow2(treeDepth)
      ensures nodes[firstLeafIdx + pos] == Leaf(hasher, leaves, pos)
    {
      NodeOfTree(treeDepth, pos);
    }

    // ----- the leaf level -----

    /** Unset leaves become zero. */
    method LeavesFill()
      requires Valid()
      modifies nodes
      ensures Valid()
      ensures forall i :: firstLeafIdx <= i < nodes.Length ==> nodes[i] == Stored(hasher, leaves, treeDepth, i)
    {
      hide Pow2, Ilog2;
      HalfWay(treeDepth, 1);
      for i := firstLeafIdx to nodes.Length
        invariant Valid()
        invariant forall j :: firstLeafIdx <= j < i ==> nodes[j] == Leaf(hasher, leaves, j - firstLeafIdx)
      {
        LevelOf(treeDepth, treeDepth, i);
        assert i < nextFreeLeafIdx ==> nodes[i] == leaves[i - firstLeafIdx];
        nodes[i] := NodeAt(i);
      }
    }
  }

  lemma HalfWay(treeDepth: nat, level: nat)
    requires 1 <= level <= treeDepth
    ensures Pow2(treeDepth - (level - 1)) == 2 * Pow2(treeDepth - level) <= Pow2(treeDepth)
    ensures level == treeDepth ==> Pow2(treeDepth - level) == 1
  {
    if level > 1 {
      Pow2Grows(treeDepth - (level - 1), treeDepth);
    }
  }

  /** The array index of an ancestor and of its sibling, below the root. */
  ghost predicate HeapIndex(depth: nat, pos: nat, k: nat) {
    && k < depth && 2 <= Ancestor(Pow2(depth) + pos, k) < 2 * Pow2(depth)
    && Sibling(Ancestor(Pow2(depth) + pos, k)) < 2 * Pow2(depth)
  }

  ghost function SiblingIndexOf(depth: nat, pos: nat, k: nat): (i: nat)
    requires HeapIndex(depth, pos, k)
    ensures i < 2 * Pow2(depth)
  {
    Sibling(Ancestor(Pow2(depth) + pos, k))
  }

  lemma Start(depth: nat, pos: nat)
    requires pos < Pow2(depth)
    ensures Ancestor(Pow2(depth) + pos, 0) == Pow2(depth) + pos && Ancestor(pos, 0) == pos
  {
  }

  /** One step of the walk to the root. */
  lemma Climb(depth: nat, pos: nat, k: nat)
    requires pos < Pow2(depth) && k <= depth && Ancestor(Pow2(depth) + pos, k) > 1
    ensures k < depth && HeapIndex(depth, pos, k)
    ensures var i := Ancestor(Pow2(depth) + pos, k);
      && 2 <= i < 2 * Pow2(depth) && Sibling(i) == (if i % 2 == 0 then i + 1 else i - 1) < 2 * Pow2(depth)
      && i == Pow2(depth - k) + Ancestor(pos, k) && i % 2 == Ancestor(pos, k) % 2
      && i / 2 == Ancestor(Pow2(depth) + pos, k + 1) == Pow2(depth - (k + 1)) + Ancestor(pos, k + 1)
      && Ancestor(pos, k + 1) < Pow2(depth - (k + 1))
  {
    hide Ancestor;
    HeapAncestor(depth, pos, k);
    if k < depth {
      HeapAncestor(depth, pos, k + 1);
      NextAncestor(Pow2(depth) + pos, k);
      assert Pow2(depth - k) == 2 * Pow2(depth - (k + 1));
      if k > 0 {
        Pow2Grows(depth - k, depth);
      }
    }
  }

  lemma IndexedBelowRoot(depth: nat, pos: nat, k: nat)
    requires HeapIndex(depth, pos, k)
    ensures k < depth
  {
  }

  lemma HeapIndexed(depth: nat, pos: nat, k: nat)
    requires pos < Pow2(depth) && k < depth
    ensures HeapIndex(depth, pos, k)
  {
    hide Ancestor;
    HeapAncestor(depth, pos, k);
    assert Pow2(depth - k) == 2 * Pow2(depth - (k + 1));
    Climb(depth, pos, k);
  }

  lemma TopReached(depth: nat, k: nat)
    requires k <= depth && Pow2(depth - k) <= 1
    ensures k == depth
  {
  }

  lemma SiblingIndex(depth: nat, pos: nat, k: nat)
    requires pos < Pow2(depth) && k < depth
    ensures Sibling(Ancestor(pos, k)) < Pow2(depth - k)
    ensures Sibling(Ancestor(Pow2(depth) + pos, k)) == Pow2(depth - k) + Sibling(Ancestor(pos, k))
  {
    hide Ancestor, Pow2;
    HeapAncestor(depth, pos, k);
    HalfPower(depth - k);
  }

  lemma HalfPower(n: nat)
    requires n > 0
    ensures Pow2(n) == 2 * Pow2(n - 1)
  {
  }

  lemma LevelOfTwo()
    ensures Pow2(2) == 4 && CalculateLevel(2, 2) == CalculateLevel(2, 3) == 1
  {
    assert Pow2(1) == 2;
    Ilog2Unique(2, 1);
    Ilog2Unique(3, 1);
  }
}
