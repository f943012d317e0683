/**
 The two Merkle trees agree: the O(depth) on-chain insertion computes the root of the fully rebuilt
 off-chain tree, leaf after leaf; and the in-circuit path fold is the native one.
 */
module ImtRefinement {
  import opened Wrappers
  import opened PowersOfTwo
  import opened Fields
  import opened MerkleTree
  import opened OnChainImt
  import OffChainImt

  /** Both trees fed with the same leaves, the off-chain one rebuilt after each. The on-chain root is
      always that of the abstract tree, the off-chain root is what the rebuild computes, and they are
      equal after every insertion up to which the marker is harmless. */
  method InsertIntoBoth<F(!new,==)>(hasher: Hasher<F>, treeDepth: nat, leaves: seq<F>)
    returns (onChainRoots: seq<F>, offChainRoots: seq<F>)
    requires hasher.Valid() && 1 <= treeDepth <= TREE_DEPTH_MAX
    requires |leaves| <= Pow2(treeDepth) && OffChainImt.Insertable(hasher, leaves)
    ensures |onChainRoots| == |offChainRoots| == |leaves| + 1
    ensures forall i :: 0 <= i <= |leaves| ==> onChainRoots[i] == Node(hasher, leaves[..i], treeDepth, 0)
    ensures forall i :: 0 <= i <= |leaves| ==> offChainRoots[i] == OffChainImt.RebuiltRoot(hasher, leaves[..i], treeDepth)
    ensures forall i :: 0 <= i <= |leaves| && OffChainImt.MarkerHarmless(hasher, leaves[..i], treeDepth) ==> onChainRoots[i] == offChainRoots[i]
  {
    hide Node, Pow2, OffChainImt.Imt.Built, OnChainImt.HoldsLatestRoots, OffChainImt.RebuiltRoot, OffChainImt.MarkerHarmless;
    var onChain := new OnChainImt.Imt(hasher, treeDepth);
    var offChain := new OffChainImt.Imt(hasher, treeDepth);
    offChain.BuiltRoot();
    onChainRoots, offChainRoots := [onChain.root], [offChain.Root()];
    assert leaves[..0] == [];
    for i := 0 to |leaves|
      invariant onChain.Valid() && fresh(onChain) && fresh(onChain.frontiers) && fresh(onChain.rootsHistory)
      invariant offChain.Valid() && fresh(offChain) && fresh(offChain.nodes)
      invariant onChain.frontiers != offChain.nodes && onChain.rootsHistory != offChain.nodes
      invariant onChain.hasher == offChain.hasher == hasher && onChain.treeDepth == offChain.treeDepth == treeDepth
      invariant onChain.leaves == offChain.leaves == leaves[..i]
      invariant |onChainRoots| == |offChainRoots| == i + 1
      invariant forall j :: 0 <= j <= i ==> onChainRoots[j] == Node(hasher, leaves[..j], treeDepth, 0)
      invariant forall j :: 0 <= j <= i ==> offChainRoots[j] == OffChainImt.RebuiltRoot(hasher, leaves[..j], treeDepth)
    {
      assert leaves[..i + 1] == leaves[..i] + [leaves[i]];
      var inserted := onChain.Insert(leaves[i]);
      var stored := offChain.InsertLeafLazy(leaves[i]);
      offChain.BuildTree();
      offChain.BuiltRoot();
      onChainRoots, offChainRoots := onChainRoots + [onChain.root], offChainRoots + [offChain.Root()];
    }
    assert leaves[..|leaves|] == leaves;
    forall i | 0 <= i <= |leaves| && OffChainImt.MarkerHarmless(hasher, leaves[..i], treeDepth)
      ensures onChainRoots[i] == offChainRoots[i]
    {
      OffChainImt.RebuiltRootIsRoot(hasher, leaves[..i], treeDepth);
    }
  }

  /** A hash that maps (2, 0) to the marker 1. */
  const MARKER_HASH: Hasher<int> := Hasher((a: int, b: int) => if a == 2 && b == 0 then 1 else 3 + a + b, 0, 1)

  /** Without the sentinel assumption the roots can differ: the rebuilt tree reads the marker as an unset node. */
  lemma SentinelMatters()
    ensures var h := MARKER_HASH;
      h.Valid() && OffChainImt.Insertable(h, [2]) && OffChainImt.Stored(h, [2], 2, 1) != Node(h, [2], 2, 0)
  {
    var h := MARKER_HASH;
    assert Pow2(2) == 4 by { assert Pow2(1) == 2; }
    assert Node(h, [2], 1, 0) == 1 && Node(h, [2], 1, 1) == 3;
    assert Node(h, [2], 2, 0) == 7;
    assert OffChainImt.Stored(h, [2], 2, 4) == 2 && OffChainImt.Stored(h, [2], 2, 5) == 0;
    assert OffChainImt.Stored(h, [2], 2, 6) == 0 && OffChainImt.Stored(h, [2], 2, 7) == 0;
    assert OffChainImt.Read(h, [2], 2, 4) == 2 && OffChainImt.Read(h, [2], 2, 5) == 0;
    assert OffChainImt.Read(h, [2], 2, 6) == 0 && OffChainImt.Read(h, [2], 2, 7) == 0;
    assert OffChainImt.Stored(h, [2], 2, 2) == 1 && OffChainImt.Stored(h, [2], 2, 3) == 3;
    OffChainImt.LevelOfTwo();
    assert Zero(h, 1) == 3;
    assert OffChainImt.Read(h, [2], 2, 2) == 3 && OffChainImt.Read(h, [2], 2, 3) == 3;
    assert OffChainImt.Stored(h, [2], 2, 1) == 9;
  }

  // ----- in the circuit -----

  /** A selection gate: the first value when the selector is one, the second when it is zero. */
  function Select<F(!new)>(f: Field<F>, a: F, b: F, sel: F): F {
    f.add(f.mul(sel, f.Sub(a, b)), b)
  }

  lemma SelectBit<F(!new)>(f: Field<F>, a: F, b: F)
    requires f.Valid()
    ensures Select(f, a, b, f.One()) == a && Select(f, a, b, f.Zero()) == b
  {
    hide Field.Valid;
    MulOne(f, f.Sub(a, b));
    MulZero(f, f.Sub(a, b));
    AddZero(f, b);
    SubThenAdd(f, a, b);
  }

  lemma SubThenAdd<F(!new)>(f: Field<F>, a: F, b: F)
    requires f.Valid()
    ensures f.add(f.Sub(a, b), b) == a
  {
    var i, j := f.rep(a), f.rep(b);
    assert i - j + j == i;
  }

  /** The sides as field elements. */
  ghost predicate AreBits<F(!new)>(f: Field<F>, sides: seq<F>, bits: seq<nat>) {
    |sides| == |bits| && Bits(bits) && forall k :: 0 <= k < |sides| ==> sides[k] == f.of(bits[k])
  }

  /** The in-circuit fold is satisfiable exactly for bit sides and then computes the native root. */
  method CalculateRootFromProof<F(!new,==)>(f: Field<F>, hasher: Hasher<F>, leaf: F, siblingsPath: seq<F>, siblingsSide: seq<F>)
    returns (root: Option<F>, ghost bits: seq<nat>)
    requires f.Valid() && |siblingsPath| == |siblingsSide|
    ensures root.Some? <==> forall k :: 0 <= k < |siblingsSide| ==> siblingsSide[k] == f.Zero() || siblingsSide[k] == f.One()
    ensures root.Some? ==> AreBits(f, siblingsSide, bits) && root.value == FoldRoot(hasher, leaf, siblingsPath, bits)
  {
    hide Field.Valid, Select;
    var currentNode := leaf;
    bits := [];
    for i := 0 to |siblingsPath|
      invariant AreBits(f, siblingsSide[..i], bits)
      invariant forall k :: 0 <= k < i ==> siblingsSide[k] == f.Zero() || siblingsSide[k] == f.One()
      invariant currentNode == FoldRoot(hasher, leaf, siblingsPath[..i], bits)
    {
      var sibling, side := siblingsPath[i], siblingsSide[i];
      if side != f.Zero() && side != f.One() {
        return None, bits;
      }
      var left := Select(f, currentNode, sibling, side);
      var right := Select(f, sibling, currentNode, side);
      SelectBit(f, currentNode, sibling);
      SelectBit(f, sibling, currentNode);
      ghost var bit: nat := if side == f.Zero() then 0 else 1;
      FoldMoreSides(hasher, leaf, siblingsPath[..i], bits, bit);
      assert siblingsPath[..i + 1][..i] == siblingsPath[..i];
      bits := bits + [bit];
      assert siblingsSide[..i + 1] == siblingsSide[..i] + [side];
      currentNode := hasher.compress(left, right);
    }
    assert siblingsPath[..|siblingsPath|] == siblingsPath && siblingsSide[..|siblingsSide|] == siblingsSide;
    return Some(currentNode), bits;
  }

  lemma {:induction false} FoldMoreSides<F>(h: Hasher<F>, leaf: F, path: seq<F>, sides: seq<nat>, side: nat)
    requires |path| <= |sides|
    ensures FoldRoot(h, leaf, path, sides) == FoldRoot(h, leaf, path, sides + [side])
  {
    if path != [] {
      FoldMoreSides(h, leaf, path[..|path| - 1], sides, side);
    }
  }
}
