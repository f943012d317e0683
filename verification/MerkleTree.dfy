/**
 Merkle trees over an uninterpreted two-to-one hash: the value of every node as a function of the
 leaves, inclusion proofs, and what an accepted proof determines.
 */
module MerkleTree {
  import opened PowersOfTwo

  /** The compression function, the value of an absent leaf and the marker of an unset node. */
  datatype Hasher<!F> = Hasher(compress: (F, F) -> F, z0: F, empty: F)
  {
    ghost predicate Valid() { z0 != empty }
  }

  // ----- node values -----

  ghost function Leaf<F>(h: Hasher<F>, leaves: seq<F>, i: nat): F {
    if i < |leaves| then leaves[i] else h.z0
  }

  /** Node `idx` of a level, leaves being level zero, absent leaves zero. */
  ghost function Node<F>(h: Hasher<F>, leaves: seq<F>, level: nat, idx: nat): F {
    if level == 0 then Leaf(h, leaves, idx)
    else h.compress(Node(h, leaves, level - 1, 2 * idx), Node(h, leaves, level - 1, 2 * idx + 1))
  }

  ghost function Zero<F>(h: Hasher<F>, level: nat): F {
    if level == 0 then h.z0 else h.compress(Zero(h, level - 1), Zero(h, level - 1))
  }

  /** A subtree to the right of every leaf has the zero value of its level. */
  lemma {:induction false} ZeroSubtree<F>(h: Hasher<F>, leaves: seq<F>, level: nat, idx: nat)
    requires leaves == [] || Ancestor(|leaves| - 1, level) < idx
    ensures Node(h, leaves, level, idx) == Zero(h, level)
  {
    if level > 0 {
      if leaves != [] {
        NextAncestor(|leaves| - 1, level - 1);
      }
      ZeroSubtree(h, leaves, level - 1, 2 * idx);
      ZeroSubtree(h, leaves, level - 1, 2 * idx + 1);
    }
  }

  /** Appending a leaf changes only the nodes above it. */
  lemma {:induction false} AppendFrame<F>(h: Hasher<F>, leaves: seq<F>, leaf: F, level: nat, idx: nat)
    requires Ancestor(|leaves|, level) != idx
    ensures Node(h, leaves + [leaf], level, idx) == Node(h, leaves, level, idx)
  {
    if level > 0 {
      NextAncestor(|leaves|, level - 1);
      AppendFrame(h, leaves, leaf, level - 1, 2 * idx);
      AppendFrame(h, leaves, leaf, level - 1, 2 * idx + 1);
    }
  }

  /** The zero values of the levels below the root. */
  method GenerateZeroValuesForLevels<F>(h: Hasher<F>, treeDepth: nat) returns (zeros: seq<F>)
    ensures |zeros| == if treeDepth == 0 then 1 else treeDepth
    ensures forall k :: 0 <= k < |zeros| ==> zeros[k] == Zero(h, k)
  {
    zeros := [h.z0];
    var i := 1;
    while i < treeDepth
      invariant 1 <= i && |zeros| == i && (i <= treeDepth || i == 1)
      invariant forall k :: 0 <= k < i ==> zeros[k] == Zero(h, k)
    {
      var previous := zeros[i - 1];
      zeros := zeros + [h.compress(previous, previous)];
      i := i + 1;
    }
  }

  // ----- inclusion proofs -----

  datatype MerkleProof<F> = MerkleProof(leaf: F, siblingsPath: seq<F>, siblingsSide: seq<nat>)

  /** One step up: side 0 puts the sibling on the left, any other side on the right. */
  function Step<F>(h: Hasher<F>, current: F, sibling: F, side: nat): F {
    if side == 0 then h.compress(sibling, current) else h.compress(current, sibling)
  }

  /** The root a leaf and a path lead to. */
  ghost function FoldRoot<F>(h: Hasher<F>, leaf: F, path: seq<F>, sides: seq<nat>): F
    requires |path| <= |sides|
  {
    if path == [] then leaf
    else
      var n := |path| - 1;
      Step(h, FoldRoot(h, leaf, path[..n], sides), path[n], sides[n])
  }

  function Sibling(i: nat): nat {
    if i % 2 == 0 then i + 1 else i - 1
  }

  /** The siblings on the way from leaf `pos` to the root, and their sides. */
  ghost function PathAt<F>(h: Hasher<F>, leaves: seq<F>, pos: nat, depth: nat): (p: seq<F>)
    ensures |p| == depth
  {
    seq(depth, k requires 0 <= k < depth => Node(h, leaves, k, Sibling(Ancestor(pos, k))))
  }

  ghost function SidesAt(pos: nat, depth: nat): (s: seq<nat>)
    ensures |s| == depth
  {
    seq(depth, k requires 0 <= k < depth => 1 - Ancestor(pos, k) % 2)
  }

  ghost predicate Bits(sides: seq<nat>) {
    forall k :: 0 <= k < |sides| ==> sides[k] <= 1
  }

  /** A node is the hash of a child with its sibling, in the order of the side. */
  lemma NodeFromChild<F>(h: Hasher<F>, leaves: seq<F>, pos: nat, k: nat)
    ensures Node(h, leaves, k + 1, Ancestor(pos, k + 1))
         == Step(h, Node(h, leaves, k, Ancestor(pos, k)), Node(h, leaves, k, Sibling(Ancestor(pos, k))), 1 - Ancestor(pos, k) % 2)
  {
    NextAncestor(pos, k);
  }

  /** The honest path leads to the root. */
  lemma {:induction false} HonestFold<F>(h: Hasher<F>, leaves: seq<F>, pos: nat, path: seq<F>, sides: seq<nat>, depth: nat, k: nat)
    requires path == PathAt(h, leaves, pos, depth) && sides == SidesAt(pos, depth) && k <= depth
    ensures FoldRoot(h, Leaf(h, leaves, pos), path[..k], sides) == Node(h, leaves, k, Ancestor(pos, k))
  {
    if k > 0 {
      HonestFold(h, leaves, pos, path, sides, depth, k - 1);
      NodeFromChild(h, leaves, pos, k - 1);
      assert path[..k][..k - 1] == path[..k - 1];
    }
  }

  /** The position whose sides these are: `sum (1 - side_i) * 2^i`. */
  ghost function Position(sides: seq<nat>): (pos: nat)
    requires Bits(sides)
    ensures pos < Pow2(|sides|)
  {
    if sides == [] then 0 else (1 - sides[0]) + 2 * Position(sides[1..])
  }

  lemma {:induction false} SidesOfPosition(sides: seq<nat>, k: nat)
    requires Bits(sides) && k < |sides|
    ensures 1 - Ancestor(Position(sides), k) % 2 == sides[k]
  {
    if k > 0 {
      SidesOfPosition(sides[1..], k - 1);
    }
  }

  lemma {:induction false} PositionOfSides(pos: nat, depth: nat)
    requires pos < Pow2(depth)
    ensures Bits(SidesAt(pos, depth)) && Position(SidesAt(pos, depth)) == pos
  {
    if depth > 0 {
      PositionOfSides(pos / 2, depth - 1);
      assert SidesAt(pos, depth)[1..] == SidesAt(pos / 2, depth - 1);
    }
  }

  // ----- what an accepted proof determines -----

  /** The two inputs of a step, in the order they are hashed. */
  function Pair<F>(current: F, sibling: F, side: nat): (F, F) {
    if side == 0 then (sibling, current) else (current, sibling)
  }

  /** The pair the proof hashes on level j. */
  ghost function ProofPair<F>(h: Hasher<F>, leaf: F, path: seq<F>, sides: seq<nat>, j: nat): (F, F)
    requires |path| == |sides| && j < |path|
  {
    Pair(FoldRoot(h, leaf, path[..j], sides), path[j], sides[j])
  }

  /** The pair the tree hashes on level j, on the way up from position pos. */
  ghost function TreePair<F>(h: Hasher<F>, leaves: seq<F>, pos: nat, side: nat, j: nat): (F, F) {
    Pair(Node(h, leaves, j, Ancestor(pos, j)), Node(h, leaves, j, Sibling(Ancestor(pos, j))), side)
  }

  ghost predicate Collision<F>(h: Hasher<F>, p: (F, F), q: (F, F)) {
    p != q && h.compress(p.0, p.1) == h.compress(q.0, q.1)
  }

  /** From level lo up to level hi the siblings of the path are those of the tree. */
  ghost predicate HonestAbove<F>(h: Hasher<F>, leaves: seq<F>, pos: nat, path: seq<F>, lo: nat, hi: nat)
    requires hi <= |path|
  {
    forall i :: lo <= i < hi ==> path[i] == Node(h, leaves, i, Sibling(Ancestor(pos, i)))
  }

  /** On level j the proof and the tree hash different pairs to the same value, and above that level
      the path is the one of the tree. */
  ghost predicate CollidesAt<F>(h: Hasher<F>, leaves: seq<F>, leaf: F, path: seq<F>, sides: seq<nat>, j: nat, k: nat)
    requires Bits(sides) && |path| == |sides| && k <= |path|
  {
    && j < k
    && Collision(h, ProofPair(h, leaf, path, sides, j), TreePair(h, leaves, Position(sides), sides[j], j))
    && HonestAbove(h, leaves, Position(sides), path, j + 1, k)
  }

  ghost predicate HonestTo<F>(h: Hasher<F>, leaves: seq<F>, leaf: F, path: seq<F>, pos: nat, k: nat)
    requires k <= |path|
  {
    leaf == Leaf(h, leaves, pos) && HonestAbove(h, leaves, pos, path, 0, k)
  }

  lemma FoldStep<F>(h: Hasher<F>, leaf: F, path: seq<F>, sides: seq<nat>, k: nat)
    requires |path| == |sides| && k < |path|
    ensures var p := ProofPair(h, leaf, path, sides, k); FoldRoot(h, leaf, path[..k + 1], sides) == h.compress(p.0, p.1)
  {
    assert path[..k + 1][..k] == path[..k];
  }

  lemma NodeStep<F>(h: Hasher<F>, leaves: seq<F>, sides: seq<nat>, k: nat)
    requires Bits(sides) && k < |sides|
    ensures var p := TreePair(h, leaves, Position(sides), sides[k], k);
      Node(h, leaves, k + 1, Ancestor(Position(sides), k + 1)) == h.compress(p.0, p.1)
  {
    hide Ancestor, Position, Node;
    NodeFromChild(h, leaves, Position(sides), k);
    SidesOfPosition(sides, k);
  }

  /** A path that reaches the node above its position is honest, or gives a collision. */
  lemma {:induction false} BindingPrefix<F(!new)>(h: Hasher<F>, leaves: seq<F>, leaf: F, path: seq<F>, sides: seq<nat>, k: nat)
    requires Bits(sides) && |path| == |sides| && k <= |path|
    requires FoldRoot(h, leaf, path[..k], sides) == Node(h, leaves, k, Ancestor(Position(sides), k))
    ensures HonestTo(h, leaves, leaf, path, Position(sides), k) || exists j: nat :: CollidesAt(h, leaves, leaf, path, sides, j, k)
  {
    hide Node, Sibling, Ancestor, Position, FoldRoot;
    var pos := Position(sides);
    if k == 0 {
      ReachedLeaf(h, leaves, leaf, path, sides);
    } else {
      FoldStep(h, leaf, path, sides, k - 1);
      NodeStep(h, leaves, sides, k - 1);
      if ProofPair(h, leaf, path, sides, k - 1) == TreePair(h, leaves, pos, sides[k - 1], k - 1) {
        BindingPrefix(h, leaves, leaf, path, sides, k - 1);
        if !HonestTo(h, leaves, leaf, path, pos, k - 1) {
          var j: nat :| CollidesAt(h, leaves, leaf, path, sides, j, k - 1);
          assert CollidesAt(h, leaves, leaf, path, sides, j, k);
        }
      } else {
        assert CollidesAt(h, leaves, leaf, path, sides, k - 1, k);
      }
    }
  }

  lemma ReachedLeaf<F>(h: Hasher<F>, leaves: seq<F>, leaf: F, path: seq<F>, sides: seq<nat>)
    requires Bits(sides) && |path| == |sides|
    ensures FoldRoot(h, leaf, path[..0], sides) == leaf
    ensures Node(h, leaves, 0, Ancestor(Position(sides), 0)) == Leaf(h, leaves, Position(sides))
  {
  }

  /** Once a path has reached a node of the tree, honest siblings keep it there. */
  lemma {:induction false} StaysOnTree<F>(h: Hasher<F>, leaves: seq<F>, leaf: F, path: seq<F>, sides: seq<nat>, lo: nat, k: nat)
    requires Bits(sides) && |path| == |sides| && lo <= k <= |path|
    requires FoldRoot(h, leaf, path[..lo], sides) == Node(h, leaves, lo, Ancestor(Position(sides), lo))
    requires HonestAbove(h, leaves, Position(sides), path, lo, k)
    ensures FoldRoot(h, leaf, path[..k], sides) == Node(h, leaves, k, Ancestor(Position(sides), k))
  {
    hide Node, Sibling, Ancestor, Position, FoldRoot;
    if lo < k {
      StaysOnTree(h, leaves, leaf, path, sides, lo, k - 1);
      FoldStep(h, leaf, path, sides, k - 1);
      NodeStep(h, leaves, sides, k - 1);
    }
  }

  /** What an accepted proof determines, for every hash: a proof of full length with bit sides leads
      to the root exactly when it is the honest proof of the leaf at the position its sides spell
      out, or when on some level it hashes another pair than the tree to the same value. */
  lemma ProofsAreBinding<F(!new)>(h: Hasher<F>, leaves: seq<F>, leaf: F, path: seq<F>, sides: seq<nat>, depth: nat)
    requires Bits(sides) && |path| == |sides| == depth
    ensures FoldRoot(h, leaf, path, sides) == Node(h, leaves, depth, 0)
       <==> (leaf == Leaf(h, leaves, Position(sides)) && path == PathAt(h, leaves, Position(sides), depth))
            || exists j: nat :: CollidesAt(h, leaves, leaf, path, sides, j, depth)
  {
    hide Node, Sibling, Ancestor, Position, FoldRoot;
    var pos := Position(sides);
    TopAncestor(pos, depth);
    assert path[..depth] == path;
    PathIsHonest(h, leaves, leaf, path, pos);
    if FoldRoot(h, leaf, path, sides) == Node(h, leaves, depth, 0) {
      BindingPrefix(h, leaves, leaf, path, sides, depth);
    }
    if HonestTo(h, leaves, leaf, path, pos, depth) {
      ReachedLeaf(h, leaves, leaf, path, sides);
      StaysOnTree(h, leaves, leaf, path, sides, 0, depth);
    }
    if j: nat :| CollidesAt(h, leaves, leaf, path, sides, j, depth) {
      FoldStep(h, leaf, path, sides, j);
      NodeStep(h, leaves, sides, j);
      StaysOnTree(h, leaves, leaf, path, sides, j + 1, depth);
    }
  }

  lemma PathIsHonest<F>(h: Hasher<F>, leaves: seq<F>, leaf: F, path: seq<F>, pos: nat)
    ensures HonestTo(h, leaves, leaf, path, pos, |path|) <==>
            leaf == Leaf(h, leaves, pos) && path == PathAt(h, leaves, pos, |path|)
  {
    hide Node, Sibling, Ancestor;
  }

  ghost predicate Injective<F(!new)>(h: Hasher<F>) {
    forall a, b, c, d :: h.compress(a, b) == h.compress(c, d) ==> a == c && b == d
  }

  /** Without collisions only the honest proof is accepted. */
  lemma InjectiveHashBinds<F(!new)>(h: Hasher<F>, leaves: seq<F>, leaf: F, path: seq<F>, sides: seq<nat>, depth: nat)
    requires Injective(h) && Bits(sides) && |path| == |sides| == depth
    ensures FoldRoot(h, leaf, path, sides) == Node(h, leaves, depth, 0)
       <==> leaf == Leaf(h, leaves, Position(sides)) && path == PathAt(h, leaves, Position(sides), depth)
  {
    hide Node, Position, FoldRoot, ProofPair, TreePair, HonestAbove;
    ProofsAreBinding(h, leaves, leaf, path, sides, depth);
  }

  /** A node hashes its left child before its right one; in a tree of two leaves, side 1 is that of the first
      leaf, with the second leaf as its sibling, and side 0 that of the second. */
  lemma LeftBeforeRight<F>(h: Hasher<F>, leaves: seq<F>, level: nat, idx: nat, a: F, b: F)
    ensures Node(h, leaves, level + 1, idx) == h.compress(Node(h, leaves, level, 2 * idx), Node(h, leaves, level, 2 * idx + 1))
    ensures Node(h, [a, b], 1, 0) == h.compress(a, b) && Node(h, [a], 1, 0) == h.compress(a, h.z0)
    ensures PathAt(h, [a, b], 0, 1) == [b] && SidesAt(0, 1) == [1] && FoldRoot(h, a, [b], [1]) == h.compress(a, b)
    ensures PathAt(h, [a, b], 1, 1) == [a] && SidesAt(1, 1) == [0] && FoldRoot(h, b, [a], [0]) == h.compress(a, b)
  {
    assert FoldRoot(h, a, [b][..0], [1]) == a && FoldRoot(h, b, [a][..0], [0]) == b;
  }
}
