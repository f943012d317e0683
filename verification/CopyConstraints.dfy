/**
 What the two grand products of the permutation argument compare: at more challenges than there are
 cells they are equal exactly when the values agree along the permutation the identities encode.
 */
module CopyConstraints {
  import opened Fields
  import opened Polynomials
  import opened Vanishing
  import opened LinearProducts
  import opened Domain
  import opened Permutation
  import opened PermutationArgument

  // ----- the cells of the usable rows -----

  ghost function RowCells(r: nat, columns: nat): (s: seq<(nat, nat)>)
    ensures |s| == columns && forall j :: 0 <= j < columns ==> s[j] == (r, j)
  {
    seq(columns, j requires 0 <= j < columns => (r, j))
  }

  /** All cells, row by row. */
  ghost function Cells(rows: nat, columns: nat): seq<(nat, nat)> {
    if rows == 0 then [] else Cells(rows - 1, columns) + RowCells(rows - 1, columns)
  }

  lemma {:induction false} CellsSpec(rows: nat, columns: nat)
    ensures Distinct(Cells(rows, columns)) && |Cells(rows, columns)| == rows * columns
    ensures forall c: (nat, nat) :: c in Cells(rows, columns) <==> c.0 < rows && c.1 < columns
  {
    if rows > 0 {
      CellsSpec(rows - 1, columns);
      var last := RowCells(rows - 1, columns);
      forall c: (nat, nat) | c.0 == rows - 1 && c.1 < columns ensures c in last {
        assert last[c.1] == c;
      }
    }
  }

  // ----- products of factors `v + beta*s + gamma` -----

  /** The negated `v + beta*s`: the root of the factor as a polynomial in gamma. */
  ghost function RootOf<F(!new)>(f: Field<F>, beta: F, p: (F, F)): F {
    f.neg(f.add(p.0, f.mul(beta, p.1)))
  }

  ghost function Roots<F(!new)>(f: Field<F>, beta: F, s: seq<(F, F)>): (r: seq<F>)
    ensures |r| == |s|
  {
    Mapped(s, (p: (F, F)) => RootOf(f, beta, p))
  }

  lemma FactorOfRoot<F(!new)>(f: Field<F>, beta: F, gamma: F, p: (F, F))
    requires f.Valid()
    ensures f.add(f.add(p.0, f.mul(beta, p.1)), gamma) == f.Sub(gamma, RootOf(f, beta, p))
  {
    var i, j, k, l := f.rep(p.0), f.rep(p.1), f.rep(beta), f.rep(gamma);
    assert i + k * j + l == l - -(i + k * j);
  }

  /** The cells of one row and their factors. */
  ghost predicate IsFactorRow<F(!new)>(f: Field<F>, beta: F, gamma: F, pairs: seq<(F, F)>, factors: seq<F>) {
    |pairs| == |factors| &&
    forall j :: 0 <= j < |pairs| ==> factors[j] == f.add(f.add(pairs[j].0, f.mul(beta, pairs[j].1)), gamma)
  }

  lemma {:induction false} RowProduct<F(!new)>(f: Field<F>, beta: F, gamma: F, pairs: seq<(F, F)>, factors: seq<F>)
    requires f.Valid() && IsFactorRow(f, beta, gamma, pairs, factors)
    ensures Prod(f, factors) == Vanish(f, Roots(f, beta, pairs), gamma)
  {
    hide Field.Valid, RootOf;
    if pairs != [] {
      var n := |pairs| - 1;
      RowProduct(f, beta, gamma, pairs[..n], factors[..n]);
      assert Roots(f, beta, pairs)[..n] == Roots(f, beta, pairs[..n]);
      FactorOfRoot(f, beta, gamma, pairs[n]);
    }
  }

  lemma {:induction false} VanishConcat<F(!new)>(f: Field<F>, a: seq<F>, b: seq<F>, x: F)
    requires f.Valid()
    ensures Vanish(f, a + b, x) == f.mul(Vanish(f, a, x), Vanish(f, b, x))
  {
    hide Field.Valid;
    if b == [] {
      assert a + b == a;
      MulOne(f, Vanish(f, a, x));
    } else {
      var n := |b| - 1;
      VanishConcat(f, a, b[..n], x);
      assert (a + b)[..|a + b| - 1] == a + b[..n];
      MulAssoc(f, Vanish(f, a, x), Vanish(f, b[..n], x), f.Sub(x, b[n]));
    }
  }

  lemma RootsConcat<F(!new)>(f: Field<F>, beta: F, a: seq<(F, F)>, b: seq<(F, F)>)
    ensures Roots(f, beta, a + b) == Roots(f, beta, a) + Roots(f, beta, b)
  {
    hide RootOf;
  }

  // ----- the two lists of pairs -----

  /** The identity of a cell: `delta^j * omega^r`. */
  ghost function Identity<F(!new)>(f: Field<F>, c: Circuit<F>, cell: (nat, nat)): F {
    f.mul(Pow(f, c.delta, cell.1), Pow(f, c.omega, cell.0))
  }

  ghost function EntryAt<F(!new)>(f: Field<F>, m: seq<seq<F>>, cell: (nat, nat)): F {
    if cell.0 < |m| && cell.1 < |m[cell.0]| then m[cell.0][cell.1] else f.Zero()
  }

  /** Every cell's value with its entry in the permutation columns. */
  ghost function SigmaPairs<F(!new)>(f: Field<F>, t: Trace<F>, cells: seq<(nat, nat)>): (s: seq<(F, F)>)
    ensures |s| == |cells|
  {
    Mapped(cells, (cell: (nat, nat)) => (EntryAt(f, t.values, cell), EntryAt(f, t.sigmas, cell)))
  }

  /** Every cell's value with its own identity. */
  ghost function IdentityPairs<F(!new)>(f: Field<F>, c: Circuit<F>, t: Trace<F>, cells: seq<(nat, nat)>): (s: seq<(F, F)>)
    ensures |s| == |cells|
  {
    Mapped(cells, (cell: (nat, nat)) => (EntryAt(f, t.values, cell), Identity(f, c, cell)))
  }

  lemma LeftRow<F(!new)>(f: Field<F>, c: Circuit<F>, t: Trace<F>, r: nat)
    requires OnDomain(c, t) && r < c.n
    ensures IsFactorRow(f, c.beta, c.gamma, SigmaPairs(f, t, RowCells(r, c.columns)), LeftAt(f, c, t, r))
  {
  }

  lemma RightRow<F(!new)>(f: Field<F>, c: Circuit<F>, t: Trace<F>, r: nat)
    requires f.Valid() && OnDomain(c, t) && r < c.n
    ensures IsFactorRow(f, c.beta, c.gamma, IdentityPairs(f, c, t, RowCells(r, c.columns)), RightAt(f, c, t, r))
  {
    hide Field.Valid, Pow;
    forall j | 0 <= j < c.columns
      ensures f.mul(f.mul(c.beta, Pow(f, c.omega, r)), Pow(f, c.delta, j)) == f.mul(c.beta, Identity(f, c, (r, j)))
    {
      MulAssoc(f, c.beta, Pow(f, c.omega, r), Pow(f, c.delta, j));
      MulComm(f, Pow(f, c.omega, r), Pow(f, c.delta, j));
    }
  }

  /** The matrix has these factor rows. */
  ghost predicate IsFactorMatrix<F(!new)>(f: Field<F>, beta: F, gamma: F, pairs: seq<(nat, nat)> -> seq<(F, F)>, columns: nat, m: seq<seq<F>>) {
    && (forall r :: 0 <= r < |m| ==> |m[r]| == columns && IsFactorRow(f, beta, gamma, pairs(RowCells(r, columns)), m[r]))
    && (forall a, b :: pairs(a + b) == pairs(a) + pairs(b)) && pairs([]) == []
  }

  lemma {:induction false} MatrixProduct<F(!new)>(f: Field<F>, beta: F, gamma: F, pairs: seq<(nat, nat)> -> seq<(F, F)>, columns: nat,
                                                  m: seq<seq<F>>, n: nat)
    requires f.Valid() && IsFactorMatrix(f, beta, gamma, pairs, columns, m) && n <= |m|
    ensures Prod(f, RowProducts(f, m, columns, 0, columns)[..n]) == Vanish(f, Roots(f, beta, pairs(Cells(n, columns))), gamma)
  {
    hide Field.Valid, Prod, Vanish, Roots, IsFactorRow;
    var rows := RowProducts(f, m, columns, 0, columns);
    if n == 0 {
      EmptyProducts(f, beta, gamma);
    } else {
      MatrixProduct(f, beta, gamma, pairs, columns, m, n - 1);
      var done, last := pairs(Cells(n - 1, columns)), pairs(RowCells(n - 1, columns));
      assert rows[..n] == rows[..n - 1] + [rows[n - 1]];
      ProdSnoc(f, rows[..n - 1], rows[n - 1]);
      assert m[n - 1][0..columns] == m[n - 1];
      RowProduct(f, beta, gamma, last, m[n - 1]);
      RootsConcat(f, beta, done, last);
      VanishConcat(f, Roots(f, beta, done), Roots(f, beta, last), gamma);
    }
  }

  lemma EmptyProducts<F(!new)>(f: Field<F>, beta: F, gamma: F)
    ensures Prod(f, []) == f.One() == Vanish(f, Roots(f, beta, []), gamma)
  {
  }

  lemma MappedConcat<A(!new), B(!new)>(a: seq<A>, b: seq<A>, m: A -> B)
    ensures Mapped(a + b, m) == Mapped(a, m) + Mapped(b, m)
  {
  }

  /** The left grand product is the product of `v + beta*sigma + gamma` over all cells. */
  lemma LeftGrandProduct<F(!new)>(f: Field<F>, c: Circuit<F>, t: Trace<F>)
    requires f.Valid() && OnDomain(c, t)
    ensures GrandProduct(f, LeftMatrix(f, c, t), c.columns, 0, c.columns)
         == Vanish(f, Roots(f, c.beta, SigmaPairs(f, t, Cells(Usable(c), c.columns))), c.gamma)
  {
    hide Field.Valid, Prod, Vanish, Roots, LeftAt, IsFactorRow, SigmaPairs;
    var m := LeftMatrix(f, c, t);
    var pairs := (cells: seq<(nat, nat)>) => SigmaPairs(f, t, cells);
    forall r | 0 <= r < |m| ensures |m[r]| == c.columns && IsFactorRow(f, c.beta, c.gamma, pairs(RowCells(r, c.columns)), m[r]) {
      LeftRow(f, c, t, r);
    }
    forall a, b ensures pairs(a + b) == pairs(a) + pairs(b) {
      SigmaPairsConcat(f, t, a, b);
    }
    MatrixProduct(f, c.beta, c.gamma, pairs, c.columns, m, |m|);
    var rows := RowProducts(f, m, c.columns, 0, c.columns);
    assert rows[..|m|] == rows;
  }

  lemma SigmaPairsConcat<F(!new)>(f: Field<F>, t: Trace<F>, a: seq<(nat, nat)>, b: seq<(nat, nat)>)
    ensures SigmaPairs(f, t, a + b) == SigmaPairs(f, t, a) + SigmaPairs(f, t, b)
  {
    hide EntryAt;
    MappedConcat(a, b, (cell: (nat, nat)) => (EntryAt(f, t.values, cell), EntryAt(f, t.sigmas, cell)));
  }

  /** The right grand product is the product of `v + beta*delta^j*omega^r + gamma` over all cells. */
  lemma RightGrandProduct<F(!new)>(f: Field<F>, c: Circuit<F>, t: Trace<F>)
    requires f.Valid() && OnDomain(c, t)
    ensures GrandProduct(f, RightMatrix(f, c, t), c.columns, 0, c.columns)
         == Vanish(f, Roots(f, c.beta, IdentityPairs(f, c, t, Cells(Usable(c), c.columns))), c.gamma)
  {
    hide Field.Valid, Prod, Vanish, Roots, RightAt, IsFactorRow, IdentityPairs;
    var m := RightMatrix(f, c, t);
    var pairs := (cells: seq<(nat, nat)>) => IdentityPairs(f, c, t, cells);
    forall r | 0 <= r < |m| ensures |m[r]| == c.columns && IsFactorRow(f, c.beta, c.gamma, pairs(RowCells(r, c.columns)), m[r]) {
      RightRow(f, c, t, r);
    }
    forall a, b ensures pairs(a + b) == pairs(a) + pairs(b) {
      IdentityPairsConcat(f, c, t, a, b);
    }
    MatrixProduct(f, c.beta, c.gamma, pairs, c.columns, m, |m|);
    var rows := RowProducts(f, m, c.columns, 0, c.columns);
    assert rows[..|m|] == rows;
  }

  lemma IdentityPairsConcat<F(!new)>(f: Field<F>, c: Circuit<F>, t: Trace<F>, a: seq<(nat, nat)>, b: seq<(nat, nat)>)
    ensures IdentityPairs(f, c, t, a + b) == IdentityPairs(f, c, t, a) + IdentityPairs(f, c, t, b)
  {
    hide EntryAt, Identity;
    MappedConcat(a, b, (cell: (nat, nat)) => (EntryAt(f, t.values, cell), Identity(f, c, cell)));
  }

  // ----- from roots to pairs -----

  /** Two lines that meet twice are the same. */
  lemma LinesMeetOnce<F(!new)>(f: Field<F>, p: (F, F), q: (F, F), b1: F, b2: F)
    requires f.Valid() && b1 != b2 && RootOf(f, b1, p) == RootOf(f, b1, q) && RootOf(f, b2, p) == RootOf(f, b2, q)
    ensures p == q
  {
    hide Field.Valid;
    NegInjective(f, f.add(p.0, f.mul(b1, p.1)), f.add(q.0, f.mul(b1, q.1)));
    NegInjective(f, f.add(p.0, f.mul(b2, p.1)), f.add(q.0, f.mul(b2, q.1)));
    SlopesAgree(f, p, q, b1, b2);
    SubIsZero(f, b1, b2);
    NoZeroDivisors(f, f.Sub(b1, b2), f.Sub(p.1, q.1));
    SubIsZero(f, p.1, q.1);
    CancelTerm(f, p.0, q.0, f.mul(b1, p.1));
  }

  lemma NegInjective<F(!new)>(f: Field<F>, a: F, b: F)
    requires f.Valid() && f.neg(a) == f.neg(b)
    ensures a == b
  {
    var i, j := f.rep(a), f.rep(b);
    assert f.neg(f.neg(a)) == a && f.neg(f.neg(b)) == b by {
      assert f.neg(a) == f.of(-i) && f.neg(b) == f.of(-j);
      assert - -i == i && - -j == j;
    }
  }

  lemma CancelTerm<F(!new)>(f: Field<F>, a: F, b: F, t: F)
    requires f.Valid() && f.add(a, t) == f.add(b, t)
    ensures a == b
  {
    hide Field.Valid;
    AddThenSubtract(f, a, t);
    AddThenSubtract(f, b, t);
  }

  lemma AddThenSubtract<F(!new)>(f: Field<F>, a: F, t: F)
    requires f.Valid()
    ensures f.Sub(f.add(a, t), t) == a
  {
    var i, k := f.rep(a), f.rep(t);
    assert i + k - k == i;
  }

  lemma SlopesAgree<F(!new)>(f: Field<F>, p: (F, F), q: (F, F), b1: F, b2: F)
    requires f.Valid()
    requires f.add(p.0, f.mul(b1, p.1)) == f.add(q.0, f.mul(b1, q.1)) && f.add(p.0, f.mul(b2, p.1)) == f.add(q.0, f.mul(b2, q.1))
    ensures f.mul(f.Sub(b1, b2), f.Sub(p.1, q.1)) == f.Zero()
  {
    hide Field.Valid;
    SlopeDifference(f, p.0, p.1, q.0, q.1, b1, b2);
    var l, r := f.Sub(f.add(p.0, f.mul(b1, p.1)), f.add(q.0, f.mul(b1, q.1))), f.Sub(f.add(p.0, f.mul(b2, p.1)), f.add(q.0, f.mul(b2, q.1)));
    SubIsZero(f, f.add(p.0, f.mul(b1, p.1)), f.add(q.0, f.mul(b1, q.1)));
    SubIsZero(f, f.add(p.0, f.mul(b2, p.1)), f.add(q.0, f.mul(b2, q.1)));
    SubIsZero(f, l, r);
  }

  lemma SlopeDifference<F(!new)>(f: Field<F>, p0: F, p1: F, q0: F, q1: F, b1: F, b2: F)
    requires f.Valid()
    ensures f.mul(f.Sub(b1, b2), f.Sub(p1, q1))
         == f.Sub(f.Sub(f.add(p0, f.mul(b1, p1)), f.add(q0, f.mul(b1, q1))), f.Sub(f.add(p0, f.mul(b2, p1)), f.add(q0, f.mul(b2, q1))))
  {
    hide *;
    SlopeLeft(f, p1, q1, b1, b2);
    SlopeRight(f, p0, p1, q0, q1, b1, b2);
    SlopeIntegers(f.rep(p0), f.rep(p1), f.rep(q0), f.rep(q1), f.rep(b1), f.rep(b2));
  }

  lemma SlopeIntegers(i: int, j: int, k: int, l: int, m: int, n: int)
    ensures (m - n) * (j - l) == ((i + m * j) - (k + m * l)) - ((i + n * j) - (k + n * l))
  {
  }

  lemma SlopeLeft<F(!new)>(f: Field<F>, p1: F, q1: F, b1: F, b2: F)
    requires f.Valid()
    ensures f.mul(f.Sub(b1, b2), f.Sub(p1, q1)) == f.of((f.rep(b1) - f.rep(b2)) * (f.rep(p1) - f.rep(q1)))
  {
  }

  lemma SlopeRight<F(!new)>(f: Field<F>, p0: F, p1: F, q0: F, q1: F, b1: F, b2: F)
    requires f.Valid()
    ensures f.Sub(f.Sub(f.add(p0, f.mul(b1, p1)), f.add(q0, f.mul(b1, q1))), f.Sub(f.add(p0, f.mul(b2, p1)), f.add(q0, f.mul(b2, q1))))
         == f.of(((f.rep(p0) + f.rep(b1) * f.rep(p1)) - (f.rep(q0) + f.rep(b1) * f.rep(q1)))
                 - ((f.rep(p0) + f.rep(b2) * f.rep(p1)) - (f.rep(q0) + f.rep(b2) * f.rep(q1))))
  {
    Line(f, p0, p1, b1);
    Line(f, q0, q1, b1);
    Line(f, p0, p1, b2);
    Line(f, q0, q1, b2);
  }

  lemma Line<F(!new)>(f: Field<F>, a: F, s: F, b: F)
    requires f.Valid()
    ensures f.add(a, f.mul(b, s)) == f.of(f.rep(a) + f.rep(b) * f.rep(s))
  {
  }

  /** For every one of these challenges the roots are the same up to order. */
  ghost predicate SameRoots<F(!new)>(f: Field<F>, betas: seq<F>, s: seq<(F, F)>, t: seq<(F, F)>) {
    forall i :: 0 <= i < |betas| ==> multiset(Roots(f, betas[i], s)) == multiset(Roots(f, betas[i], t))
  }

  /** A pair of one list is found in the other. */
  lemma PairOccurs<F(!new)>(f: Field<F>, betas: seq<F>, s: seq<(F, F)>, t: seq<(F, F)>, j: nat) returns (k: nat)
    requires f.Valid() && Distinct(betas) && |s| == |t| < |betas| && SameRoots(f, betas, s, t) && j < |s|
    ensures k < |t| && t[k] == s[j]
  {
    hide Field.Valid, RootOf;
    var ks: seq<nat> := [];
    for i := 0 to |betas|
      invariant |ks| == i
      invariant forall l :: 0 <= l < i ==> ks[l] < |t| && RootOf(f, betas[l], t[ks[l]]) == RootOf(f, betas[l], s[j])
    {
      var root := Roots(f, betas[i], s)[j];
      assert root in multiset(Roots(f, betas[i], s));
      assert root in multiset(Roots(f, betas[i], t));
      assert root in Roots(f, betas[i], t);
      var m: nat :| m < |t| && Roots(f, betas[i], t)[m] == root;
      ks := ks + [m];
    }
    var x, y := Pigeonhole(ks, |t|);
    k := ks[x];
    LinesMeetOnce(f, t[k], s[j], betas[x], betas[y]);
  }

  lemma SameRootsWithout<F(!new)>(f: Field<F>, betas: seq<F>, s: seq<(F, F)>, t: seq<(F, F)>, j: nat, k: nat)
    requires SameRoots(f, betas, s, t) && j < |s| && k < |t| && t[k] == s[j]
    ensures SameRoots(f, betas, Without(s, j), Without(t, k))
  {
    hide RootOf;
    forall i | 0 <= i < |betas| ensures multiset(Roots(f, betas[i], Without(s, j))) == multiset(Roots(f, betas[i], Without(t, k))) {
      var m := (p: (F, F)) => RootOf(f, betas[i], p);
      MappedWithout(s, j, m);
      MappedWithout(t, k, m);
      assert multiset(Mapped(Without(s, j), m)) == multiset(Mapped(s, m)) - multiset{m(s[j])};
      assert multiset(Mapped(Without(t, k), m)) == multiset(Mapped(t, m)) - multiset{m(s[j])};
    }
  }

  lemma {:induction false} PairsDetermined<F(!new)>(f: Field<F>, betas: seq<F>, s: seq<(F, F)>, t: seq<(F, F)>)
    requires f.Valid() && Distinct(betas) && |s| == |t| < |betas| && SameRoots(f, betas, s, t)
    ensures multiset(s) == multiset(t)
    decreases |s|
  {
    hide Field.Valid, RootOf, SameRoots;
    if s != [] {
      var k := PairOccurs(f, betas, s, t, 0);
      SameRootsWithout(f, betas, s, t, 0, k);
      PairsDetermined(f, betas, Without(s, 0), Without(t, k));
      TakeOut(s, 0);
      TakeOut(t, k);
    }
  }

  // ----- the argument -----

  /** The circuit with other challenges. */
  ghost function WithChallenges<F>(c: Circuit<F>, beta: F, gamma: F): Circuit<F> {
    c.(beta := beta, gamma := gamma)
  }

  /** The two grand products are equal for every pair of these challenges. */
  ghost predicate ProductsAgree<F(!new)>(f: Field<F>, c: Circuit<F>, t: Trace<F>, betas: seq<F>, gammas: seq<F>)
    requires OnDomain(c, t)
  {
    forall i, j :: 0 <= i < |betas| && 0 <= j < |gammas| ==>
      var d := WithChallenges(c, betas[i], gammas[j]);
      GrandProduct(f, LeftMatrix(f, d, t), d.columns, 0, d.columns) == GrandProduct(f, RightMatrix(f, d, t), d.columns, 0, d.columns)
  }

  ghost predicate Enough<F(!new)>(c: Circuit<F>, betas: seq<F>, gammas: seq<F>)
    requires c.blinding + 1 <= c.n
  {
    Distinct(betas) && Distinct(gammas) && |Cells(Usable(c), c.columns)| < |betas| && |Cells(Usable(c), c.columns)| < |gammas|
  }

  /** At more challenges than cells the products agree exactly when the pairs (value, sigma) are the pairs
      (value, identity) in another order. */
  lemma ProductsComparePairs<F(!new)>(f: Field<F>, c: Circuit<F>, t: Trace<F>, betas: seq<F>, gammas: seq<F>)
    requires f.Valid() && OnDomain(c, t) && Enough(c, betas, gammas)
    ensures var cells := Cells(Usable(c), c.columns);
      ProductsAgree(f, c, t, betas, gammas) <==> multiset(SigmaPairs(f, t, cells)) == multiset(IdentityPairs(f, c, t, cells))
  {
    hide Field.Valid, SigmaPairs, IdentityPairs, Roots, Vanish, GrandProduct, LeftMatrix, RightMatrix, Cells, SameRoots;
    var cells := Cells(Usable(c), c.columns);
    var s, u := SigmaPairs(f, t, cells), IdentityPairs(f, c, t, cells);
    if ProductsAgree(f, c, t, betas, gammas) {
      AgreeingRoots(f, c, t, betas, gammas);
      PairsDetermined(f, betas, s, u);
    }
    if multiset(s) == multiset(u) {
      forall i, j | 0 <= i < |betas| && 0 <= j < |gammas|
        ensures var d := WithChallenges(c, betas[i], gammas[j]);
          GrandProduct(f, LeftMatrix(f, d, t), d.columns, 0, d.columns) == GrandProduct(f, RightMatrix(f, d, t), d.columns, 0, d.columns)
      {
        ProductsAt(f, c, t, betas[i], gammas[j]);
        RootsPermuted(f, betas[i], s, u);
        VanishPermuted(f, Roots(f, betas[i], s), Roots(f, betas[i], u), gammas[j]);
      }
    }
  }

  lemma RootsPermuted<F(!new)>(f: Field<F>, beta: F, s: seq<(F, F)>, u: seq<(F, F)>)
    requires multiset(s) == multiset(u)
    ensures multiset(Roots(f, beta, s)) == multiset(Roots(f, beta, u))
  {
    MappedPermuted(s, u, (p: (F, F)) => RootOf(f, beta, p));
  }

  /** Both products at one pair of challenges. */
  lemma ProductsAt<F(!new)>(f: Field<F>, c: Circuit<F>, t: Trace<F>, beta: F, gamma: F)
    requires f.Valid() && OnDomain(c, t)
    ensures var d, cells := WithChallenges(c, beta, gamma), Cells(Usable(c), c.columns);
      && GrandProduct(f, LeftMatrix(f, d, t), d.columns, 0, d.columns) == Vanish(f, Roots(f, beta, SigmaPairs(f, t, cells)), gamma)
      && GrandProduct(f, RightMatrix(f, d, t), d.columns, 0, d.columns) == Vanish(f, Roots(f, beta, IdentityPairs(f, c, t, cells)), gamma)
  {
    hide Field.Valid, SigmaPairs, Roots, Vanish, GrandProduct, LeftMatrix, RightMatrix, Cells;
    var d, cells := WithChallenges(c, beta, gamma), Cells(Usable(c), c.columns);
    LeftGrandProduct(f, d, t);
    RightGrandProduct(f, d, t);
    SameIdentities(f, c, beta, gamma, t, cells);
  }

  lemma SameIdentities<F(!new)>(f: Field<F>, c: Circuit<F>, beta: F, gamma: F, t: Trace<F>, cells: seq<(nat, nat)>)
    ensures IdentityPairs(f, WithChallenges(c, beta, gamma), t, cells) == IdentityPairs(f, c, t, cells)
  {
    hide EntryAt, Pow;
  }

  lemma AgreeingRoots<F(!new)>(f: Field<F>, c: Circuit<F>, t: Trace<F>, betas: seq<F>, gammas: seq<F>)
    requires f.Valid() && OnDomain(c, t) && Enough(c, betas, gammas) && ProductsAgree(f, c, t, betas, gammas)
    ensures var cells := Cells(Usable(c), c.columns); SameRoots(f, betas, SigmaPairs(f, t, cells), IdentityPairs(f, c, t, cells))
  {
    hide Field.Valid, SigmaPairs, IdentityPairs, Roots, Vanish, GrandProduct, LeftMatrix, RightMatrix, Cells;
    var cells := Cells(Usable(c), c.columns);
    var s, u := SigmaPairs(f, t, cells), IdentityPairs(f, c, t, cells);
    forall i | 0 <= i < |betas| ensures multiset(Roots(f, betas[i], s)) == multiset(Roots(f, betas[i], u)) {
      forall j | 0 <= j < |gammas| ensures Vanish(f, Roots(f, betas[i], s), gammas[j]) == Vanish(f, Roots(f, betas[i], u), gammas[j]) {
        ProductsAt(f, c, t, betas[i], gammas[j]);
      }
      VanishDetermines(f, Roots(f, betas[i], s), Roots(f, betas[i], u), gammas);
    }
  }

  /** The permutation columns encode the permutation pi of the usable cells. */
  ghost predicate Encodes<F(!new)>(f: Field<F>, c: Circuit<F>, t: Trace<F>, pi: ((nat, nat)) -> (nat, nat))
    requires OnDomain(c, t)
  {
    var cells := Cells(Usable(c), c.columns);
    && (forall x :: x in cells ==> pi(x) in cells && EntryAt(f, t.sigmas, x) == Identity(f, c, pi(x)))
    && (forall x, y :: x in cells && y in cells && pi(x) == pi(y) ==> x == y)
    && (forall x, y :: x in cells && y in cells && Identity(f, c, x) == Identity(f, c, y) ==> x == y)
  }

  /** Every cell has the value of the cell it is copied to. */
  ghost predicate CopiesHold<F(!new)>(f: Field<F>, c: Circuit<F>, t: Trace<F>, pi: ((nat, nat)) -> (nat, nat))
    requires OnDomain(c, t)
  {
    forall x :: x in Cells(Usable(c), c.columns) ==> EntryAt(f, t.values, x) == EntryAt(f, t.values, pi(x))
  }

  lemma CopiesPermutePairs<F(!new)>(f: Field<F>, c: Circuit<F>, t: Trace<F>, pi: ((nat, nat)) -> (nat, nat))
    requires OnDomain(c, t) && Encodes(f, c, t, pi)
    ensures var cells := Cells(Usable(c), c.columns);
      CopiesHold(f, c, t, pi) <==> multiset(SigmaPairs(f, t, cells)) == multiset(IdentityPairs(f, c, t, cells))
  {
    hide EntryAt, Identity, Cells, SigmaPairs, IdentityPairs, Encodes;
    var cells := Cells(Usable(c), c.columns);
    var s, u := SigmaPairs(f, t, cells), IdentityPairs(f, c, t, cells);
    if CopiesHold(f, c, t, pi) {
      PairsAlong(f, c, t, pi);
    }
    if multiset(s) == multiset(u) {
      forall x | x in cells ensures EntryAt(f, t.values, x) == EntryAt(f, t.values, pi(x)) {
        CopyOfCell(f, c, t, pi, x);
      }
    }
  }

  lemma EncodesAt<F(!new)>(f: Field<F>, c: Circuit<F>, t: Trace<F>, pi: ((nat, nat)) -> (nat, nat), x: (nat, nat), y: (nat, nat))
    requires OnDomain(c, t) && Encodes(f, c, t, pi) && x in Cells(Usable(c), c.columns) && y in Cells(Usable(c), c.columns)
    ensures pi(x) in Cells(Usable(c), c.columns) && EntryAt(f, t.sigmas, x) == Identity(f, c, pi(x))
    ensures pi(x) == pi(y) ==> x == y
    ensures Identity(f, c, x) == Identity(f, c, y) ==> x == y
  {
    hide EntryAt, Identity, Cells;
  }

  lemma PairAt<F(!new)>(f: Field<F>, c: Circuit<F>, t: Trace<F>, cells: seq<(nat, nat)>, i: nat)
    requires i < |cells|
    ensures SigmaPairs(f, t, cells)[i] == (EntryAt(f, t.values, cells[i]), EntryAt(f, t.sigmas, cells[i]))
    ensures IdentityPairs(f, c, t, cells)[i] == (EntryAt(f, t.values, cells[i]), Identity(f, c, cells[i]))
  {
    hide EntryAt, Identity;
  }

  lemma CopyOfCell<F(!new)>(f: Field<F>, c: Circuit<F>, t: Trace<F>, pi: ((nat, nat)) -> (nat, nat), x: (nat, nat))
    requires OnDomain(c, t) && Encodes(f, c, t, pi) && x in Cells(Usable(c), c.columns)
    requires var cells := Cells(Usable(c), c.columns); multiset(SigmaPairs(f, t, cells)) == multiset(IdentityPairs(f, c, t, cells))
    ensures EntryAt(f, t.values, x) == EntryAt(f, t.values, pi(x))
  {
    hide EntryAt, Identity, Cells, Encodes, SigmaPairs, IdentityPairs;
    var cells := Cells(Usable(c), c.columns);
    var s, u := SigmaPairs(f, t, cells), IdentityPairs(f, c, t, cells);
    var i :| 0 <= i < |cells| && cells[i] == x;
    InPermuted(s, u, i);
    var k :| 0 <= k < |u| && u[k] == s[i];
    PairAt(f, c, t, cells, i);
    PairAt(f, c, t, cells, k);
    EncodesAt(f, c, t, pi, x, x);
    EncodesAt(f, c, t, pi, cells[k], pi(x));
  }

  lemma InPermuted<T>(s: seq<T>, u: seq<T>, i: nat)
    requires multiset(s) == multiset(u) && i < |s|
    ensures s[i] in u
  {
    assert s[i] in multiset(s);
    assert s[i] in multiset(u);
  }

  lemma PairsAlong<F(!new)>(f: Field<F>, c: Circuit<F>, t: Trace<F>, pi: ((nat, nat)) -> (nat, nat))
    requires OnDomain(c, t) && Encodes(f, c, t, pi) && CopiesHold(f, c, t, pi)
    ensures var cells := Cells(Usable(c), c.columns); multiset(SigmaPairs(f, t, cells)) == multiset(IdentityPairs(f, c, t, cells))
  {
    hide EntryAt, Identity, Cells, Encodes, SigmaPairs, CopiesHold;
    var cells := Cells(Usable(c), c.columns);
    MovedCells(f, c, t, pi);
    var moved := Mapped(cells, pi);
    var m := (cell: (nat, nat)) => (EntryAt(f, t.values, cell), Identity(f, c, cell));
    MappedPermuted(moved, cells, m);
    forall i | 0 <= i < |cells| ensures SigmaPairs(f, t, cells)[i] == Mapped(moved, m)[i] {
      PairAt(f, c, t, cells, i);
      EncodesAt(f, c, t, pi, cells[i], cells[i]);
      CopyAt(f, c, t, pi, cells[i]);
    }
    assert SigmaPairs(f, t, cells) == Mapped(moved, m);
  }

  lemma CopyAt<F(!new)>(f: Field<F>, c: Circuit<F>, t: Trace<F>, pi: ((nat, nat)) -> (nat, nat), x: (nat, nat))
    requires OnDomain(c, t) && CopiesHold(f, c, t, pi) && x in Cells(Usable(c), c.columns)
    ensures EntryAt(f, t.values, x) == EntryAt(f, t.values, pi(x))
  {
    hide EntryAt, Cells;
  }

  /** The permutation only reorders the cells. */
  lemma MovedCells<F(!new)>(f: Field<F>, c: Circuit<F>, t: Trace<F>, pi: ((nat, nat)) -> (nat, nat))
    requires OnDomain(c, t) && Encodes(f, c, t, pi)
    ensures var cells := Cells(Usable(c), c.columns); multiset(Mapped(cells, pi)) == multiset(cells)
  {
    hide EntryAt, Identity, Cells, Encodes;
    var cells := Cells(Usable(c), c.columns);
    CellsSpec(Usable(c), c.columns);
    var moved := Mapped(cells, pi);
    forall x | x in moved ensures x in cells {
      var i :| 0 <= i < |moved| && moved[i] == x;
      EncodesAt(f, c, t, pi, cells[i], cells[i]);
    }
    forall i, j | 0 <= i < j < |moved| ensures moved[i] != moved[j] {
      EncodesAt(f, c, t, pi, cells[i], cells[j]);
    }
    SameElements(moved, cells);
  }

  /** The copy-constraint argument: at more challenges than there are cells the two grand products are
      equal if and only if every cell has the value of the cell the permutation sends it to. */
  lemma ProductsAgreeIffCopiesHold<F(!new)>(f: Field<F>, c: Circuit<F>, t: Trace<F>, pi: ((nat, nat)) -> (nat, nat),
                                            betas: seq<F>, gammas: seq<F>)
    requires f.Valid() && OnDomain(c, t) && Encodes(f, c, t, pi) && Enough(c, betas, gammas)
    ensures ProductsAgree(f, c, t, betas, gammas) <==> CopiesHold(f, c, t, pi)
  {
    hide Field.Valid, ProductsAgree, CopiesHold, Encodes, SigmaPairs, IdentityPairs, Cells, Enough;
    ProductsComparePairs(f, c, t, betas, gammas);
    CopiesPermutePairs(f, c, t, pi);
  }

  /** Values that agree along the permutation give equal products for every challenge. */
  lemma CopiesGiveEqualProducts<F(!new)>(f: Field<F>, c: Circuit<F>, t: Trace<F>, pi: ((nat, nat)) -> (nat, nat))
    requires f.Valid() && OnDomain(c, t) && Encodes(f, c, t, pi) && CopiesHold(f, c, t, pi)
    ensures GrandProduct(f, LeftMatrix(f, c, t), c.columns, 0, c.columns) == GrandProduct(f, RightMatrix(f, c, t), c.columns, 0, c.columns)
  {
    hide Field.Valid, CopiesHold, Encodes, SigmaPairs, IdentityPairs, Roots, Vanish, GrandProduct, LeftMatrix, RightMatrix, Cells;
    var cells := Cells(Usable(c), c.columns);
    CopiesPermutePairs(f, c, t, pi);
    LeftGrandProduct(f, c, t);
    RightGrandProduct(f, c, t);
    RootsPermuted(f, c.beta, SigmaPairs(f, t, cells), IdentityPairs(f, c, t, cells));
    VanishPermuted(f, Roots(f, c.beta, SigmaPairs(f, t, cells)), Roots(f, c.beta, IdentityPairs(f, c, t, cells)), c.gamma);
  }

  /** For every pair of these challenges some product polynomials make all expressions vanish on every
      row, no right factor being zero. */
  ghost predicate SatisfiedForMany<F(!new)>(f: Field<F>, c: Circuit<F>, t: Trace<F>, zs: (F, F) -> seq<seq<F>>, betas: seq<F>, gammas: seq<F>) {
    forall i, j :: 0 <= i < |betas| && 0 <= j < |gammas| ==>
      SatisfiedAt(f, WithChallenges(c, betas[i], gammas[j]), t.(zs := zs(betas[i], gammas[j])))
  }

  ghost predicate SatisfiedAt<F(!new)>(f: Field<F>, c: Circuit<F>, t: Trace<F>) {
    && OnDomain(c, t) && Satisfied(f, c, t) && Covered(c.chunkLen, c.columns, |t.zs|) == c.columns
    && forall r, j :: 0 <= r < Usable(c) && 0 <= j < c.columns ==> RightMatrix(f, c, t)[r][j] != f.Zero()
  }

  /** Soundness of the permutation expressions: if they vanish on every row for more beta and gamma than
      there are cells, the copy constraints hold. */
  lemma VanishingExpressionsForceCopies<F(!new)>(f: Field<F>, c: Circuit<F>, t: Trace<F>, pi: ((nat, nat)) -> (nat, nat),
                                                 zs: (F, F) -> seq<seq<F>>, betas: seq<F>, gammas: seq<F>)
    requires f.Valid() && HasOrder(f, c.omega, c.n) && OnDomain(c, t) && Encodes(f, c, t, pi) && Enough(c, betas, gammas)
    requires SatisfiedForMany(f, c, t, zs, betas, gammas)
    ensures CopiesHold(f, c, t, pi)
  {
    hide Field.Valid, HasOrder, CopiesHold, Encodes, Cells, Enough, SatisfiedAt, GrandProduct, LeftMatrix, RightMatrix;
    forall i, j | 0 <= i < |betas| && 0 <= j < |gammas|
      ensures var d := WithChallenges(c, betas[i], gammas[j]);
        GrandProduct(f, LeftMatrix(f, d, t), d.columns, 0, d.columns) == GrandProduct(f, RightMatrix(f, d, t), d.columns, 0, d.columns)
    {
      assert SatisfiedAt(f, WithChallenges(c, betas[i], gammas[j]), t.(zs := zs(betas[i], gammas[j])));
      ProductsOfSatisfied(f, WithChallenges(c, betas[i], gammas[j]), t, zs(betas[i], gammas[j]));
    }
    ProductsAgreeIffCopiesHold(f, c, t, pi, betas, gammas);
  }

  lemma ProductsOfSatisfied<F(!new)>(f: Field<F>, d: Circuit<F>, t: Trace<F>, z: seq<seq<F>>)
    requires f.Valid() && HasOrder(f, d.omega, d.n) && OnDomain(d, t) && SatisfiedAt(f, d, t.(zs := z))
    ensures GrandProduct(f, LeftMatrix(f, d, t), d.columns, 0, d.columns) == GrandProduct(f, RightMatrix(f, d, t), d.columns, 0, d.columns)
  {
    hide Field.Valid, HasOrder, Satisfied, LeftFactors, RightFactors, Prod;
    GrandProductsAgree(f, d, t.(zs := z));
    assert LeftMatrix(f, d, t) == LeftMatrix(f, d, t.(zs := z));
    assert RightMatrix(f, d, t) == RightMatrix(f, d, t.(zs := z));
  }
}
