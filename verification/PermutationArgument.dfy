/**
 Soundness of the copy-constraint argument over the whole domain: when the verifier's expressions
 vanish on every row, the chunked grand products telescope into one equation.
 */
module PermutationArgument {
  import opened Fields
  import opened Domain
  import opened Lagrange
  import opened Permutation
  import opened Queries

  // ----- products over a matrix of factors, one row per domain row -----

  /** Per row, the product of the factors of columns lo to hi. */
  ghost function RowProducts<F(!new)>(f: Field<F>, m: seq<seq<F>>, columns: nat, lo: nat, hi: nat): (p: seq<F>)
    requires lo <= hi <= columns && forall r :: 0 <= r < |m| ==> |m[r]| == columns
    ensures |p| == |m|
  {
    seq(|m|, r requires 0 <= r < |m| => Prod(f, m[r][lo..hi]))
  }

  ghost function GrandProduct<F(!new)>(f: Field<F>, m: seq<seq<F>>, columns: nat, lo: nat, hi: nat): F
    requires lo <= hi <= columns && forall r :: 0 <= r < |m| ==> |m[r]| == columns
  {
    Prod(f, RowProducts(f, m, columns, lo, hi))
  }

  lemma {:induction false} ProdPointwise<F(!new)>(f: Field<F>, a: seq<F>, b: seq<F>, c: seq<F>)
    requires f.Valid() && |a| == |b| == |c|
    requires forall i :: 0 <= i < |a| ==> c[i] == f.mul(a[i], b[i])
    ensures Prod(f, c) == f.mul(Prod(f, a), Prod(f, b))
  {
    hide Field.Valid, Prod;
    var n := |a|;
    if n == 0 {
      assert a == b == c == [];
      ProdOfNone(f);
      MulOne(f, f.One());
    } else {
      ProdPointwise(f, a[..n - 1], b[..n - 1], c[..n - 1]);
      assert a == a[..n - 1] + [a[n - 1]] && b == b[..n - 1] + [b[n - 1]] && c == c[..n - 1] + [c[n - 1]];
      ProdSnoc(f, a[..n - 1], a[n - 1]);
      ProdSnoc(f, b[..n - 1], b[n - 1]);
      ProdSnoc(f, c[..n - 1], c[n - 1]);
      SwapMiddle(f, Prod(f, a[..n - 1]), Prod(f, b[..n - 1]), a[n - 1], b[n - 1]);
    }
  }

  lemma ProdOfNone<F(!new)>(f: Field<F>)
    ensures Prod(f, []) == f.One()
  {
  }

  lemma GrandProductSplits<F(!new)>(f: Field<F>, m: seq<seq<F>>, columns: nat, mid: nat, hi: nat)
    requires f.Valid() && mid <= hi <= columns && forall r :: 0 <= r < |m| ==> |m[r]| == columns
    ensures GrandProduct(f, m, columns, 0, hi) == f.mul(GrandProduct(f, m, columns, 0, mid), GrandProduct(f, m, columns, mid, hi))
  {
    hide Field.Valid, Prod;
    var a, b, c := RowProducts(f, m, columns, 0, mid), RowProducts(f, m, columns, mid, hi), RowProducts(f, m, columns, 0, hi);
    forall r | 0 <= r < |m| ensures c[r] == f.mul(a[r], b[r]) {
      assert m[r][0..hi] == m[r][0..mid] + m[r][mid..hi];
      ProdConcat(f, m[r][0..mid], m[r][mid..hi]);
    }
    ProdPointwise(f, a, b, c);
  }

  /** A grand product over no columns is one. */
  lemma EmptyGrandProduct<F(!new)>(f: Field<F>, m: seq<seq<F>>, columns: nat)
    requires f.Valid() && forall r :: 0 <= r < |m| ==> |m[r]| == columns
    ensures GrandProduct(f, m, columns, 0, 0) == f.One()
  {
    hide Field.Valid;
    var p := RowProducts(f, m, columns, 0, 0);
    forall r | 0 <= r < |p| ensures p[r] == f.One() {
      assert m[r][0..0] == [];
    }
    ProdOfOnes(f, p);
  }

  lemma {:induction false} ProdOfOnes<F(!new)>(f: Field<F>, p: seq<F>)
    requires f.Valid() && forall r :: 0 <= r < |p| ==> p[r] == f.One()
    ensures Prod(f, p) == f.One()
  {
    hide Field.Valid;
    if p != [] {
      ProdOfOnes(f, p[..|p| - 1]);
      assert p == p[..|p| - 1] + [f.One()];
      ProdSnoc(f, p[..|p| - 1], f.One());
      MulOne(f, f.One());
    }
  }

  // ----- telescoping along the rows -----

  lemma {:induction false} Telescope<F(!new)>(f: Field<F>, z: seq<F>, left: seq<F>, right: seq<F>)
    requires f.Valid() && |z| == |left| + 1 == |right| + 1
    requires forall r :: 0 <= r < |left| ==> f.mul(z[r + 1], left[r]) == f.mul(z[r], right[r])
    ensures f.mul(z[|left|], Prod(f, left)) == f.mul(z[0], Prod(f, right))
  {
    hide Field.Valid, Prod;
    var n := |left|;
    if n == 0 {
      assert left == right == [];
    } else {
      Telescope(f, z[..n], left[..n - 1], right[..n - 1]);
      assert left == left[..n - 1] + [left[n - 1]] && right == right[..n - 1] + [right[n - 1]];
      ProdSnoc(f, left[..n - 1], left[n - 1]);
      ProdSnoc(f, right[..n - 1], right[n - 1]);
      TelescopeStep(f, z[n], z[n - 1], Prod(f, left[..n - 1]), left[n - 1], z[0], Prod(f, right[..n - 1]), right[n - 1]);
    }
  }

  lemma TelescopeStep<F(!new)>(f: Field<F>, zn: F, zm: F, p: F, l: F, z0: F, q: F, r: F)
    requires f.Valid() && f.mul(zn, l) == f.mul(zm, r) && f.mul(zm, p) == f.mul(z0, q)
    ensures f.mul(zn, f.mul(p, l)) == f.mul(z0, f.mul(q, r))
  {
    hide Field.Valid;
    MulComm(f, p, l);
    MulAssoc(f, zn, l, p);
    MulAssoc(f, zm, r, p);
    MulComm(f, r, p);
    MulAssoc(f, zm, p, r);
    MulAssoc(f, z0, q, r);
  }

  // ----- row indicators -----

  lemma RowIndicator<F(!new)>(f: Field<F>, omega: F, n: nat, e: int, j: nat, r: nat)
    requires f.Valid() && HasOrder(f, omega, n) && r < n && j < n && e % n == j
    ensures L(f, omega, n, e, Pow(f, omega, r)) == if r == j then f.One() else f.Zero()
  {
    hide Field.Valid, HasOrder, Pow, Basis;
    BasisIsIndicator(f, omega, n, j, r);
  }

  lemma {:induction false} BlindRows<F(!new)>(f: Field<F>, omega: F, n: nat, b: nat, r: nat)
    requires f.Valid() && HasOrder(f, omega, n) && r < n && b < n
    ensures BlindSum(f, omega, n, b, Pow(f, omega, r)) == if r >= n - b then f.One() else f.Zero()
  {
    hide Field.Valid, HasOrder, Pow, L;
    if b > 0 {
      BlindRows(f, omega, n, b - 1, r);
      UniqueRemainder(-(b as int), n, -1, n - b);
      RowIndicator(f, omega, n, -(b as int), n - b, r);
      AddZero(f, f.Zero());
      AddZero(f, f.One());
    }
  }

  // ----- the argument -----

  /** The values of the permutation columns on the domain: for each chunk its product polynomial,
      for each row the column values and the permuted identities. */
  datatype Trace<F> = Trace(zs: seq<seq<F>>, values: seq<seq<F>>, sigmas: seq<seq<F>>)

  datatype Circuit<F> = Circuit(omega: F, n: nat, blinding: nat, columns: nat, chunkLen: nat, beta: F, gamma: F, delta: F)

  ghost predicate OnDomain<F>(c: Circuit<F>, t: Trace<F>) {
    && t.zs != [] && (forall i :: 0 <= i < |t.zs| ==> |t.zs[i]| == c.n)
    && |t.values| == |t.sigmas| == c.n
    && (forall r :: 0 <= r < c.n ==> |t.values[r]| == |t.sigmas[r]| == c.columns)
    && c.blinding + 1 <= c.n
  }

  /** The last usable row. */
  function Usable<F>(c: Circuit<F>): int {
    c.n - (c.blinding + 1)
  }

  /** What the verifier sees of the product polynomials at a row: here, next row, last usable row. */
  ghost function ProductEvals<F>(c: Circuit<F>, t: Trace<F>, r: nat): (s: seq<(F, F, F)>)
    requires OnDomain(c, t) && r < c.n
    ensures |s| == |t.zs|
  {
    seq(|t.zs|, i requires 0 <= i < |t.zs| => (t.zs[i][r], t.zs[i][(r + 1) % c.n], t.zs[i][(r + Usable(c)) % c.n]))
  }

  ghost function LeftAt<F(!new)>(f: Field<F>, c: Circuit<F>, t: Trace<F>, r: nat): (s: seq<F>)
    requires OnDomain(c, t) && r < c.n
    ensures |s| == c.columns
  {
    LeftFactors(f, t.values[r], t.sigmas[r], c.beta, c.gamma)
  }

  ghost function RightAt<F(!new)>(f: Field<F>, c: Circuit<F>, t: Trace<F>, r: nat): (s: seq<F>)
    requires OnDomain(c, t) && r < c.n
    ensures |s| == c.columns
  {
    RightFactors(f, t.values[r], c.delta, c.beta, Pow(f, c.omega, r), c.gamma)
  }

  /** The verifier's expressions with the challenge on row r. */
  ghost function RowExpressions<F(!new)>(f: Field<F>, c: Circuit<F>, t: Trace<F>, r: nat): seq<F>
    requires OnDomain(c, t) && r < c.n
  {
    var x := Pow(f, c.omega, r);
    var lLast := L(f, c.omega, c.n, -(c.blinding as int) - 1, x);
    var active := f.Sub(f.Sub(f.One(), lLast), BlindSum(f, c.omega, c.n, c.blinding, x));
    ExpressionList(f, L(f, c.omega, c.n, 0, x), lLast, active, ProductEvals(c, t, r), LeftAt(f, c, t, r), RightAt(f, c, t, r), c.chunkLen)
  }

  ghost predicate Satisfied<F(!new)>(f: Field<F>, c: Circuit<F>, t: Trace<F>)
    requires OnDomain(c, t)
  {
    forall r :: 0 <= r < c.n ==> AllZero(f, RowExpressions(f, c, t, r))
  }

  ghost predicate AllZero<F(!new)>(f: Field<F>, s: seq<F>) {
    forall i :: 0 <= i < |s| ==> s[i] == f.Zero()
  }

  // ----- reading the constraints off the expression list -----

  lemma {:induction false} StitchAt<F(!new)>(f: Field<F>, l0: F, zs: seq<(F, F, F)>, n: nat, i: nat)
    requires 1 <= i < n <= |zs|
    ensures Stitches(f, l0, zs, n)[i - 1] == f.mul(l0, f.Sub(zs[i].0, zs[i - 1].2))
  {
    if i < n - 1 {
      StitchAt(f, l0, zs, n - 1, i);
    }
  }

  lemma {:induction false} StepAt<F(!new)>(f: Field<F>, active: F, zs: seq<(F, F, F)>, left: seq<F>, right: seq<F>, chunkLen: nat, n: nat, i: nat)
    requires i < n <= |zs| && |left| == |right|
    ensures Steps(f, active, zs, left, right, chunkLen, n)[i] == f.mul(active, ChunkDifference(f, left, right, chunkLen, i, zs[i]))
  {
    hide ChunkDifference;
    if i < n - 1 {
      StepAt(f, active, zs, left, right, chunkLen, n - 1, i);
    }
  }

  lemma ConstraintsOf<F(!new)>(f: Field<F>, l0: F, lLast: F, active: F, zs: seq<(F, F, F)>, left: seq<F>, right: seq<F>, chunkLen: nat)
    requires |left| == |right| && zs != []
    requires AllZero(f, ExpressionList(f, l0, lLast, active, zs, left, right, chunkLen))
    ensures f.mul(l0, f.Sub(f.One(), zs[0].0)) == f.Zero()
    ensures var last := zs[|zs| - 1].0; f.mul(lLast, f.Sub(f.mul(last, last), last)) == f.Zero()
    ensures forall i :: 1 <= i < |zs| ==> f.mul(l0, f.Sub(zs[i].0, zs[i - 1].2)) == f.Zero()
    ensures forall i :: 0 <= i < |zs| ==> f.mul(active, ChunkDifference(f, left, right, chunkLen, i, zs[i])) == f.Zero()
  {
    hide Stitches, Steps, ChunkDifference;
    var e := ExpressionList(f, l0, lLast, active, zs, left, right, chunkLen);
    assert e[0] == f.Zero() && e[1] == f.Zero();
    forall i | 1 <= i < |zs| ensures f.mul(l0, f.Sub(zs[i].0, zs[i - 1].2)) == f.Zero() {
      StitchAt(f, l0, zs, |zs|, i);
      assert e[2 + i - 1] == f.Zero();
    }
    forall i | 0 <= i < |zs| ensures f.mul(active, ChunkDifference(f, left, right, chunkLen, i, zs[i])) == f.Zero() {
      StepAt(f, active, zs, left, right, chunkLen, |zs|, i);
      assert e[2 + |zs| - 1 + i] == f.Zero();
    }
  }

  /** Each selector, where it is one, turns its expressions into equations. */
  lemma EquationsOf<F(!new)>(f: Field<F>, l0: F, lLast: F, active: F, zs: seq<(F, F, F)>, left: seq<F>, right: seq<F>, chunkLen: nat)
    requires f.Valid() && |left| == |right| && zs != []
    requires AllZero(f, ExpressionList(f, l0, lLast, active, zs, left, right, chunkLen))
    ensures l0 == f.One() ==> zs[0].0 == f.One() && forall i :: 1 <= i < |zs| ==> zs[i].0 == zs[i - 1].2
    ensures lLast == f.One() ==> zs[|zs| - 1].0 == f.Zero() || zs[|zs| - 1].0 == f.One()
    ensures active == f.One() ==> forall i :: 0 <= i < |zs| ==> ChunkDifference(f, left, right, chunkLen, i, zs[i]) == f.Zero()
  {
    hide Field.Valid, ChunkDifference, ExpressionList, AllZero;
    ConstraintsOf(f, l0, lLast, active, zs, left, right, chunkLen);
    if l0 == f.One() {
      MulOne(f, f.Sub(f.One(), zs[0].0));
      SubIsZero(f, f.One(), zs[0].0);
      forall i | 1 <= i < |zs| ensures zs[i].0 == zs[i - 1].2 {
        MulOne(f, f.Sub(zs[i].0, zs[i - 1].2));
        SubIsZero(f, zs[i].0, zs[i - 1].2);
      }
    }
    if lLast == f.One() {
      IdempotentIsBit(f, zs[|zs| - 1].0);
    }
    if active == f.One() {
      forall i | 0 <= i < |zs| ensures ChunkDifference(f, left, right, chunkLen, i, zs[i]) == f.Zero() {
        MulOne(f, ChunkDifference(f, left, right, chunkLen, i, zs[i]));
      }
    }
  }

  lemma IdempotentIsBit<F(!new)>(f: Field<F>, z: F)
    requires f.Valid() && f.mul(f.One(), f.Sub(f.mul(z, z), z)) == f.Zero()
    ensures z == f.Zero() || z == f.One()
  {
    hide Field.Valid;
    MulOne(f, f.Sub(f.mul(z, z), z));
    SubIsZero(f, f.mul(z, z), z);
    if z != f.Zero() {
      MulOne(f, z);
      MulCancel(f, z, z, f.One());
    }
  }

  /** The three selectors as functions of the row. */
  lemma Selectors<F(!new)>(f: Field<F>, omega: F, n: nat, blinding: nat, r: nat)
    requires f.Valid() && HasOrder(f, omega, n) && r < n && blinding + 1 <= n
    ensures var x := Pow(f, omega, r);
      var lLast := L(f, omega, n, -(blinding as int) - 1, x);
      && (r == 0 ==> L(f, omega, n, 0, x) == f.One())
      && (r == n - (blinding + 1) ==> lLast == f.One())
      && (r < n - (blinding + 1) ==> f.Sub(f.Sub(f.One(), lLast), BlindSum(f, omega, n, blinding, x)) == f.One())
  {
    hide Field.Valid, HasOrder, Pow, L;
    RowIndicator(f, omega, n, 0, 0, r);
    UniqueRemainder(-(blinding as int) - 1, n, -1, n - (blinding + 1));
    RowIndicator(f, omega, n, -(blinding as int) - 1, n - (blinding + 1), r);
    BlindRows(f, omega, n, blinding, r);
    ActiveIsOne(f);
  }

  /** What the expressions of one row say. */
  lemma RowEquations<F(!new)>(f: Field<F>, c: Circuit<F>, t: Trace<F>, r: nat)
    requires f.Valid() && HasOrder(f, c.omega, c.n) && OnDomain(c, t) && Satisfied(f, c, t) && r < c.n
    ensures var zs := ProductEvals(c, t, r);
      && (r == 0 ==> zs[0].0 == f.One() && forall i :: 1 <= i < |zs| ==> zs[i].0 == zs[i - 1].2)
      && (r == Usable(c) ==> zs[|zs| - 1].0 == f.Zero() || zs[|zs| - 1].0 == f.One())
      && (r < Usable(c) ==> forall i :: 0 <= i < |zs| ==>
            ChunkDifference(f, LeftAt(f, c, t, r), RightAt(f, c, t, r), c.chunkLen, i, zs[i]) == f.Zero())
  {
    hide Field.Valid, HasOrder, Pow, L, BlindSum, ExpressionList, AllZero, ProductEvals, LeftAt, RightAt, ChunkDifference;
    var x := Pow(f, c.omega, r);
    var lLast := L(f, c.omega, c.n, -(c.blinding as int) - 1, x);
    var active := f.Sub(f.Sub(f.One(), lLast), BlindSum(f, c.omega, c.n, c.blinding, x));
    assert AllZero(f, RowExpressions(f, c, t, r));
    EquationsOf(f, L(f, c.omega, c.n, 0, x), lLast, active, ProductEvals(c, t, r), LeftAt(f, c, t, r), RightAt(f, c, t, r), c.chunkLen);
    Selectors(f, c.omega, c.n, c.blinding, r);
  }

  /** On a row before the wrap-around the next row is the next index; row zero sees the last usable row. */
  lemma EvalsAt<F(!new)>(c: Circuit<F>, t: Trace<F>, r: nat, i: nat)
    requires OnDomain(c, t) && r < c.n && i < |t.zs|
    ensures ProductEvals(c, t, r)[i].0 == t.zs[i][r]
    ensures r + 1 < c.n ==> ProductEvals(c, t, r)[i].1 == t.zs[i][r + 1]
    ensures r == 0 ==> ProductEvals(c, t, r)[i].2 == t.zs[i][Usable(c)]
  {
    SmallRemainder(r + 1, c.n);
    SmallRemainder(Usable(c), c.n);
  }

  lemma SmallRemainder(a: nat, n: nat)
    requires n > 0
    ensures a < n ==> a % n == a
  {
  }

  /** A chunk difference that vanishes is an equation between products. */
  lemma DifferenceIsZero<F(!new)>(f: Field<F>, left: seq<F>, right: seq<F>, chunkLen: nat, i: nat, z: (F, F, F))
    requires f.Valid() && |left| == |right| && ChunkDifference(f, left, right, chunkLen, i, z) == f.Zero()
    ensures Covered(chunkLen, |left|, i) <= Covered(chunkLen, |left|, i + 1)
    ensures var lo, hi := Covered(chunkLen, |left|, i), Covered(chunkLen, |left|, i + 1);
      f.mul(z.1, Prod(f, left[lo..hi])) == f.mul(z.0, Prod(f, right[lo..hi]))
  {
    hide Field.Valid, Prod, Covered;
    CoveredGrows(chunkLen, |left|, i);
    var lo, hi := Covered(chunkLen, |left|, i), Covered(chunkLen, |left|, i + 1);
    SubIsZero(f, f.mul(z.1, Prod(f, left[lo..hi])), f.mul(z.0, Prod(f, right[lo..hi])));
  }

  /** At row zero the first product starts at one and each chunk starts where the previous one ended. */
  lemma FirstRow<F(!new)>(f: Field<F>, c: Circuit<F>, t: Trace<F>)
    requires f.Valid() && HasOrder(f, c.omega, c.n) && OnDomain(c, t) && Satisfied(f, c, t)
    ensures t.zs[0][0] == f.One()
    ensures forall i :: 1 <= i < |t.zs| ==> t.zs[i][0] == t.zs[i - 1][Usable(c)]
  {
    hide Field.Valid, HasOrder, Satisfied, LeftAt, RightAt, ChunkDifference, ProductEvals;
    RowEquations(f, c, t, 0);
    EvalsAt(c, t, 0, 0);
    forall i | 1 <= i < |t.zs| ensures t.zs[i][0] == t.zs[i - 1][Usable(c)] {
      EvalsAt(c, t, 0, i - 1);
      EvalsAt(c, t, 0, i);
    }
  }

  /** On the last usable row the last product is zero or one. */
  lemma LastRowIsBit<F(!new)>(f: Field<F>, c: Circuit<F>, t: Trace<F>)
    requires f.Valid() && HasOrder(f, c.omega, c.n) && OnDomain(c, t) && Satisfied(f, c, t)
    ensures var z := t.zs[|t.zs| - 1][Usable(c)]; z == f.Zero() || z == f.One()
  {
    hide Field.Valid, HasOrder, Satisfied, LeftAt, RightAt, ChunkDifference;
    RowEquations(f, c, t, Usable(c));
  }

  /** On a usable row each chunk's product moves by the ratio of its factors. */
  lemma UsableRow<F(!new)>(f: Field<F>, c: Circuit<F>, t: Trace<F>, r: nat, i: nat)
    requires f.Valid() && HasOrder(f, c.omega, c.n) && OnDomain(c, t) && Satisfied(f, c, t)
    requires r < Usable(c) && i < |t.zs|
    ensures Covered(c.chunkLen, c.columns, i) <= Covered(c.chunkLen, c.columns, i + 1)
    ensures var lo, hi := Covered(c.chunkLen, c.columns, i), Covered(c.chunkLen, c.columns, i + 1);
      f.mul(t.zs[i][r + 1], Prod(f, LeftAt(f, c, t, r)[lo..hi])) == f.mul(t.zs[i][r], Prod(f, RightAt(f, c, t, r)[lo..hi]))
  {
    hide Field.Valid, HasOrder, Satisfied, LeftAt, RightAt, Prod, Covered, ChunkDifference, ProductEvals;
    RowEquations(f, c, t, r);
    EvalsAt(c, t, r, i);
    DifferenceIsZero(f, LeftAt(f, c, t, r), RightAt(f, c, t, r), c.chunkLen, i, ProductEvals(c, t, r)[i]);
  }

  lemma ActiveIsOne<F(!new)>(f: Field<F>)
    requires f.Valid()
    ensures f.Sub(f.Sub(f.One(), f.Zero()), f.Zero()) == f.One()
  {
    var i := f.rep(f.Zero());
    assert f.One() == f.of(1);
  }

  // ----- the chunks joined -----

  ghost function LeftMatrix<F(!new)>(f: Field<F>, c: Circuit<F>, t: Trace<F>): (m: seq<seq<F>>)
    requires OnDomain(c, t)
    ensures |m| == Usable(c) && forall r :: 0 <= r < |m| ==> |m[r]| == c.columns
  {
    seq(Usable(c), r requires 0 <= r < Usable(c) => LeftAt(f, c, t, r))
  }

  ghost function RightMatrix<F(!new)>(f: Field<F>, c: Circuit<F>, t: Trace<F>): (m: seq<seq<F>>)
    requires OnDomain(c, t)
    ensures |m| == Usable(c) && forall r :: 0 <= r < |m| ==> |m[r]| == c.columns
  {
    seq(Usable(c), r requires 0 <= r < Usable(c) => RightAt(f, c, t, r))
  }

  lemma ChunkTelescopes<F(!new)>(f: Field<F>, c: Circuit<F>, t: Trace<F>, i: nat)
    requires f.Valid() && HasOrder(f, c.omega, c.n) && OnDomain(c, t) && Satisfied(f, c, t) && i < |t.zs|
    ensures Covered(c.chunkLen, c.columns, i) <= Covered(c.chunkLen, c.columns, i + 1)
    ensures var lo, hi := Covered(c.chunkLen, c.columns, i), Covered(c.chunkLen, c.columns, i + 1);
      f.mul(t.zs[i][Usable(c)], GrandProduct(f, LeftMatrix(f, c, t), c.columns, lo, hi))
      == f.mul(t.zs[i][0], GrandProduct(f, RightMatrix(f, c, t), c.columns, lo, hi))
  {
    hide Field.Valid, HasOrder, Prod, Satisfied, LeftAt, RightAt;
    CoveredGrows(c.chunkLen, c.columns, i);
    var lo, hi, u := Covered(c.chunkLen, c.columns, i), Covered(c.chunkLen, c.columns, i + 1), Usable(c);
    var z := t.zs[i][..u + 1];
    var left, right := RowProducts(f, LeftMatrix(f, c, t), c.columns, lo, hi), RowProducts(f, RightMatrix(f, c, t), c.columns, lo, hi);
    forall r | 0 <= r < u ensures f.mul(z[r + 1], left[r]) == f.mul(z[r], right[r]) {
      UsableRow(f, c, t, r, i);
    }
    Telescope(f, z, left, right);
  }

  /** Where chunk i starts: at one, or where the previous chunk ended. */
  ghost function Carry<F(!new)>(f: Field<F>, c: Circuit<F>, t: Trace<F>, i: nat): F
    requires OnDomain(c, t) && i <= |t.zs|
  {
    if i == 0 then f.One() else t.zs[i - 1][Usable(c)]
  }

  lemma {:induction false} ChunksTelescope<F(!new)>(f: Field<F>, c: Circuit<F>, t: Trace<F>, i: nat)
    requires f.Valid() && HasOrder(f, c.omega, c.n) && OnDomain(c, t) && Satisfied(f, c, t) && i <= |t.zs|
    ensures f.mul(Carry(f, c, t, i), GrandProduct(f, LeftMatrix(f, c, t), c.columns, 0, Covered(c.chunkLen, c.columns, i)))
         == GrandProduct(f, RightMatrix(f, c, t), c.columns, 0, Covered(c.chunkLen, c.columns, i))
  {
    hide Field.Valid, HasOrder, Satisfied, GrandProduct, LeftMatrix, RightMatrix;
    var left, right := LeftMatrix(f, c, t), RightMatrix(f, c, t);
    if i == 0 {
      EmptyGrandProduct(f, left, c.columns);
      EmptyGrandProduct(f, right, c.columns);
      MulOne(f, f.One());
    } else {
      var lo, hi := Covered(c.chunkLen, c.columns, i - 1), Covered(c.chunkLen, c.columns, i);
      ChunksTelescope(f, c, t, i - 1);
      ChunkTelescopes(f, c, t, i - 1);
      FirstRow(f, c, t);
      GrandProductSplits(f, left, c.columns, lo, hi);
      GrandProductSplits(f, right, c.columns, lo, hi);
      JoinChunk(f, t.zs[i - 1][Usable(c)], Carry(f, c, t, i - 1), GrandProduct(f, left, c.columns, 0, lo), GrandProduct(f, left, c.columns, lo, hi),
                GrandProduct(f, right, c.columns, 0, lo), GrandProduct(f, right, c.columns, lo, hi));
    }
  }

  lemma JoinChunk<F(!new)>(f: Field<F>, z: F, k: F, g: F, l: F, h: F, r: F)
    requires f.Valid() && f.mul(z, l) == f.mul(k, r) && f.mul(k, g) == h
    ensures f.mul(z, f.mul(g, l)) == f.mul(h, r)
  {
    hide Field.Valid;
    MulOne(f, h);
    TelescopeStep(f, z, k, g, l, f.One(), h, r);
    MulOne(f, f.mul(h, r));
  }

  /** The permutation argument: over all usable rows and covered columns,
      `z_final * prod(v + beta*sigma + gamma) = prod(v + delta^j*beta*w^r + gamma)` with z_final a bit. */
  lemma PermutationArgumentTelescopes<F(!new)>(f: Field<F>, c: Circuit<F>, t: Trace<F>)
    requires f.Valid() && HasOrder(f, c.omega, c.n) && OnDomain(c, t) && Satisfied(f, c, t)
    ensures var z := t.zs[|t.zs| - 1][Usable(c)];
      && (z == f.Zero() || z == f.One())
      && f.mul(z, GrandProduct(f, LeftMatrix(f, c, t), c.columns, 0, Covered(c.chunkLen, c.columns, |t.zs|)))
         == GrandProduct(f, RightMatrix(f, c, t), c.columns, 0, Covered(c.chunkLen, c.columns, |t.zs|))
  {
    hide Field.Valid, HasOrder, Satisfied, GrandProduct, LeftMatrix, RightMatrix;
    LastRowIsBit(f, c, t);
    ChunksTelescope(f, c, t, |t.zs|);
  }

  /** The chunk count the compiler writes covers every column. */
  lemma CompiledChunksCover(columns: nat, csDegree: nat)
    ensures var len := ChunkLen(csDegree);
      var chunks := if columns == 0 then 0 else (columns + len - 1) / len;
      Covered(len, columns, chunks) == columns
  {
    var len := ChunkLen(csDegree);
    if columns > 0 {
      var chunks := (columns + len - 1) / len;
      assert columns + len - 1 == chunks * len + (columns + len - 1) % len;
    }
  }

  /** With all columns covered and no right factor zero, the two grand products are equal. */
  lemma GrandProductsAgree<F(!new)>(f: Field<F>, c: Circuit<F>, t: Trace<F>)
    requires f.Valid() && HasOrder(f, c.omega, c.n) && OnDomain(c, t) && Satisfied(f, c, t)
    requires Covered(c.chunkLen, c.columns, |t.zs|) == c.columns
    requires forall r, j :: 0 <= r < Usable(c) && 0 <= j < c.columns ==> RightMatrix(f, c, t)[r][j] != f.Zero()
    ensures GrandProduct(f, LeftMatrix(f, c, t), c.columns, 0, c.columns) == GrandProduct(f, RightMatrix(f, c, t), c.columns, 0, c.columns)
    ensures t.zs[|t.zs| - 1][Usable(c)] == f.One()
  {
    hide Field.Valid, HasOrder, Satisfied, LeftMatrix, RightMatrix, Prod, Covered;
    PermutationArgumentTelescopes(f, c, t);
    var left, right := LeftMatrix(f, c, t), RightMatrix(f, c, t);
    var rows := RowProducts(f, right, c.columns, 0, c.columns);
    forall r | 0 <= r < |rows| ensures rows[r] != f.Zero() {
      assert right[r][0..c.columns] == right[r];
      ProdZero(f, right[r]);
    }
    ProdZero(f, rows);
    MulZero(f, GrandProduct(f, left, c.columns, 0, c.columns));
    MulOne(f, GrandProduct(f, left, c.columns, 0, c.columns));
  }
}
