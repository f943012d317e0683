/**
 The two-commitment batched opening check of SHPLONK (eprint 2020/081, section 4): building the
 terms of the multi-scalar multiplication, and what their sum is.
 */
module Shplonk {
  import opened Wrappers
  import opened Fields
  import opened Polynomials
  import opened Interpolation
  import opened Kzg
  import opened Grouping
  import opened RotationSets
  import opened Vanishing

  // ----- polynomial helpers -----

  ghost predicate PowersOf<F(!new)>(f: Field<F>, x: F, s: seq<F>) {
    forall i :: 0 <= i < |s| ==> s[i] == Pow(f, x, i)
  }

  method Powers<F(!new)>(f: Field<F>, x: F, n: nat) returns (out: seq<F>)
    requires f.Valid()
    ensures |out| == n && PowersOf(f, x, out)
  {
    hide Field.Valid, Pow;
    out := [];
    var acc := f.One();
    PowUnfold(f, x, 0);
    for i := 0 to n
      invariant |out| == i && acc == Pow(f, x, i)
      invariant forall k :: 0 <= k < i ==> out[k] == Pow(f, x, k)
    {
      out := out + [acc];
      MulComm(f, acc, x);
      PowUnfold(f, x, i);
      acc := f.mul(acc, x);
    }
  }

  lemma PowUnfold<F(!new)>(f: Field<F>, x: F, n: nat)
    ensures Pow(f, x, 0) == f.One() && Pow(f, x, n + 1) == f.mul(x, Pow(f, x, n))
  {
  }

  method EvaluateVanishingPolynomial<F(!new)>(f: Field<F>, points: seq<F>, x: F) returns (acc: F)
    ensures acc == Vanish(f, points, x)
  {
    acc := f.One();
    for i := 0 to |points|
      invariant acc == Vanish(f, points[..i], x)
    {
      assert points[..i + 1] == points[..i] + [points[i]];
      VanishSnoc(f, points[..i], points[i], x);
      acc := f.mul(acc, f.Sub(x, points[i]));
    }
    assert points[..|points|] == points;
  }

  /** Horner evaluation from the highest coefficient. */
  method EvalPolynomial<F(!new)>(f: Field<F>, coeffs: seq<F>, x: F) returns (acc: F)
    requires f.Valid()
    ensures acc == Eval(f, coeffs, x)
  {
    acc := f.Zero();
    var i := |coeffs|;
    while i > 0
      invariant 0 <= i <= |coeffs|
      invariant acc == Eval(f, coeffs[i..], x)
    {
      i := i - 1;
      assert coeffs[i..][1..] == coeffs[i + 1..];
      HornerStep(f, acc, x, coeffs[i]);
      acc := f.add(f.mul(acc, x), coeffs[i]);
    }
    assert coeffs[0..] == coeffs;
  }

  lemma HornerStep<F(!new)>(f: Field<F>, e: F, x: F, c: F)
    requires f.Valid()
    ensures f.add(f.mul(e, x), c) == f.add(c, f.mul(x, e))
  {
    MulComm(f, e, x);
    AddComm(f, f.mul(e, x), c);
  }

  // ----- the normalised complement factors -----

  /** `z_diff` of set k: the complement factor of its points, normalised so that set 0 has one. */
  ghost function ZDiff<F(!new)>(f: Field<F>, all: seq<F>, first: seq<F>, points: seq<F>, k: nat, u: F): F {
    if k == 0 then f.One()
    else f.mul(Vanish(f, Diff(all, points), u), f.inv(Vanish(f, Diff(all, first), u)))
  }

  /** Multiplying back the factor of a set's own points gives the same value for every set. */
  lemma ZDiffNormalises<F(!new)>(f: Field<F>, all: seq<F>, first: seq<F>, points: seq<F>, k: nat, u: F)
    requires f.Valid() && Distinct(all) && Distinct(first) && Distinct(points)
    requires (forall p :: p in first ==> p in all) && forall p :: p in points ==> p in all
    requires k == 0 ==> points == first
    requires Vanish(f, Diff(all, first), u) != f.Zero()
    ensures f.mul(ZDiff(f, all, first, points, k, u), Vanish(f, points, u)) == Vanish(f, first, u)
  {
    hide Field.Valid, Vanish, Diff;
    if k == 0 {
      MulOne(f, Vanish(f, first, u));
    } else {
      VanishSplit(f, all, first, u);
      VanishSplit(f, all, points, u);
      var d, d0, v, v0 := Vanish(f, Diff(all, points), u), Vanish(f, Diff(all, first), u), Vanish(f, points, u), Vanish(f, first, u);
      SwapFactors(f, d, f.inv(d0), v);
      MulComm(f, d0, v0);
      MulInverseLeft(f, d0, v0);
    }
  }

  method ComputeZDiffI<F(!new,==)>(f: Field<F>, i: nat, superPointSet: seq<F>, points: seq<F>, u: F, z0: F, z0DiffInverse: F,
                                   ghost first: seq<F>)
    returns (r: Result<F, Error>, z0': F, z0DiffInverse': F)
    requires f.Valid() && (i == 0 ==> points == first)
    requires i > 0 ==> z0DiffInverse == f.inv(Vanish(f, Diff(superPointSet, first), u))
    ensures r.Err? <==> i == 0 && Vanish(f, Diff(superPointSet, first), u) == f.Zero()
    ensures r.Ok? ==> r.value == ZDiff(f, superPointSet, first, points, i, u)
    ensures r.Ok? ==> z0DiffInverse' == f.inv(Vanish(f, Diff(superPointSet, first), u))
    ensures r.Ok? ==> z0' == if i == 0 then Vanish(f, points, u) else z0
  {
    hide Field.Valid, Vanish;
    z0', z0DiffInverse' := z0, z0DiffInverse;
    var diffs: seq<F> := [];
    for k := 0 to |superPointSet|
      invariant diffs == Diff(superPointSet[..k], points)
    {
      assert superPointSet[..k + 1][..k] == superPointSet[..k];
      if superPointSet[k] !in points {
        diffs := diffs + [superPointSet[k]];
      }
    }
    assert superPointSet[..|superPointSet|] == superPointSet;
    var zDiff := EvaluateVanishingPolynomial(f, diffs, u);
    if i == 0 {
      z0' := EvaluateVanishingPolynomial(f, points, u);
      if zDiff == f.Zero() {
        return Err(Protocol), z0', z0DiffInverse';
      }
      z0DiffInverse' := f.inv(zDiff);
      zDiff := f.One();
    } else {
      zDiff := f.mul(zDiff, z0DiffInverse');
    }
    return Ok(zDiff), z0', z0DiffInverse';
  }

  // ----- one rotation set -----

  ghost function CommitsOf<F(!new)>(rs: RotationSet<F>): (c: seq<F>)
    ensures |c| == |rs.commitmentsWithEvals|
  {
    seq(|rs.commitmentsWithEvals|, j requires 0 <= j < |rs.commitmentsWithEvals| => rs.commitmentsWithEvals[j].0)
  }

  ghost predicate WellShaped<F(!new)>(rs: RotationSet<F>) {
    forall j :: 0 <= j < |rs.commitmentsWithEvals| ==> |rs.commitmentsWithEvals[j].1| == |rs.points|
  }

  /** The value at u of each commitment's interpolant through its claimed evaluations. */
  ghost function ClaimsAt<F(!new)>(f: Field<F>, rs: RotationSet<F>, u: F): (c: seq<F>)
    requires WellShaped(rs)
    ensures |c| == |rs.commitmentsWithEvals|
  {
    seq(|rs.commitmentsWithEvals|, j requires 0 <= j < |rs.commitmentsWithEvals| =>
        Eval(f, Interpolant(f, rs.points, rs.commitmentsWithEvals[j].1), u))
  }

  method ProcessRotationSetWithBasis<F(!new)>(f: Field<F>, rs: RotationSet<F>, nums: seq<seq<F>>, denomInvs: seq<F>,
                                              yPowers: seq<F>, vPow: F, zDiff: F, u: F, terms: seq<(F, F)>,
                                              ghost y: F, ghost denoms: seq<F>)
    returns (rInner: F, terms': seq<(F, F)>)
    requires f.Valid() && WellShaped(rs)
    requires IsBasis(f, rs.points, nums, denoms) && |denomInvs| == |denoms| == |rs.points|
    requires forall j :: 0 <= j < |denoms| ==> denomInvs[j] == f.inv(denoms[j])
    requires |yPowers| >= |rs.commitmentsWithEvals|
    requires PowersOf(f, y, yPowers)
    ensures Dot(f, terms') == f.add(Dot(f, terms), f.mul(f.mul(vPow, zDiff), Eval(f, CommitsOf(rs), y)))
    ensures rInner == Eval(f, ClaimsAt(f, rs, u), y)
  {
    hide Field.Valid, Eval, Interpolant, IsBasis, Dot, Pow;
    ghost var cs, es, s := CommitsOf(rs), ClaimsAt(f, rs, u), f.mul(vPow, zDiff);
    EmptySums(f, cs, es, s, y, Dot(f, terms));
    rInner, terms' := f.Zero(), terms;
    for j := 0 to |rs.commitmentsWithEvals|
      invariant Dot(f, terms') == f.add(Dot(f, terms), f.mul(s, Eval(f, cs[..j], y)))
      invariant rInner == Eval(f, es[..j], y)
    {
      var (commitment, evals) := rs.commitmentsWithEvals[j];
      var rx := InterpolateWithBasis(f, nums, denomInvs, evals, rs.points, denoms);
      var rAtU := EvalPolynomial(f, rx, u);
      var rEval := f.mul(yPowers[j], rAtU);
      var coeff := f.mul(f.mul(vPow, zDiff), yPowers[j]);
      DotSnoc(f, terms', coeff, commitment);
      ScaledStep(f, Dot(f, terms), s, Eval(f, cs[..j], y), cs[j], yPowers[j]);
      EvalPrefix(f, cs, j, y);
      EvalPrefix(f, es, j, y);
      MulComm(f, yPowers[j], rAtU);
      terms' := terms' + [(coeff, commitment)];
      rInner := f.add(rInner, rEval);
    }
    assert cs[..|cs|] == cs && es[..|es|] == es;
  }

  lemma EmptySums<F(!new)>(f: Field<F>, cs: seq<F>, es: seq<F>, s: F, y: F, base: F)
    requires f.Valid()
    ensures base == f.add(base, f.mul(s, Eval(f, cs[..0], y))) && f.Zero() == Eval(f, es[..0], y)
  {
    MulZero(f, s);
    AddZero(f, base);
  }

  // ----- all rotation sets -----

  lemma SetsWellShaped<F(!new)>(queries: seq<VerifierQuery<F>>)
    ensures forall i :: 0 <= i < |Sets(queries)| ==> WellShaped(Sets(queries)[i])
    ensures queries != [] ==> Sets(queries) != []
  {
    hide Keys, WithKey, Sets, EvalsOf, Slots;
    forall i | 0 <= i < |Sets(queries)| ensures WellShaped(Sets(queries)[i]) {
      SetPoints(queries, i);
    }
    if queries != [] {
      SetsNonEmpty(queries);
    }
  }

  lemma SetsNonEmpty<F(!new)>(queries: seq<VerifierQuery<F>>)
    requires queries != []
    ensures Sets(queries) != []
  {
    assert queries[0] in queries && IdOf(queries[0]) in Keys(queries, IdOf);
    assert Slots(queries)[0] in Slots(queries);
    assert PointsOf(Slots(queries)[0]) in Keys(Slots(queries), PointsOf);
  }

  ghost function FirstPoints<F(!new)>(queries: seq<VerifierQuery<F>>): seq<F>
    requires queries != []
  {
    SetsNonEmpty(queries);
    Sets(queries)[0].points
  }

  ghost function ZDiffOf<F(!new)>(f: Field<F>, queries: seq<VerifierQuery<F>>, i: nat, u: F): F
    requires i < |Sets(queries)|
  {
    ZDiff(f, Keys(queries, PointOf), Sets(queries)[0].points, Sets(queries)[i].points, i, u)
  }

  /** What set i contributes, before batching with powers of v: its commitments minus the claimed
      values at u, batched with powers of y and scaled by its complement factor. */
  ghost function SetTerm<F(!new)>(f: Field<F>, queries: seq<VerifierQuery<F>>, i: nat, y: F, u: F): F
    requires i < |Sets(queries)|
  {
    SetsWellShaped(queries);
    f.mul(ZDiffOf(f, queries, i, u), f.Sub(Eval(f, CommitsOf(Sets(queries)[i]), y), Eval(f, ClaimsAt(f, Sets(queries)[i], u), y)))
  }

  ghost function SetTerms<F(!new)>(f: Field<F>, queries: seq<VerifierQuery<F>>, y: F, u: F): (r: seq<F>)
    ensures |r| == |Sets(queries)|
    ensures forall i :: 0 <= i < |r| ==> r[i] == SetTerm(f, queries, i, y, u)
  {
    seq(|Sets(queries)|, i requires 0 <= i < |Sets(queries)| => SetTerm(f, queries, i, y, u))
  }

  /** The sum of the terms. */
  ghost function OuterSum<F(!new)>(f: Field<F>, queries: seq<VerifierQuery<F>>, h1: F, h2: F, y: F, v: F, u: F): F
    requires queries != []
  {
    f.add(f.Sub(Eval(f, SetTerms(f, queries, y, u), v), f.mul(Vanish(f, FirstPoints(queries), u), h1)), f.mul(u, h2))
  }

  /** The basis of set k and where its denominators lie in the flat list. */
  ghost predicate BasisAt<F(!new)>(f: Field<F>, sets: seq<RotationSet<F>>, k: nat, perSetNums: seq<seq<seq<F>>>,
                                   flat: seq<F>, offsets: seq<nat>)
    requires k < |sets| && k < |perSetNums| && k + 1 < |offsets|
  {
    && offsets[k] <= offsets[k + 1] <= |flat|
    && offsets[k + 1] - offsets[k] == |sets[k].points|
    && IsBasis(f, sets[k].points, perSetNums[k], flat[offsets[k]..offsets[k + 1]])
  }

  ghost predicate Bases<F(!new)>(f: Field<F>, sets: seq<RotationSet<F>>, n: nat, perSetNums: seq<seq<seq<F>>>,
                                 flat: seq<F>, offsets: seq<nat>) {
    && n <= |sets| && |perSetNums| == n && |offsets| == n + 1 && offsets[n] == |flat|
    && (forall k :: 0 <= k < n ==> BasisAt(f, sets, k, perSetNums, flat, offsets))
    && f.Zero() !in flat
  }

  lemma BasesGrow<F(!new)>(f: Field<F>, sets: seq<RotationSet<F>>, n: nat, perSetNums: seq<seq<seq<F>>>,
                           flat: seq<F>, offsets: seq<nat>, nums: seq<seq<F>>, denoms: seq<F>)
    requires n < |sets| && Bases(f, sets, n, perSetNums, flat, offsets)
    requires IsBasis(f, sets[n].points, nums, denoms) && |denoms| == |sets[n].points| && f.Zero() !in denoms
    ensures Bases(f, sets, n + 1, perSetNums + [nums], flat + denoms, offsets + [|flat + denoms|])
  {
    hide IsBasis;
    var flat', offsets', per' := flat + denoms, offsets + [|flat + denoms|], perSetNums + [nums];
    assert flat'[offsets'[n]..offsets'[n + 1]] == denoms;
    forall k | 0 <= k < n ensures BasisAt(f, sets, k, per', flat', offsets') {
      assert BasisAt(f, sets, k, perSetNums, flat, offsets);
      assert flat'[offsets'[k]..offsets'[k + 1]] == flat[offsets[k]..offsets[k + 1]];
    }
  }

  method CollectBases<F(!new,==)>(f: Field<F>, sets: seq<RotationSet<F>>)
    returns (perSetNums: seq<seq<seq<F>>>, flat: seq<F>, offsets: seq<nat>)
    requires f.Valid() && forall i :: 0 <= i < |sets| ==> Distinct(sets[i].points)
    ensures Bases(f, sets, |sets|, perSetNums, flat, offsets)
  {
    hide Field.Valid, IsBasis;
    perSetNums, flat, offsets := [], [], [0];
    for i := 0 to |sets|
      invariant Bases(f, sets, i, perSetNums, flat, offsets)
    {
      var basis := LagrangeBasisCompute(f, sets[i].points);
      BasisLength(f, sets[i].points, basis.value.0, basis.value.1);
      BasesGrow(f, sets, i, perSetNums, flat, offsets, basis.value.0, basis.value.1);
      perSetNums := perSetNums + [basis.value.0];
      flat := flat + basis.value.1;
      offsets := offsets + [|flat|];
    }
  }

  lemma BasisLength<F(!new)>(f: Field<F>, points: seq<F>, nums: seq<seq<F>>, denoms: seq<F>)
    requires IsBasis(f, points, nums, denoms)
    ensures |denoms| == |points|
  {
  }

  lemma PassTwoStep<F(!new)>(f: Field<F>, dot: F, r: F, vp: F, zd: F, ec: F, er: F)
    requires f.Valid()
    ensures f.Sub(f.add(dot, f.mul(f.mul(vp, zd), ec)), f.add(r, f.mul(f.mul(vp, zd), er)))
         == f.add(f.Sub(dot, r), f.mul(f.mul(zd, f.Sub(ec, er)), vp))
  {
    var i, j, k, l, m, n := f.rep(dot), f.rep(r), f.rep(vp), f.rep(zd), f.rep(ec), f.rep(er);
    assert (i + (k * l) * m) - (j + (k * l) * n) == (i - j) + (l * (m - n)) * k;
  }

  lemma FinalTerms<F(!new)>(f: Field<F>, dot: F, r: F, z0: F, h1: F, uh2: F)
    requires f.Valid()
    ensures f.add(f.add(f.add(dot, f.mul(f.neg(r), f.One())), f.mul(f.neg(z0), h1)), uh2)
         == f.add(f.Sub(f.Sub(dot, r), f.mul(z0, h1)), uh2)
  {
    var i, j, k, l, m := f.rep(dot), f.rep(r), f.rep(z0), f.rep(h1), f.rep(uh2);
    assert i + -j * 1 + -k * l + m == i - j - k * l + m;
  }

  /** The state of the second pass after `n` sets. */
  ghost predicate PassTwo<F(!new)>(f: Field<F>, queries: seq<VerifierQuery<F>>, n: nat, y: F, v: F, u: F,
                                   terms: seq<(F, F)>, rOuter: F, z0: F, z0DiffInverse: F)
  {
    && n <= |Sets(queries)|
    && f.Sub(Dot(f, terms), rOuter) == Eval(f, SetTerms(f, queries, y, u)[..n], v)
    && (n > 0 ==>
          && z0 == Vanish(f, Sets(queries)[0].points, u)
          && Vanish(f, Diff(Keys(queries, PointOf), Sets(queries)[0].points), u) != f.Zero()
          && z0DiffInverse == f.inv(Vanish(f, Diff(Keys(queries, PointOf), Sets(queries)[0].points), u)))
  }

  lemma PassTwoStart<F(!new)>(f: Field<F>, queries: seq<VerifierQuery<F>>, y: F, v: F, u: F, z: F)
    requires f.Valid()
    ensures PassTwo(f, queries, 0, y, v, u, [], f.Zero(), z, z)
  {
    hide Field.Valid, Sets, SetTerms;
    SubIsZero(f, f.Zero(), f.Zero());
  }

  lemma PassTwoGrow<F(!new)>(f: Field<F>, queries: seq<VerifierQuery<F>>, n: nat, y: F, v: F, u: F,
                             terms: seq<(F, F)>, rOuter: F, vp: F, zd: F, terms': seq<(F, F)>, rInner: F)
    requires f.Valid() && n < |Sets(queries)| && WellShaped(Sets(queries)[n])
    requires f.Sub(Dot(f, terms), rOuter) == Eval(f, SetTerms(f, queries, y, u)[..n], v)
    requires vp == Pow(f, v, n) && zd == ZDiffOf(f, queries, n, u)
    requires Dot(f, terms') == f.add(Dot(f, terms), f.mul(f.mul(vp, zd), Eval(f, CommitsOf(Sets(queries)[n]), y)))
    requires rInner == Eval(f, ClaimsAt(f, Sets(queries)[n], u), y)
    ensures f.Sub(Dot(f, terms'), f.add(rOuter, f.mul(f.mul(vp, zd), rInner))) == Eval(f, SetTerms(f, queries, y, u)[..n + 1], v)
  {
    hide Field.Valid, Sets, SetTerms, Eval, Dot, Pow, ZDiffOf, ClaimsAt, CommitsOf, WellShaped;
    EvalPrefix(f, SetTerms(f, queries, y, u), n, v);
    PassTwoStep(f, Dot(f, terms), rOuter, vp, zd, Eval(f, CommitsOf(Sets(queries)[n]), y), rInner);
  }

  method MaxInner<F>(sets: seq<RotationSet<F>>) returns (m: nat)
    ensures forall i :: 0 <= i < |sets| ==> |sets[i].commitmentsWithEvals| <= m
  {
    m := 0;
    for i := 0 to |sets|
      invariant forall k :: 0 <= k < i ==> |sets[k].commitmentsWithEvals| <= m
    {
      if |sets[i].commitmentsWithEvals| > m {
        m := |sets[i].commitmentsWithEvals|;
      }
    }
  }

  lemma PassTwoEnd<F(!new)>(f: Field<F>, queries: seq<VerifierQuery<F>>, y: F, v: F, u: F,
                            terms: seq<(F, F)>, rOuter: F, z0: F, z0DiffInverse: F)
    requires queries != [] && PassTwo(f, queries, |Sets(queries)|, y, v, u, terms, rOuter, z0, z0DiffInverse)
    ensures Vanish(f, Diff(Keys(queries, PointOf), FirstPoints(queries)), u) != f.Zero()
    ensures f.Sub(Dot(f, terms), rOuter) == Eval(f, SetTerms(f, queries, y, u), v)
    ensures z0 == Vanish(f, FirstPoints(queries), u)
  {
    hide Sets, Keys, Diff, Vanish, SetTerms, SetTerm, Eval, Dot, Pow;
    SetsNonEmpty(queries);
    FullPrefix(SetTerms(f, queries, y, u));
  }

  lemma FullPrefix<T>(s: seq<T>)
    ensures s[..|s|] == s
  {
  }

  /** The bases of all sets, with inverted denominators. */
  datatype BasisTable<F> = BasisTable(perSetNums: seq<seq<seq<F>>>, invs: seq<F>, offsets: seq<nat>)

  ghost predicate TableOk<F(!new)>(f: Field<F>, queries: seq<VerifierQuery<F>>, table: BasisTable<F>, flat: seq<F>) {
    && Bases(f, Sets(queries), |Sets(queries)|, table.perSetNums, flat, table.offsets)
    && |table.invs| == |flat| && forall k :: 0 <= k < |flat| ==> table.invs[k] == f.inv(flat[k])
  }

  /** The first pass: all bases, with every denominator inverted in one batch. */
  method InvertBases<F(!new,==)>(f: Field<F>, ghost queries: seq<VerifierQuery<F>>, sets: seq<RotationSet<F>>)
    returns (table: BasisTable<F>)
    requires f.Valid() && sets == Sets(queries) && forall i :: 0 <= i < |sets| ==> Distinct(sets[i].points)
    ensures exists flat :: TableOk(f, queries, table, flat)
  {
    hide Field.Valid, IsBasis, BasisAt, Distinct, Sets;
    var perSetNums, denoms, offsets := CollectBases(f, sets);
    var denomsFlat := new F[|denoms|](i requires 0 <= i < |denoms| => denoms[i]);
    assert denomsFlat[..] == denoms;
    var inverted := BatchInverse(f, denomsFlat);
    table := BasisTable(perSetNums, denomsFlat[..], offsets);
    assert TableOk(f, queries, table, denoms);
  }

  lemma BasisSlice<F(!new)>(f: Field<F>, queries: seq<VerifierQuery<F>>, k: nat, table: BasisTable<F>, flat: seq<F>)
    requires k < |Sets(queries)| && TableOk(f, queries, table, flat)
    ensures |table.perSetNums| == |Sets(queries)| && |table.offsets| == |Sets(queries)| + 1
    ensures table.offsets[k] <= table.offsets[k + 1] <= |flat| == |table.invs|
    ensures var d, e := flat[table.offsets[k]..table.offsets[k + 1]], table.invs[table.offsets[k]..table.offsets[k + 1]];
      && |d| == |e| == |Sets(queries)[k].points| && IsBasis(f, Sets(queries)[k].points, table.perSetNums[k], d)
      && forall j :: 0 <= j < |d| ==> e[j] == f.inv(d[j])
  {
    hide IsBasis, Sets, Keys;
    assert BasisAt(f, Sets(queries), k, table.perSetNums, flat, table.offsets);
    SliceInverts(f, flat, table.invs, table.offsets[k], table.offsets[k + 1]);
  }

  lemma SliceInverts<F(!new)>(f: Field<F>, flat: seq<F>, invs: seq<F>, lo: nat, hi: nat)
    requires lo <= hi <= |flat| == |invs| && forall k :: 0 <= k < |flat| ==> invs[k] == f.inv(flat[k])
    ensures var d, e := flat[lo..hi], invs[lo..hi]; forall j :: 0 <= j < |d| ==> e[j] == f.inv(d[j])
  {
  }

  /** One iteration of the second pass. */
  method ProcessSet<F(!new,==)>(f: Field<F>, queries: seq<VerifierQuery<F>>, sets: IntermediateSets<F>, i: nat,
                                table: BasisTable<F>, yPowers: seq<F>, vPow: F, u: F,
                                terms: seq<(F, F)>, rOuter: F, z0: F, z0DiffInverse: F,
                                ghost y: F, ghost v: F, ghost flat: seq<F>)
    returns (ok: bool, terms': seq<(F, F)>, rOuter': F, z0': F, z0DiffInverse': F)
    requires f.Valid()
    requires sets.rotationSets == Sets(queries) && sets.superPointSet == Keys(queries, PointOf) && i < |Sets(queries)|
    requires TableOk(f, queries, table, flat)
    requires |yPowers| >= |Sets(queries)[i].commitmentsWithEvals| && PowersOf(f, y, yPowers)
    requires vPow == Pow(f, v, i)
    requires PassTwo(f, queries, i, y, v, u, terms, rOuter, z0, z0DiffInverse)
    ensures !ok <==> i == 0 && Vanish(f, Diff(Keys(queries, PointOf), Sets(queries)[0].points), u) == f.Zero()
    ensures ok ==> PassTwo(f, queries, i + 1, y, v, u, terms', rOuter', z0', z0DiffInverse')
  {
    hide Field.Valid, Sets, SetTerms, Eval, Dot, Pow, ClaimsAt, CommitsOf, WellShaped, Keys, IsBasis, Vanish, Diff, ZDiff, TableOk, PowersOf;
    SetsWellShaped(queries);
    BasisSlice(f, queries, i, table, flat);
    var rs := sets.rotationSets[i];
    var zDiff;
    zDiff, z0', z0DiffInverse' := ComputeZDiffI(f, i, sets.superPointSet, rs.points, u, z0, z0DiffInverse, Sets(queries)[0].points);
    if zDiff.Err? {
      return false, terms, rOuter, z0', z0DiffInverse';
    }
    var denomInvs := table.invs[table.offsets[i]..table.offsets[i + 1]];
    var rInner;
    rInner, terms' := ProcessRotationSetWithBasis(f, rs, table.perSetNums[i], denomInvs, yPowers, vPow, zDiff.value, u, terms,
                                                  y, flat[table.offsets[i]..table.offsets[i + 1]]);
    rOuter' := f.add(rOuter, f.mul(f.mul(vPow, zDiff.value), rInner));
    PassTwoGrow(f, queries, i, y, v, u, terms, rOuter, vPow, zDiff.value, terms', rInner);
    ok := true;
  }

  /** The second pass over all sets. */
  method ProcessSets<F(!new,==)>(f: Field<F>, queries: seq<VerifierQuery<F>>, sets: IntermediateSets<F>,
                                 table: BasisTable<F>, yPowers: seq<F>, vPowers: seq<F>, u: F,
                                 ghost y: F, ghost v: F, ghost flat: seq<F>)
    returns (ok: bool, terms: seq<(F, F)>, rOuter: F, z0: F)
    requires f.Valid() && queries != []
    requires sets.rotationSets == Sets(queries) && sets.superPointSet == Keys(queries, PointOf)
    requires TableOk(f, queries, table, flat)
    requires forall i :: 0 <= i < |Sets(queries)| ==> |Sets(queries)[i].commitmentsWithEvals| <= |yPowers|
    requires PowersOf(f, y, yPowers) && PowersOf(f, v, vPowers) && |vPowers| == |Sets(queries)|
    ensures !ok <==> Vanish(f, Diff(Keys(queries, PointOf), FirstPoints(queries)), u) == f.Zero()
    ensures ok ==> f.Sub(Dot(f, terms), rOuter) == Eval(f, SetTerms(f, queries, y, u), v)
    ensures ok ==> z0 == Vanish(f, FirstPoints(queries), u)
  {
    hide Field.Valid, Sets, SetTerms, Eval, Dot, Pow, Keys, Vanish, Diff, PassTwo, TableOk;
    z0 := f.Zero();
    var z0DiffInverse := f.Zero();
    terms, rOuter := [], f.Zero();
    PassTwoStart(f, queries, y, v, u, f.Zero());
    for i := 0 to |sets.rotationSets|
      invariant PassTwo(f, queries, i, y, v, u, terms, rOuter, z0, z0DiffInverse)
    {
      ok, terms, rOuter, z0, z0DiffInverse :=
        ProcessSet(f, queries, sets, i, table, yPowers, vPowers[i], u, terms, rOuter, z0, z0DiffInverse, y, v, flat);
      if !ok {
        return;
      }
    }
    PassTwoEnd(f, queries, y, v, u, terms, rOuter, z0, z0DiffInverse);
    ok := true;
  }

  lemma ThreeMoreTerms<F(!new)>(f: Field<F>, terms: seq<(F, F)>, r: F, z0: F, h1: F, u: F, h2: F)
    requires f.Valid()
    ensures Dot(f, terms + [(f.neg(r), f.One()), (f.neg(z0), h1), (u, h2)])
         == f.add(f.Sub(f.Sub(Dot(f, terms), r), f.mul(z0, h1)), f.mul(u, h2))
  {
    hide Field.Valid, Dot;
    var t1, t2, t3 := (f.neg(r), f.One()), (f.neg(z0), h1), (u, h2);
    DotSnoc(f, terms, t1.0, t1.1);
    DotSnoc(f, terms + [t1], t2.0, t2.1);
    DotSnoc(f, terms + [t1] + [t2], t3.0, t3.1);
    assert terms + [t1, t2, t3] == terms + [t1] + [t2] + [t3];
    FinalTerms(f, Dot(f, terms), r, z0, h1, f.mul(u, h2));
  }

  /**
   The terms of the outer multi-scalar multiplication. They are refused exactly when there are no
   queries or u is a query point outside the first set's points; otherwise their sum is `OuterSum`.
   */
  method BuildShplonkMsmTerms<F(!new,==)>(f: Field<F>, queries: seq<VerifierQuery<F>>, h1: F, h2: F, y: F, v: F, u: F)
    returns (r: Result<seq<(F, F)>, Error>)
    requires f.Valid()
    ensures r.Err? <==> queries == [] || (u in Keys(queries, PointOf) && u !in FirstPoints(queries))
    ensures r.Ok? ==> Dot(f, r.value) == OuterSum(f, queries, h1, h2, y, v, u)
  {
    hide Field.Valid, Sets, SetTerms, Eval, Dot, Pow, Keys, Vanish, Diff, TableOk, FirstPoints, PowersOf;
    if queries == [] {
      return Err(Protocol);
    }
    var sets := ConstructIntermediateSets(queries);
    var maxInner := MaxInner(sets.rotationSets);
    var yPowers := Powers(f, y, maxInner);
    var vPowers := Powers(f, v, |sets.rotationSets|);
    forall i | 0 <= i < |sets.rotationSets| ensures Distinct(sets.rotationSets[i].points) { SetPoints(queries, i); }
    var table := InvertBases(f, queries, sets.rotationSets);
    ghost var flat :| TableOk(f, queries, table, flat);
    VanishZero(f, Diff(sets.superPointSet, FirstPoints(queries)), u);
    var ok, terms, rOuter, z0 := ProcessSets(f, queries, sets, table, yPowers, vPowers, u, y, v, flat);
    if !ok {
      return Err(Protocol);
    }
    ThreeMoreTerms(f, terms, rOuter, z0, h1, u, h2);
    return Ok(terms + [(f.neg(rOuter), f.One()), (f.neg(z0), h1), (u, h2)]);
  }

  method FinalizeShplonkPairs<F(!new,==)>(f: Field<F>, terms: seq<(F, F)>, h2: F) returns (p: PairingInput<F>)
    requires f.Valid()
    ensures p == PairingInput(h2, f.neg(Dot(f, terms)))
  {
    var outer := MsmG1(f, terms);
    var negOuter := NegG1(f, outer);
    p := PairingInput(h2, negOuter);
  }

  method VerifyOpening<F(!new,==)>(f: Field<F>, queries: seq<VerifierQuery<F>>, h1: F, h2: F, y: F, v: F, u: F)
    returns (r: Result<PairingInput<F>, Error>)
    requires f.Valid()
    ensures r.Err? <==> queries == [] || (u in Keys(queries, PointOf) && u !in FirstPoints(queries))
    ensures r.Ok? ==> r.value == PairingInput(h2, f.neg(OuterSum(f, queries, h1, h2, y, v, u)))
  {
    hide Field.Valid, Keys, OuterSum, FirstPoints;
    var terms := BuildShplonkMsmTerms(f, queries, h1, h2, y, v, u);
    if terms.Err? {
      return Err(terms.error);
    }
    var p := FinalizeShplonkPairs(f, terms.value, h2);
    return Ok(p);
  }

  /** A set with two commitments: the second commitment and its interpolant carry y. */
  lemma TwoMembers<F(!new)>(f: Field<F>, rs: RotationSet<F>, y: F, u: F)
    requires f.Valid() && WellShaped(rs) && |rs.commitmentsWithEvals| == 2
    ensures var p, q := rs.commitmentsWithEvals[0], rs.commitmentsWithEvals[1];
      && Eval(f, CommitsOf(rs), y) == f.add(p.0, f.mul(y, q.0))
      && Eval(f, ClaimsAt(f, rs, u), y)
         == f.add(Eval(f, Interpolant(f, rs.points, p.1), u), f.mul(y, Eval(f, Interpolant(f, rs.points, q.1), u)))
  {
    hide Field.Valid, Interpolant;
    var p, q := rs.commitmentsWithEvals[0], rs.commitmentsWithEvals[1];
    var a, b := Eval(f, Interpolant(f, rs.points, p.1), u), Eval(f, Interpolant(f, rs.points, q.1), u);
    assert CommitsOf(rs) == [p.0, q.0] && ClaimsAt(f, rs, u) == [a, b];
    EvalOfTwo(f, p.0, q.0, y);
    EvalOfTwo(f, a, b, y);
  }
}
