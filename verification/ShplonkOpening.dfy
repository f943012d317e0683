/**
 What the SHPLONK check tests, and its completeness. An honest prover commits to the polynomials behind the
 queries, to the batched quotients H, and to the quotient of the linearisation L by X - u; the
 check then holds, for every query list and all challenges it does not refuse.
 */
module ShplonkOpening {
  import opened Fields
  import opened Polynomials
  import opened Interpolation
  import opened Kzg
  import opened Grouping
  import opened RotationSets
  import opened Vanishing
  import opened Shplonk

  /** The polynomials combined with powers of y. */
  ghost function Batch<F(!new)>(f: Field<F>, polys: seq<seq<F>>, y: F): seq<F> {
    if polys == [] then []
    else Combine(f, Batch(f, polys[..|polys| - 1], y), polys[|polys| - 1], Pow(f, y, |polys| - 1))
  }

  ghost function ValuesAt<F(!new)>(f: Field<F>, polys: seq<seq<F>>, x: F): (r: seq<F>)
    ensures |r| == |polys|
  {
    seq(|polys|, j requires 0 <= j < |polys| => Eval(f, polys[j], x))
  }

  lemma {:induction false} EvalBatch<F(!new)>(f: Field<F>, polys: seq<seq<F>>, y: F, x: F)
    requires f.Valid()
    ensures Eval(f, Batch(f, polys, y), x) == Eval(f, ValuesAt(f, polys, x), y)
  {
    hide Field.Valid, Eval, Pow, Combine;
    if polys == [] {
      EvalEmpty(f, x, y);
    } else {
      var init, last := polys[..|polys| - 1], polys[|polys| - 1];
      EvalBatch(f, init, y, x);
      EvalCombine(f, Batch(f, init, y), last, Pow(f, y, |init|), x);
      assert ValuesAt(f, polys, x) == ValuesAt(f, init, x) + [Eval(f, last, x)];
      EvalSnoc(f, ValuesAt(f, init, x), Eval(f, last, x), y);
    }
  }

  lemma EvalEmpty<F(!new)>(f: Field<F>, x: F, y: F)
    ensures Eval(f, [], x) == f.Zero() == Eval(f, [], y)
  {
  }

  /** A common factor of all coefficients is a factor of the value. */
  lemma {:induction false} EvalScaled<F(!new)>(f: Field<F>, c: seq<F>, d: seq<F>, s: F, x: F)
    requires f.Valid() && |c| == |d| && forall i :: 0 <= i < |c| ==> d[i] == f.mul(s, c[i])
    ensures Eval(f, d, x) == f.mul(s, Eval(f, c, x))
  {
    if c == [] {
      MulZero(f, s);
    } else {
      EvalScaled(f, c[1..], d[1..], s, x);
      ScaleStep(f, s, c[0], x, Eval(f, c[1..], x));
    }
  }

  lemma ScaleStep<F(!new)>(f: Field<F>, s: F, c: F, x: F, e: F)
    requires f.Valid()
    ensures f.add(f.mul(s, c), f.mul(x, f.mul(s, e))) == f.mul(s, f.add(c, f.mul(x, e)))
  {
    var i, j, k, l := f.rep(s), f.rep(c), f.rep(x), f.rep(e);
    assert i * j + k * (i * l) == i * (j + k * l);
  }

  lemma {:induction false} EvalOfDifferences<F(!new)>(f: Field<F>, a: seq<F>, b: seq<F>, d: seq<F>, x: F)
    requires f.Valid() && |a| == |b| == |d| && forall i :: 0 <= i < |a| ==> d[i] == f.Sub(a[i], b[i])
    ensures Eval(f, d, x) == f.Sub(Eval(f, a, x), Eval(f, b, x))
  {
    if a == [] {
      SubIsZero(f, f.Zero(), f.Zero());
    } else {
      EvalOfDifferences(f, a[1..], b[1..], d[1..], x);
      DifferenceStep(f, a[0], b[0], x, Eval(f, a[1..], x), Eval(f, b[1..], x));
    }
  }

  lemma DifferenceStep<F(!new)>(f: Field<F>, a: F, b: F, x: F, p: F, q: F)
    requires f.Valid()
    ensures f.add(f.Sub(a, b), f.mul(x, f.Sub(p, q))) == f.Sub(f.add(a, f.mul(x, p)), f.add(b, f.mul(x, q)))
  {
    var i, j, k, l, m := f.rep(a), f.rep(b), f.rep(x), f.rep(p), f.rep(q);
    assert (i - j) + k * (l - m) == (i + k * l) - (j + k * m);
  }

  // ----- the honest prover -----

  /** Every commitment is that of one polynomial per slot, whatever the claims. */
  ghost predicate Committed<F(!new)>(f: Field<F>, queries: seq<VerifierQuery<F>>, poly: nat -> seq<F>, tau: F) {
    forall q :: q in queries ==> q.commitment == Eval(f, poly(q.commitId), tau)
  }

  /** Every commitment and every evaluation comes from one polynomial per slot. */
  ghost predicate Honest<F(!new)>(f: Field<F>, queries: seq<VerifierQuery<F>>, poly: nat -> seq<F>, tau: F) {
    Committed(f, queries, poly, tau) && forall q :: q in queries ==> q.eval == Eval(f, poly(q.commitId), q.point)
  }

  ghost function PolysOf<F(!new)>(queries: seq<VerifierQuery<F>>, poly: nat -> seq<F>, i: nat): (r: seq<seq<F>>)
    requires i < |Sets(queries)|
    ensures |r| == |MembersOf(queries, i)|
  {
    var pcs := MembersOf(queries, i);
    seq(|pcs|, j requires 0 <= j < |pcs| => poly(pcs[j].commitId))
  }

  /** The interpolant of what the slot claims. */
  ghost function ClaimPoly<F(!new)>(f: Field<F>, queries: seq<VerifierQuery<F>>, i: nat, j: nat): seq<F>
    requires i < |Sets(queries)| && j < |MembersOf(queries, i)|
  {
    SetPoints(queries, i);
    Interpolant(f, Sets(queries)[i].points, EvalsOf(MembersOf(queries, i)[j]))
  }

  /** `(f_j - r_j) / Z`: the quotient the prover batches for slot j of set i. */
  ghost function QuotientPoly<F(!new)>(f: Field<F>, queries: seq<VerifierQuery<F>>, poly: nat -> seq<F>, i: nat, j: nat): seq<F>
    requires i < |Sets(queries)| && j < |MembersOf(queries, i)|
  {
    DivideAll(f, Difference(f, poly(MembersOf(queries, i)[j].commitId), ClaimPoly(f, queries, i, j)), Sets(queries)[i].points)
  }

  ghost function QuotientsOf<F(!new)>(f: Field<F>, queries: seq<VerifierQuery<F>>, poly: nat -> seq<F>, i: nat): (r: seq<seq<F>>)
    requires i < |Sets(queries)|
    ensures |r| == |MembersOf(queries, i)|
  {
    seq(|MembersOf(queries, i)|, j requires 0 <= j < |MembersOf(queries, i)| => QuotientPoly(f, queries, poly, i, j))
  }

  /** H: all quotients, batched with powers of y inside a set and powers of v across sets. */
  ghost function HPoly<F(!new)>(f: Field<F>, queries: seq<VerifierQuery<F>>, poly: nat -> seq<F>, y: F, v: F): seq<F> {
    Batch(f, seq(|Sets(queries)|, i requires 0 <= i < |Sets(queries)| => Batch(f, QuotientsOf(f, queries, poly, i), y)), v)
  }

  /** The contribution of set i to the linearisation. */
  ghost function SetPoly<F(!new)>(f: Field<F>, queries: seq<VerifierQuery<F>>, poly: nat -> seq<F>, i: nat, y: F, u: F): seq<F>
    requires i < |Sets(queries)|
  {
    SetsWellShaped(queries);
    var claims := Eval(f, ClaimsAt(f, Sets(queries)[i], u), y);
    Combine(f, [], Difference(f, Batch(f, PolysOf(queries, poly, i), y), [claims]), ZDiffOf(f, queries, i, u))
  }

  ghost function SetPolys<F(!new)>(f: Field<F>, queries: seq<VerifierQuery<F>>, poly: nat -> seq<F>, y: F, u: F): (r: seq<seq<F>>)
    ensures |r| == |Sets(queries)|
  {
    seq(|Sets(queries)|, i requires 0 <= i < |Sets(queries)| => SetPoly(f, queries, poly, i, y, u))
  }

  /** The linearisation polynomial for a committed quotient h. */
  ghost function Linearised<F(!new)>(f: Field<F>, queries: seq<VerifierQuery<F>>, poly: nat -> seq<F>, h: seq<F>, y: F, v: F, u: F): seq<F>
    requires queries != []
  {
    Combine(f, Batch(f, SetPolys(f, queries, poly, y, u), v), h, f.neg(Vanish(f, FirstPoints(queries), u)))
  }

  /** L: the linearisation polynomial of the honest prover, which vanishes at u. */
  ghost function LPoly<F(!new)>(f: Field<F>, queries: seq<VerifierQuery<F>>, poly: nat -> seq<F>, y: F, v: F, u: F): seq<F>
    requires queries != []
  {
    Linearised(f, queries, poly, HPoly(f, queries, poly, y, v), y, v, u)
  }

  // ----- what honesty says about the slots -----

  lemma CommittedMember<F(!new)>(f: Field<F>, queries: seq<VerifierQuery<F>>, poly: nat -> seq<F>, tau: F, i: nat, j: nat)
    requires Committed(f, queries, poly, tau) && i < |Sets(queries)| && j < |MembersOf(queries, i)|
    ensures var pc := MembersOf(queries, i)[j]; pc.commitment == Eval(f, poly(pc.commitId), tau)
  {
    hide Eval, EvalsOf, Sets, MembersOf, Slot, Keys;
    SetPoints(queries, i);
    var pc := MembersOf(queries, i)[j];
    assert pc in MembersOf(queries, i);
    var k :| 0 <= k < |Slots(queries)| && Slots(queries)[k] == pc;
    SlotClaims(queries, Keys(queries, IdOf)[k], 0);
  }

  lemma HonestSlot<F(!new)>(f: Field<F>, queries: seq<VerifierQuery<F>>, poly: nat -> seq<F>, tau: F, pc: PerCommitment<F>)
    requires Honest(f, queries, poly, tau) && pc in Slots(queries)
    ensures |EvalsOf(pc)| == |pc.points|
    ensures forall k :: 0 <= k < |pc.points| ==> EvalsOf(pc)[k] == Eval(f, poly(pc.commitId), pc.points[k])
  {
    hide Eval, EvalsOf, Keys, WithKey, Slot;
    var i :| 0 <= i < |Slots(queries)| && Slots(queries)[i] == pc;
    var id := Keys(queries, IdOf)[i];
    forall k | 0 <= k < |pc.points| ensures EvalsOf(pc)[k] == Eval(f, poly(pc.commitId), pc.points[k]) {
      SlotClaims(queries, id, k);
    }
  }

  lemma HonestMember<F(!new)>(f: Field<F>, queries: seq<VerifierQuery<F>>, poly: nat -> seq<F>, tau: F, i: nat, j: nat)
    requires Honest(f, queries, poly, tau) && i < |Sets(queries)| && j < |MembersOf(queries, i)|
    ensures var pc, points := MembersOf(queries, i)[j], Sets(queries)[i].points;
      && |EvalsOf(pc)| == |points|
      && forall k :: 0 <= k < |points| ==> EvalsOf(pc)[k] == Eval(f, poly(pc.commitId), points[k])
  {
    hide Eval, EvalsOf, Keys, WithKey, Slots, Honest, Sets;
    SetPoints(queries, i);
    var pc := MembersOf(queries, i)[j];
    assert pc in MembersOf(queries, i);
    HonestSlot(f, queries, poly, tau, pc);
  }

  /** `f_j - r_j = q_j * Z`, at every x. */
  lemma QuotientIdentity<F(!new)>(f: Field<F>, queries: seq<VerifierQuery<F>>, poly: nat -> seq<F>, tau: F, i: nat, j: nat, x: F)
    requires f.Valid() && Honest(f, queries, poly, tau) && i < |Sets(queries)| && j < |MembersOf(queries, i)|
    ensures f.Sub(Eval(f, poly(MembersOf(queries, i)[j].commitId), x), Eval(f, ClaimPoly(f, queries, i, j), x))
         == f.mul(Eval(f, QuotientPoly(f, queries, poly, i, j), x), Vanish(f, Sets(queries)[i].points, x))
  {
    hide Field.Valid, Eval, EvalsOf, Honest, Sets, Interpolant, Difference, DivideAll, Vanish, MembersOf;
    SetPoints(queries, i);
    HonestMember(f, queries, poly, tau, i, j);
    var pc, points := MembersOf(queries, i)[j], Sets(queries)[i].points;
    var c, r := poly(pc.commitId), ClaimPoly(f, queries, i, j);
    forall p | p in points ensures Eval(f, Difference(f, c, r), p) == f.Zero() {
      var k :| 0 <= k < |points| && points[k] == p;
      InterpolantAt(f, points, EvalsOf(pc), k);
      EvalDifference(f, c, r, p);
      SubIsZero(f, Eval(f, c, p), Eval(f, r, p));
    }
    ExactDivision(f, Difference(f, c, r), points, x);
    EvalDifference(f, c, r, x);
  }

  lemma InterpolantAt<F(!new)>(f: Field<F>, points: seq<F>, values: seq<F>, k: nat)
    requires f.Valid() && |points| == |values| && Distinct(points) && k < |points|
    ensures Eval(f, Interpolant(f, points, values), points[k]) == values[k]
  {
    EvalPartial(f, points, values, |points|, k);
  }

  lemma CommitsAtTau<F(!new)>(f: Field<F>, queries: seq<VerifierQuery<F>>, poly: nat -> seq<F>, tau: F, i: nat)
    requires Committed(f, queries, poly, tau) && i < |Sets(queries)|
    ensures CommitsOf(Sets(queries)[i]) == ValuesAt(f, PolysOf(queries, poly, i), tau)
  {
    hide Eval, EvalsOf, Committed, Sets, MembersOf;
    forall j | 0 <= j < |MembersOf(queries, i)|
      ensures CommitsOf(Sets(queries)[i])[j] == ValuesAt(f, PolysOf(queries, poly, i), tau)[j]
    {
      CommittedMember(f, queries, poly, tau, i, j);
    }
  }

  lemma ClaimsAreClaimPolys<F(!new)>(f: Field<F>, queries: seq<VerifierQuery<F>>, i: nat, j: nat, u: F)
    requires i < |Sets(queries)| && j < |MembersOf(queries, i)| && WellShaped(Sets(queries)[i])
    ensures ClaimsAt(f, Sets(queries)[i], u)[j] == Eval(f, ClaimPoly(f, queries, i, j), u)
  {
    hide Eval, EvalsOf, Sets, MembersOf, Interpolant, WellShaped;
    SetPoints(queries, i);
  }

  lemma EvalConstant<F(!new)>(f: Field<F>, a: F, x: F)
    requires f.Valid()
    ensures Eval(f, [a], x) == a && Eval(f, [], x) == f.Zero()
  {
    assert [a][1..] == [];
    MulZero(f, x);
    AddZero(f, a);
  }

  /** The value of a set's contribution at x. */
  lemma SetPolyAt<F(!new)>(f: Field<F>, queries: seq<VerifierQuery<F>>, poly: nat -> seq<F>, i: nat, y: F, u: F, x: F)
    requires f.Valid() && i < |Sets(queries)| && WellShaped(Sets(queries)[i])
    ensures Eval(f, SetPoly(f, queries, poly, i, y, u), x) ==
            f.mul(ZDiffOf(f, queries, i, u),
                  f.Sub(Eval(f, ValuesAt(f, PolysOf(queries, poly, i), x), y), Eval(f, ClaimsAt(f, Sets(queries)[i], u), y)))
  {
    hide Field.Valid, Eval, Sets, Combine, Difference, Batch, WellShaped, ClaimsAt, ZDiffOf, PolysOf, Field.Sub;
    var claims, zd := Eval(f, ClaimsAt(f, Sets(queries)[i], u), y), ZDiffOf(f, queries, i, u);
    var b := Batch(f, PolysOf(queries, poly, i), y);
    var d := Difference(f, b, [claims]);
    EvalCombine(f, [], d, zd, x);
    EvalDifference(f, b, [claims], x);
    EvalConstant(f, claims, x);
    EvalBatch(f, PolysOf(queries, poly, i), y, x);
    AddZero(f, f.mul(Eval(f, d, x), zd));
    MulComm(f, Eval(f, d, x), zd);
  }

  /** At u a set contributes its batched quotient times the factor of the first set. */
  lemma SetPolyAtU<F(!new)>(f: Field<F>, queries: seq<VerifierQuery<F>>, poly: nat -> seq<F>, tau: F, i: nat, y: F, u: F)
    requires f.Valid() && Honest(f, queries, poly, tau) && queries != [] && i < |Sets(queries)|
    requires Vanish(f, Diff(Keys(queries, PointOf), FirstPoints(queries)), u) != f.Zero()
    ensures Eval(f, SetPoly(f, queries, poly, i, y, u), u)
         == f.mul(Vanish(f, FirstPoints(queries), u), Eval(f, Batch(f, QuotientsOf(f, queries, poly, i), y), u))
  {
    hide Field.Valid, Eval, Sets, Batch, ClaimsAt, WellShaped, PolysOf, Honest, Vanish, Diff, Keys, MembersOf, ZDiff,
         ClaimPoly, QuotientPoly, QuotientsOf, SetPoly, Field.Sub;
    SetsWellShaped(queries);
    SetPolyAt(f, queries, poly, i, y, u, u);
    var values, claims := ValuesAt(f, PolysOf(queries, poly, i), u), ClaimsAt(f, Sets(queries)[i], u);
    var quotients := ValuesAt(f, QuotientsOf(f, queries, poly, i), u);
    var zd, own := ZDiffOf(f, queries, i, u), Vanish(f, Sets(queries)[i].points, u);
    var diffs := seq(|values|, j requires 0 <= j < |values| => f.Sub(values[j], claims[j]));
    forall j | 0 <= j < |diffs| ensures diffs[j] == f.mul(own, quotients[j]) {
      MemberAtU(f, queries, poly, tau, i, j, u);
    }
    EvalOfDifferences(f, values, claims, diffs, y);
    EvalScaled(f, quotients, diffs, own, y);
    EvalBatch(f, QuotientsOf(f, queries, poly, i), y, u);
    MulAssoc(f, zd, own, Eval(f, quotients, y));
    NormalisedFactor(f, queries, i, u);
  }

  lemma MemberAtU<F(!new)>(f: Field<F>, queries: seq<VerifierQuery<F>>, poly: nat -> seq<F>, tau: F, i: nat, j: nat, u: F)
    requires f.Valid() && Honest(f, queries, poly, tau) && i < |Sets(queries)| && j < |MembersOf(queries, i)|
    requires WellShaped(Sets(queries)[i])
    ensures f.Sub(ValuesAt(f, PolysOf(queries, poly, i), u)[j], ClaimsAt(f, Sets(queries)[i], u)[j])
         == f.mul(Vanish(f, Sets(queries)[i].points, u), ValuesAt(f, QuotientsOf(f, queries, poly, i), u)[j])
  {
    hide Field.Valid, Eval, Sets, ClaimsAt, WellShaped, Honest, Vanish, MembersOf, ClaimPoly, QuotientPoly, Field.Sub;
    QuotientIdentity(f, queries, poly, tau, i, j, u);
    ClaimsAreClaimPolys(f, queries, i, j, u);
    MulComm(f, Eval(f, QuotientPoly(f, queries, poly, i, j), u), Vanish(f, Sets(queries)[i].points, u));
  }

  lemma NormalisedFactor<F(!new)>(f: Field<F>, queries: seq<VerifierQuery<F>>, i: nat, u: F)
    requires f.Valid() && queries != [] && i < |Sets(queries)|
    requires Vanish(f, Diff(Keys(queries, PointOf), FirstPoints(queries)), u) != f.Zero()
    ensures f.mul(ZDiffOf(f, queries, i, u), Vanish(f, Sets(queries)[i].points, u)) == Vanish(f, FirstPoints(queries), u)
  {
    hide Field.Valid, Sets, Vanish, Diff, Keys, MembersOf, ZDiff;
    SetPoints(queries, i);
    SetPoints(queries, 0);
    SuperSetDistinct(queries);
    ZDiffNormalises(f, Keys(queries, PointOf), Sets(queries)[0].points, Sets(queries)[i].points, i, u);
  }

  lemma SuperSetDistinct<F(!new)>(queries: seq<VerifierQuery<F>>)
    ensures Distinct(Keys(queries, PointOf))
  {
  }

  lemma LinearisedAt<F(!new)>(f: Field<F>, queries: seq<VerifierQuery<F>>, poly: nat -> seq<F>, h: seq<F>, y: F, v: F, u: F, x: F)
    requires f.Valid() && queries != []
    ensures Eval(f, Linearised(f, queries, poly, h, y, v, u), x) ==
            f.Sub(Eval(f, ValuesAt(f, SetPolys(f, queries, poly, y, u), x), v), f.mul(Vanish(f, FirstPoints(queries), u), Eval(f, h, x)))
  {
    hide Field.Valid, Eval, Combine, Batch, FirstPoints, Vanish, SetPolys;
    var sp, z := SetPolys(f, queries, poly, y, u), Vanish(f, FirstPoints(queries), u);
    EvalCombine(f, Batch(f, sp, v), h, f.neg(z), x);
    EvalBatch(f, sp, v, x);
    TimesNegative(f, Eval(f, h, x), z);
  }

  lemma TimesNegative<F(!new)>(f: Field<F>, a: F, z: F)
    requires f.Valid()
    ensures f.mul(a, f.neg(z)) == f.neg(f.mul(z, a))
  {
    var i, j := f.rep(a), f.rep(z);
    assert i * -j == -(j * i);
  }

  /** The linearisation vanishes at u. */
  lemma LinearisationVanishes<F(!new)>(f: Field<F>, queries: seq<VerifierQuery<F>>, poly: nat -> seq<F>, tau: F, y: F, v: F, u: F)
    requires f.Valid() && Honest(f, queries, poly, tau) && queries != []
    requires u in Keys(queries, PointOf) ==> u in FirstPoints(queries)
    ensures Eval(f, LPoly(f, queries, poly, y, v, u), u) == f.Zero()
  {
    hide Field.Valid, Eval, Batch, FirstPoints, Vanish, Honest, Keys, Sets, SetPoly, QuotientsOf, Linearised, Field.Sub, Diff;
    VanishZero(f, Diff(Keys(queries, PointOf), FirstPoints(queries)), u);
    LinearisedAt(f, queries, poly, HPoly(f, queries, poly, y, v), y, v, u, u);
    var z := Vanish(f, FirstPoints(queries), u);
    var parts := seq(|Sets(queries)|, i requires 0 <= i < |Sets(queries)| => Batch(f, QuotientsOf(f, queries, poly, i), y));
    var hs, ls := ValuesAt(f, parts, u), ValuesAt(f, SetPolys(f, queries, poly, y, u), u);
    forall i | 0 <= i < |ls| ensures ls[i] == f.mul(z, hs[i]) {
      SetPolyAtU(f, queries, poly, tau, i, y, u);
    }
    EvalScaled(f, hs, ls, z, v);
    EvalBatch(f, parts, v, u);
    SubIsZero(f, Eval(f, ls, v), f.mul(z, Eval(f, hs, v)));
  }

  lemma SetTermsAreValues<F(!new)>(f: Field<F>, queries: seq<VerifierQuery<F>>, poly: nat -> seq<F>, tau: F, y: F, u: F)
    requires f.Valid() && Committed(f, queries, poly, tau)
    ensures SetTerms(f, queries, y, u) == ValuesAt(f, SetPolys(f, queries, poly, y, u), tau)
  {
    hide Field.Valid, Eval, Committed, Sets, SetPoly, PolysOf, CommitsOf, ClaimsAt, WellShaped, ZDiffOf, Field.Sub;
    SetsWellShaped(queries);
    forall i | 0 <= i < |Sets(queries)|
      ensures SetTerms(f, queries, y, u)[i] == ValuesAt(f, SetPolys(f, queries, poly, y, u), tau)[i]
    {
      SetPolyAt(f, queries, poly, i, y, u, tau);
      CommitsAtTau(f, queries, poly, tau, i);
    }
  }

  /** With a polynomial h committed in h1, the terms sum to `L(tau) + u * h2`, whatever the claims. */
  lemma TermsSumToLinearisation<F(!new)>(f: Field<F>, queries: seq<VerifierQuery<F>>, poly: nat -> seq<F>, tau: F, h: seq<F>,
                                         h1: F, h2: F, y: F, v: F, u: F)
    requires f.Valid() && Committed(f, queries, poly, tau) && queries != []
    requires h1 == Eval(f, h, tau)
    ensures OuterSum(f, queries, h1, h2, y, v, u) == f.add(Eval(f, Linearised(f, queries, poly, h, y, v, u), tau), f.mul(u, h2))
  {
    hide Field.Valid, Eval, Committed, Linearised, SetTerms, SetPolys, FirstPoints, Vanish, Field.Sub;
    SetTermsAreValues(f, queries, poly, tau, y, u);
    LinearisedAt(f, queries, poly, h, y, v, u, tau);
  }

  lemma PairingIffQuotient<F(!new)>(f: Field<F>, tau: F, u: F, h2: F, l: F)
    requires f.Valid()
    ensures f.add(f.mul(tau, h2), f.neg(f.add(l, f.mul(u, h2)))) == f.Zero() <==> f.mul(f.Sub(tau, u), h2) == l
  {
    var i, j, k, m := f.rep(tau), f.rep(u), f.rep(h2), f.rep(l);
    assert i * k + -(m + j * k) == (i - j) * k - m;
    assert f.add(f.mul(tau, h2), f.neg(f.add(l, f.mul(u, h2)))) == f.Sub(f.mul(f.Sub(tau, u), h2), l);
    SubIsZero(f, f.mul(f.Sub(tau, u), h2), l);
  }

  /** Against commitments to polynomials, true or false claims and any committed h, a second commitment
      passes exactly when it is the quotient of the linearisation by X - u, at tau. */
  lemma CheckPassesIffQuotient<F(!new)>(f: Field<F>, queries: seq<VerifierQuery<F>>, poly: nat -> seq<F>, tau: F, h: seq<F>,
                                        h1: F, h2: F, y: F, v: F, u: F)
    requires f.Valid() && Committed(f, queries, poly, tau) && queries != []
    requires h1 == Eval(f, h, tau)
    ensures PairingValue(f, PairingInput(h2, f.neg(OuterSum(f, queries, h1, h2, y, v, u))), tau) == f.Zero() <==>
            f.mul(f.Sub(tau, u), h2) == Eval(f, Linearised(f, queries, poly, h, y, v, u), tau)
  {
    hide Field.Valid, Eval, Committed, Linearised, OuterSum, Field.Sub;
    TermsSumToLinearisation(f, queries, poly, tau, h, h1, h2, y, v, u);
    PairingIffQuotient(f, tau, u, h2, Eval(f, Linearised(f, queries, poly, h, y, v, u), tau));
  }

  /** Completeness: the honest proof is accepted for every query list and all challenges that are
      not refused. */
  lemma HonestProofAccepted<F(!new)>(f: Field<F>, queries: seq<VerifierQuery<F>>, poly: nat -> seq<F>, tau: F, y: F, v: F, u: F)
    requires f.Valid() && Honest(f, queries, poly, tau) && queries != []
    requires u in Keys(queries, PointOf) ==> u in FirstPoints(queries)
    ensures var h1 := Eval(f, HPoly(f, queries, poly, y, v), tau);
            var h2 := Eval(f, Quotient(f, LPoly(f, queries, poly, y, v, u), u), tau);
            PairingValue(f, PairingInput(h2, f.neg(OuterSum(f, queries, h1, h2, y, v, u))), tau) == f.Zero()
  {
    hide Field.Valid, Eval, Committed, HPoly, Linearised, OuterSum, Field.Sub, FirstPoints, Keys, PairingValue, Quotient;
    var l := LPoly(f, queries, poly, y, v, u);
    var h1, h2 := Eval(f, HPoly(f, queries, poly, y, v), tau), Eval(f, Quotient(f, l, u), tau);
    LinearisationVanishes(f, queries, poly, tau, y, v, u);
    Division(f, l, u, tau);
    AddZero(f, f.mul(f.Sub(tau, u), h2));
    CheckPassesIffQuotient(f, queries, poly, tau, HPoly(f, queries, poly, y, v), h1, h2, y, v, u);
  }
}
