/**
 Soundness of the SHPLONK linearisation, by counting roots: if for enough challenges the linearisation
 of some quotient vanishes, every claim of the query list is true of the committed polynomials.
 */
module ShplonkSoundness {
  import opened Fields
  import opened Polynomials
  import opened Interpolation
  import opened Kzg
  import opened Grouping
  import opened RotationSets
  import opened Vanishing
  import opened LinearProducts
  import opened Shplonk
  import opened ShplonkOpening

  // ----- sizes -----

  lemma {:induction false} BatchSize<F(!new)>(f: Field<F>, polys: seq<seq<F>>, y: F, m: nat)
    requires forall i :: 0 <= i < |polys| ==> |polys[i]| <= m
    ensures |Batch(f, polys, y)| <= m
  {
    hide Pow;
    if polys != [] {
      BatchSize(f, polys[..|polys| - 1], y, m);
    }
  }

  // ----- the linearisation without denominators -----

  ghost function AllPoints<F(!new)>(queries: seq<VerifierQuery<F>>): seq<F> {
    Keys(queries, PointOf)
  }

  ghost function OtherPoints<F(!new)>(queries: seq<VerifierQuery<F>>, k: nat): seq<F>
    requires k < |Sets(queries)|
  {
    Diff(AllPoints(queries), Sets(queries)[k].points)
  }

  ghost function ClaimPolys<F(!new)>(f: Field<F>, queries: seq<VerifierQuery<F>>, k: nat): (r: seq<seq<F>>)
    requires k < |Sets(queries)|
    ensures |r| == |MembersOf(queries, k)|
  {
    seq(|MembersOf(queries, k)|, j requires 0 <= j < |MembersOf(queries, k)| => ClaimPoly(f, queries, k, j))
  }

  /** What set k's polynomials differ from its claims by, batched with powers of y. */
  ghost function Deviation<F(!new)>(f: Field<F>, queries: seq<VerifierQuery<F>>, poly: nat -> seq<F>, k: nat, y: F): seq<F>
    requires k < |Sets(queries)|
  {
    Difference(f, Batch(f, PolysOf(queries, poly, k), y), Batch(f, ClaimPolys(f, queries, k), y))
  }

  ghost function Parts<F(!new)>(f: Field<F>, queries: seq<VerifierQuery<F>>, poly: nat -> seq<F>, y: F): (r: seq<seq<F>>)
    ensures |r| == |Sets(queries)|
  {
    seq(|Sets(queries)|, k requires 0 <= k < |Sets(queries)| => TimesAll(f, Deviation(f, queries, poly, k, y), OtherPoints(queries, k)))
  }

  /** `sum_k v^k Z_{T \ S_k} D_k - Z_T h`, a polynomial that does not depend on u. */
  ghost function Cleared<F(!new)>(f: Field<F>, queries: seq<VerifierQuery<F>>, poly: nat -> seq<F>, h: seq<F>, y: F, v: F): seq<F> {
    Difference(f, Batch(f, Parts(f, queries, poly, y), v), TimesAll(f, h, AllPoints(queries)))
  }

  /** The deviations of set k's members at one point. */
  ghost function DeviationsAt<F(!new)>(f: Field<F>, queries: seq<VerifierQuery<F>>, poly: nat -> seq<F>, k: nat, x: F): (r: seq<F>)
    requires k < |Sets(queries)|
    ensures |r| == |MembersOf(queries, k)|
  {
    var a, b := ValuesAt(f, PolysOf(queries, poly, k), x), ValuesAt(f, ClaimPolys(f, queries, k), x);
    seq(|a|, j requires 0 <= j < |a| => f.Sub(a[j], b[j]))
  }

  lemma DeviationAt<F(!new)>(f: Field<F>, queries: seq<VerifierQuery<F>>, poly: nat -> seq<F>, k: nat, y: F, x: F)
    requires f.Valid() && k < |Sets(queries)|
    ensures Eval(f, Deviation(f, queries, poly, k, y), x)
         == f.Sub(Eval(f, ValuesAt(f, PolysOf(queries, poly, k), x), y), Eval(f, ValuesAt(f, ClaimPolys(f, queries, k), x), y))
    ensures Eval(f, Deviation(f, queries, poly, k, y), x) == Eval(f, DeviationsAt(f, queries, poly, k, x), y)
  {
    hide Field.Valid, Eval, Batch, Difference, Sets, MembersOf, ClaimPolys, PolysOf, Field.Sub;
    var a, b := PolysOf(queries, poly, k), ClaimPolys(f, queries, k);
    EvalDifference(f, Batch(f, a, y), Batch(f, b, y), x);
    EvalBatch(f, a, y, x);
    EvalBatch(f, b, y, x);
    EvalOfDifferences(f, ValuesAt(f, a, x), ValuesAt(f, b, x), DeviationsAt(f, queries, poly, k, x), y);
  }

  lemma PartAt<F(!new)>(f: Field<F>, queries: seq<VerifierQuery<F>>, poly: nat -> seq<F>, k: nat, y: F, x: F)
    requires f.Valid() && k < |Sets(queries)|
    ensures ValuesAt(f, Parts(f, queries, poly, y), x)[k]
         == f.mul(Eval(f, Deviation(f, queries, poly, k, y), x), Vanish(f, OtherPoints(queries, k), x))
  {
    hide Field.Valid, Eval, TimesAll, Deviation, Sets, OtherPoints, Vanish;
    EvalTimesAll(f, Deviation(f, queries, poly, k, y), OtherPoints(queries, k), x);
  }

  lemma ClearedAt<F(!new)>(f: Field<F>, queries: seq<VerifierQuery<F>>, poly: nat -> seq<F>, h: seq<F>, y: F, v: F, x: F)
    requires f.Valid()
    ensures Eval(f, Cleared(f, queries, poly, h, y, v), x)
         == f.Sub(Eval(f, ValuesAt(f, Parts(f, queries, poly, y), x), v), f.mul(Eval(f, h, x), Vanish(f, AllPoints(queries), x)))
  {
    hide Field.Valid, Eval, Batch, TimesAll, Parts, Difference, AllPoints, Vanish, Field.Sub;
    EvalDifference(f, Batch(f, Parts(f, queries, poly, y), v), TimesAll(f, h, AllPoints(queries)), x);
    EvalBatch(f, Parts(f, queries, poly, y), v, x);
    EvalTimesAll(f, h, AllPoints(queries), x);
  }

  // ----- the linearisation is the cleared polynomial divided by a non-zero factor -----

  /** u is no query point outside the first set. */
  ghost predicate Allowed<F(!new)>(queries: seq<VerifierQuery<F>>, u: F)
    requires queries != []
  {
    u in AllPoints(queries) ==> u in FirstPoints(queries)
  }

  lemma ComplementFactor<F(!new)>(f: Field<F>, queries: seq<VerifierQuery<F>>, k: nat, u: F)
    requires f.Valid() && queries != [] && k < |Sets(queries)| && 0 < |Sets(queries)|
    requires Vanish(f, OtherPoints(queries, 0), u) != f.Zero()
    ensures Vanish(f, OtherPoints(queries, k), u) == f.mul(Vanish(f, OtherPoints(queries, 0), u), ZDiffOf(f, queries, k, u))
  {
    hide Field.Valid, Vanish, Diff, Sets, Keys;
    var d, d0 := Vanish(f, OtherPoints(queries, k), u), Vanish(f, OtherPoints(queries, 0), u);
    if k == 0 {
      MulOne(f, d0);
    } else {
      DivideAndMultiply(f, d, d0);
    }
  }

  lemma DivideAndMultiply<F(!new)>(f: Field<F>, d: F, d0: F)
    requires f.Valid() && d0 != f.Zero()
    ensures f.mul(d0, f.mul(d, f.inv(d0))) == d
  {
    hide Field.Valid;
    MulComm(f, d, f.inv(d0));
    MulAssoc(f, d0, f.inv(d0), d);
    MulComm(f, d0, f.inv(d0));
    MulAssoc(f, f.inv(d0), d0, d);
    MulInverseLeft(f, d0, d);
  }

  lemma PartAtU<F(!new)>(f: Field<F>, queries: seq<VerifierQuery<F>>, poly: nat -> seq<F>, k: nat, y: F, u: F)
    requires f.Valid() && queries != [] && k < |Sets(queries)| && 0 < |Sets(queries)|
    requires Vanish(f, OtherPoints(queries, 0), u) != f.Zero()
    ensures ValuesAt(f, Parts(f, queries, poly, y), u)[k]
         == f.mul(Vanish(f, OtherPoints(queries, 0), u), ValuesAt(f, SetPolys(f, queries, poly, y, u), u)[k])
  {
    hide Field.Valid, Eval, Vanish, Sets, OtherPoints, Parts, SetPoly, Deviation, ZDiffOf, ClaimsAt, WellShaped, PolysOf, ClaimPolys, MembersOf, Field.Sub;
    SetsWellShaped(queries);
    PartAt(f, queries, poly, k, y, u);
    DeviationAt(f, queries, poly, k, y, u);
    SetPolyAt(f, queries, poly, k, y, u, u);
    ClaimsAgree(f, queries, k, u);
    ComplementFactor(f, queries, k, u);
    var e, z, d := Eval(f, Deviation(f, queries, poly, k, y), u), ZDiffOf(f, queries, k, u), Vanish(f, OtherPoints(queries, 0), u);
    MulComm(f, e, f.mul(d, z));
    MulAssoc(f, d, z, e);
  }

  lemma ClaimsAgree<F(!new)>(f: Field<F>, queries: seq<VerifierQuery<F>>, k: nat, u: F)
    requires k < |Sets(queries)| && WellShaped(Sets(queries)[k])
    ensures ClaimsAt(f, Sets(queries)[k], u) == ValuesAt(f, ClaimPolys(f, queries, k), u)
  {
    hide Eval, Sets, MembersOf, WellShaped, ClaimPoly, ClaimsAt;
    ClaimsLength(f, queries, k, u);
    forall j | 0 <= j < |MembersOf(queries, k)| ensures ClaimsAt(f, Sets(queries)[k], u)[j] == ValuesAt(f, ClaimPolys(f, queries, k), u)[j] {
      ClaimsAreClaimPolys(f, queries, k, j, u);
    }
  }

  lemma ClaimsLength<F(!new)>(f: Field<F>, queries: seq<VerifierQuery<F>>, k: nat, u: F)
    requires k < |Sets(queries)| && WellShaped(Sets(queries)[k])
    ensures |ClaimsAt(f, Sets(queries)[k], u)| == |MembersOf(queries, k)|
  {
    hide Sets, MembersOf, WellShaped, Eval;
  }

  lemma ClearedAtU<F(!new)>(f: Field<F>, queries: seq<VerifierQuery<F>>, poly: nat -> seq<F>, h: seq<F>, y: F, v: F, u: F)
    requires f.Valid() && queries != [] && Allowed(queries, u)
    ensures 0 < |Sets(queries)|
    ensures Eval(f, Cleared(f, queries, poly, h, y, v), u)
         == f.mul(Vanish(f, OtherPoints(queries, 0), u), Eval(f, Linearised(f, queries, poly, h, y, v, u), u))
  {
    hide Field.Valid, Eval, Vanish, Sets, OtherPoints, Parts, Cleared, Linearised, SetPolys, AllPoints, FirstPoints, Field.Sub;
    SetsNonEmpty(queries);
    NonZeroComplement(f, queries, u);
    var d := Vanish(f, OtherPoints(queries, 0), u);
    var parts, ls := ValuesAt(f, Parts(f, queries, poly, y), u), ValuesAt(f, SetPolys(f, queries, poly, y, u), u);
    forall k | 0 <= k < |parts| ensures parts[k] == f.mul(d, ls[k]) {
      PartAtU(f, queries, poly, k, y, u);
    }
    EvalScaled(f, ls, parts, d, v);
    ClearedAt(f, queries, poly, h, y, v, u);
    LinearisedAt(f, queries, poly, h, y, v, u, u);
    FactorOfSubtraction(f, d, Eval(f, ls, v), Eval(f, h, u), Vanish(f, FirstPoints(queries), u));
  }

  lemma NonZeroComplement<F(!new)>(f: Field<F>, queries: seq<VerifierQuery<F>>, u: F)
    requires f.Valid() && queries != [] && Allowed(queries, u) && 0 < |Sets(queries)|
    ensures Vanish(f, OtherPoints(queries, 0), u) != f.Zero()
    ensures Vanish(f, AllPoints(queries), u) == f.mul(Vanish(f, OtherPoints(queries, 0), u), Vanish(f, FirstPoints(queries), u))
  {
    hide Field.Valid, Vanish, Sets, Diff, Keys;
    VanishZero(f, OtherPoints(queries, 0), u);
    SetPoints(queries, 0);
    SuperSetDistinct(queries);
    VanishSplit(f, AllPoints(queries), Sets(queries)[0].points, u);
  }

  lemma FactorOfSubtraction<F(!new)>(f: Field<F>, d: F, a: F, h: F, z: F)
    requires f.Valid()
    ensures f.Sub(f.mul(d, a), f.mul(h, f.mul(d, z))) == f.mul(d, f.Sub(a, f.mul(z, h)))
  {
    var i, j, k, l := f.rep(d), f.rep(a), f.rep(h), f.rep(z);
    assert i * j - k * (i * l) == i * (j - l * k);
  }

  // ----- counting roots in u -----

  function Max(a: nat, b: nat): nat {
    if a < b then b else a
  }

  /** All committed polynomials have at most d coefficients. */
  ghost predicate Bounded<F(!new)>(queries: seq<VerifierQuery<F>>, poly: nat -> seq<F>, d: nat) {
    forall q :: q in queries ==> |poly(q.commitId)| <= d
  }

  lemma MemberBounded<F(!new)>(queries: seq<VerifierQuery<F>>, poly: nat -> seq<F>, d: nat, k: nat, j: nat)
    requires Bounded(queries, poly, d) && k < |Sets(queries)| && j < |MembersOf(queries, k)|
    ensures |poly(MembersOf(queries, k)[j].commitId)| <= d
  {
    hide Sets, EvalsOf, Slot;
    SetPoints(queries, k);
    var pc := MembersOf(queries, k)[j];
    assert pc in Slots(queries);
    var i :| 0 <= i < |Slots(queries)| && Slots(queries)[i] == pc;
    var id := Keys(queries, IdOf)[i];
    SomeWithKey(queries, IdOf, id);
  }

  lemma DifferenceSize<F(!new)>(f: Field<F>, a: seq<F>, b: seq<F>)
    ensures |Difference(f, a, b)| == Max(|a|, |b|)
  {
  }

  lemma ClaimPolySize<F(!new)>(f: Field<F>, queries: seq<VerifierQuery<F>>, k: nat, j: nat)
    requires k < |Sets(queries)| && j < |MembersOf(queries, k)|
    ensures |ClaimPoly(f, queries, k, j)| == |Sets(queries)[k].points|
  {
    hide Sets, MembersOf, EvalsOf;
    SetPoints(queries, k);
  }

  lemma SetIsPart<F(!new)>(queries: seq<VerifierQuery<F>>, k: nat)
    requires k < |Sets(queries)|
    ensures |Sets(queries)[k].points| <= |AllPoints(queries)|
  {
    hide Sets, MembersOf, EvalsOf, Keys;
    SetPoints(queries, k);
    SuperSetDistinct(queries);
    PartIsShorter(Sets(queries)[k].points, AllPoints(queries));
  }

  lemma DeviationSize<F(!new)>(f: Field<F>, queries: seq<VerifierQuery<F>>, poly: nat -> seq<F>, d: nat, k: nat, y: F)
    requires Bounded(queries, poly, d) && k < |Sets(queries)|
    ensures |Deviation(f, queries, poly, k, y)| <= Max(d, |AllPoints(queries)|)
  {
    hide Sets, MembersOf, Batch, Difference, EvalsOf, Bounded, Keys, ClaimPoly, AllPoints;
    SetIsPart(queries, k);
    var polys, claims, m := PolysOf(queries, poly, k), ClaimPolys(f, queries, k), Max(d, |AllPoints(queries)|);
    forall j | 0 <= j < |polys| ensures |polys[j]| <= m && |claims[j]| <= m {
      MemberBounded(queries, poly, d, k, j);
      ClaimPolySize(f, queries, k, j);
    }
    BatchSize(f, polys, y, m);
    BatchSize(f, claims, y, m);
    DifferenceSize(f, Batch(f, polys, y), Batch(f, claims, y));
  }

  lemma ClearedSize<F(!new)>(f: Field<F>, queries: seq<VerifierQuery<F>>, poly: nat -> seq<F>, d: nat, h: seq<F>, y: F, v: F)
    requires Bounded(queries, poly, d) && |h| <= d
    ensures |Cleared(f, queries, poly, h, y, v)| <= Max(d, |AllPoints(queries)|) + |AllPoints(queries)|
  {
    hide Sets, Batch, Bounded, Deviation, Difference, AllPoints, OtherPoints, TimesAll;
    var parts, n := Parts(f, queries, poly, y), |AllPoints(queries)|;
    var m := Max(d, n);
    forall k | 0 <= k < |parts| ensures |parts[k]| <= m + n {
      DeviationSize(f, queries, poly, d, k, y);
      OthersAreFewer(queries, k);
    }
    BatchSize(f, parts, v, m + n);
    DifferenceSize(f, Batch(f, parts, v), TimesAll(f, h, AllPoints(queries)));
  }

  lemma OthersAreFewer<F(!new)>(queries: seq<VerifierQuery<F>>, k: nat)
    requires k < |Sets(queries)|
    ensures |OtherPoints(queries, k)| <= |AllPoints(queries)|
  {
    hide Sets, AllPoints;
    DiffIsShorter(AllPoints(queries), Sets(queries)[k].points);
  }

  lemma {:induction false} DiffIsShorter<F(!new)>(all: seq<F>, points: seq<F>)
    ensures |Diff(all, points)| <= |all|
  {
    if all != [] {
      DiffIsShorter(all[..|all| - 1], points);
    }
  }

  /** A polynomial with as many roots as coefficients vanishes everywhere. */
  lemma VanishesEverywhere<F(!new)>(f: Field<F>, c: seq<F>, us: seq<F>, x: F)
    requires f.Valid() && Distinct(us) && |c| <= |us| && forall i :: 0 <= i < |us| ==> Eval(f, c, us[i]) == f.Zero()
    ensures Eval(f, c, x) == f.Zero()
  {
    hide Field.Valid, Eval;
    TooManyRoots(f, c, us);
    EvalZeros(f, c, x);
  }

  /** If the equation the check tests holds at more tau than the degrees allow, for one committed
      second polynomial w, then the linearisation vanishes at u. */
  lemma PassingManyTausVanishes<F(!new)>(f: Field<F>, l: seq<F>, w: seq<F>, u: F, taus: seq<F>)
    requires f.Valid() && Distinct(taus) && Max(|w| + 1, |l|) <= |taus|
    requires forall i :: 0 <= i < |taus| ==> f.mul(f.Sub(taus[i], u), Eval(f, w, taus[i])) == Eval(f, l, taus[i])
    ensures Eval(f, l, u) == f.Zero()
  {
    hide Field.Valid, Eval, TimesLinear, Difference, Field.Sub;
    var p := TimesLinear(f, w, u, f.Zero());
    var c := Difference(f, p, l);
    DifferenceSize(f, p, l);
    forall i | 0 <= i < |taus| ensures Eval(f, c, taus[i]) == f.Zero() {
      LinearMultipleAt(f, w, u, taus[i]);
      EvalDifference(f, p, l, taus[i]);
      SubIsZero(f, Eval(f, p, taus[i]), Eval(f, l, taus[i]));
    }
    VanishesEverywhere(f, c, taus, u);
    EvalDifference(f, p, l, u);
    LinearMultipleAt(f, w, u, u);
    SubIsZero(f, u, u);
    MulZero(f, Eval(f, w, u));
    SubIsZero(f, Eval(f, p, u), Eval(f, l, u));
  }

  lemma LinearMultipleAt<F(!new)>(f: Field<F>, w: seq<F>, u: F, x: F)
    requires f.Valid()
    ensures Eval(f, TimesLinear(f, w, u, f.Zero()), x) == f.mul(f.Sub(x, u), Eval(f, w, x))
  {
    hide Field.Valid, Eval, TimesLinear, Field.Sub;
    EvalTimesLinear(f, w, u, f.Zero(), x);
    AddZero(f, f.mul(Eval(f, w, x), f.Sub(x, u)));
    MulComm(f, Eval(f, w, x), f.Sub(x, u));
  }

  /** The linearisation of this quotient vanishes at every one of these points. */
  ghost predicate VanishesAt<F(!new)>(f: Field<F>, queries: seq<VerifierQuery<F>>, poly: nat -> seq<F>, h: seq<F>, y: F, v: F, us: seq<F>)
    requires queries != []
  {
    forall i :: 0 <= i < |us| ==> Allowed(queries, us[i]) && Eval(f, Linearised(f, queries, poly, h, y, v, us[i]), us[i]) == f.Zero()
  }

  ghost predicate EnoughPoints<F(!new)>(queries: seq<VerifierQuery<F>>, d: nat, us: seq<F>) {
    Distinct(us) && Max(d, |AllPoints(queries)|) + |AllPoints(queries)| <= |us|
  }

  /** At every query point the parts cancel out. */
  lemma PartsCancel<F(!new)>(f: Field<F>, queries: seq<VerifierQuery<F>>, poly: nat -> seq<F>, d: nat, h: seq<F>, y: F, v: F, us: seq<F>, p: F)
    requires f.Valid() && queries != [] && Bounded(queries, poly, d) && |h| <= d && EnoughPoints(queries, d, us)
    requires VanishesAt(f, queries, poly, h, y, v, us) && p in AllPoints(queries)
    ensures Eval(f, ValuesAt(f, Parts(f, queries, poly, y), p), v) == f.Zero()
  {
    hide Field.Valid, Eval, Vanish, Sets, OtherPoints, Parts, Cleared, Linearised, AllPoints, Allowed, Bounded, Field.Sub;
    var c := Cleared(f, queries, poly, h, y, v);
    ClearedSize(f, queries, poly, d, h, y, v);
    forall i | 0 <= i < |us| ensures Eval(f, c, us[i]) == f.Zero() {
      ClearedAtU(f, queries, poly, h, y, v, us[i]);
      MulZero(f, Vanish(f, OtherPoints(queries, 0), us[i]));
    }
    VanishesEverywhere(f, c, us, p);
    ClearedAt(f, queries, poly, h, y, v, p);
    VanishZero(f, AllPoints(queries), p);
    MulZero(f, Eval(f, h, p));
    SubIsZero(f, Eval(f, ValuesAt(f, Parts(f, queries, poly, y), p), v), f.Zero());
  }

  // ----- counting roots in v and in y -----

  /** For every y and v some quotient makes the linearisation vanish at enough points. */
  ghost predicate PassesForMany<F(!new)>(f: Field<F>, queries: seq<VerifierQuery<F>>, poly: nat -> seq<F>, h: (F, F) -> seq<F>,
                                         d: nat, ys: seq<F>, vs: seq<F>, us: seq<F>)
    requires queries != []
  {
    forall i, j :: 0 <= i < |ys| && 0 <= j < |vs| ==>
      |h(ys[i], vs[j])| <= d && VanishesAt(f, queries, poly, h(ys[i], vs[j]), ys[i], vs[j], us)
  }

  lemma DeviationVanishes<F(!new)>(f: Field<F>, queries: seq<VerifierQuery<F>>, poly: nat -> seq<F>, h: (F, F) -> seq<F>,
                                   d: nat, ys: seq<F>, vs: seq<F>, us: seq<F>, k: nat, p: F, i: nat)
    requires f.Valid() && queries != [] && Bounded(queries, poly, d) && EnoughPoints(queries, d, us)
    requires PassesForMany(f, queries, poly, h, d, ys, vs, us) && Distinct(vs) && |Sets(queries)| <= |vs|
    requires k < |Sets(queries)| && p in Sets(queries)[k].points && i < |ys|
    ensures Eval(f, Deviation(f, queries, poly, k, ys[i]), p) == f.Zero()
  {
    hide Field.Valid, Eval, Vanish, Sets, Parts, Deviation, AllPoints, Diff, Bounded, EnoughPoints, VanishesAt, MembersOf;
    var y := ys[i];
    SetPoints(queries, k);
    InAllPoints(queries, p);
    var c := ValuesAt(f, Parts(f, queries, poly, y), p);
    forall j | 0 <= j < |vs| ensures Eval(f, c, vs[j]) == f.Zero() {
      PartsCancel(f, queries, poly, d, h(y, vs[j]), y, vs[j], us, p);
    }
    TooManyRoots(f, c, vs);
    PartAt(f, queries, poly, k, y, p);
    VanishZero(f, OtherPoints(queries, k), p);
    NoZeroDivisors(f, Eval(f, Deviation(f, queries, poly, k, y), p), Vanish(f, OtherPoints(queries, k), p));
  }

  lemma InAllPoints<F(!new)>(queries: seq<VerifierQuery<F>>, p: F)
    requires p in Keys(queries, PointOf)
    ensures p in AllPoints(queries)
  {
  }

  /** Slot j of set k really takes the value it claims at the t-th point of the set. */
  ghost predicate ClaimHolds<F(!new)>(f: Field<F>, queries: seq<VerifierQuery<F>>, poly: nat -> seq<F>, k: nat, j: nat, t: nat)
    requires k < |Sets(queries)| && j < |MembersOf(queries, k)| && t < |Sets(queries)[k].points|
  {
    var pc := MembersOf(queries, k)[j];
    t < |EvalsOf(pc)| && Eval(f, poly(pc.commitId), Sets(queries)[k].points[t]) == EvalsOf(pc)[t]
  }

  /** Soundness: if for as many y as a set has members, as many v as there are sets, and more u than the
      degrees allow, the linearisation of some quotient vanishes at u, then every claim holds. */
  lemma PassingManyChallengesIsSound<F(!new)>(f: Field<F>, queries: seq<VerifierQuery<F>>, poly: nat -> seq<F>, h: (F, F) -> seq<F>,
                                              d: nat, ys: seq<F>, vs: seq<F>, us: seq<F>, k: nat, j: nat, t: nat)
    requires f.Valid() && queries != [] && Bounded(queries, poly, d) && EnoughPoints(queries, d, us)
    requires PassesForMany(f, queries, poly, h, d, ys, vs, us) && Distinct(vs) && |Sets(queries)| <= |vs|
    requires k < |Sets(queries)| && j < |MembersOf(queries, k)| && t < |Sets(queries)[k].points|
    requires Distinct(ys) && |MembersOf(queries, k)| <= |ys|
    ensures ClaimHolds(f, queries, poly, k, j, t)
  {
    hide Field.Valid, Eval, Sets, MembersOf, Deviation, Bounded, EnoughPoints, PassesForMany, EvalsOf, Interpolant;
    var p := Sets(queries)[k].points[t];
    var devs := DeviationsAt(f, queries, poly, k, p);
    assert p in Sets(queries)[k].points;
    forall i | 0 <= i < |ys| ensures Eval(f, devs, ys[i]) == f.Zero() {
      DeviationVanishes(f, queries, poly, h, d, ys, vs, us, k, p, i);
      DeviationAt(f, queries, poly, k, ys[i], p);
    }
    TooManyRoots(f, devs, ys);
    var pc := MembersOf(queries, k)[j];
    SetPoints(queries, k);
    assert pc in MembersOf(queries, k);
    SubIsZero(f, Eval(f, poly(pc.commitId), p), Eval(f, ClaimPoly(f, queries, k, j), p));
    assert devs[j] == f.Sub(Eval(f, poly(pc.commitId), p), Eval(f, ClaimPoly(f, queries, k, j), p));
    InterpolantAt(f, Sets(queries)[k].points, EvalsOf(pc), t);
  }

  /** For a consistent query list this is every claim of every query. */
  lemma EveryQueryHolds<F(!new)>(f: Field<F>, queries: seq<VerifierQuery<F>>, poly: nat -> seq<F>, h: (F, F) -> seq<F>,
                                 d: nat, ys: seq<F>, vs: seq<F>, us: seq<F>, q: VerifierQuery<F>)
    requires f.Valid() && Bounded(queries, poly, d) && EnoughPoints(queries, d, us) && Consistent(queries) && q in queries
    requires PassesForMany(f, queries, poly, h, d, ys, vs, us) && Distinct(vs) && |Sets(queries)| <= |vs|
    requires Distinct(ys) && forall k :: 0 <= k < |Sets(queries)| ==> |MembersOf(queries, k)| <= |ys|
    ensures q.eval == Eval(f, poly(q.commitId), q.point)
  {
    hide Field.Valid, Eval, Sets, MembersOf, Bounded, EnoughPoints, PassesForMany, EvalsOf, Consistent, Keys, Slot;
    ConsistentClaim(queries, q);
    ClaimsSurviveIffConsistent(queries);
    var k, j := SetOfSlot(queries, q.commitId);
    var pc := Slot(queries, q.commitId);
    var t :| 0 <= t < |pc.points| && pc.points[t] == q.point && EvalsOf(pc)[t] == q.eval;
    PassingManyChallengesIsSound(f, queries, poly, h, d, ys, vs, us, k, j, t);
  }

  /** Every slot is a member of the set with its points. */
  lemma SetOfSlot<F(!new)>(queries: seq<VerifierQuery<F>>, id: nat) returns (k: nat, j: nat)
    requires id in Keys(queries, IdOf)
    ensures k < |Sets(queries)| && j < |MembersOf(queries, k)|
    ensures MembersOf(queries, k)[j] == Slot(queries, id) && Sets(queries)[k].points == Slot(queries, id).points
  {
    hide Slot, EvalsOf, Entries;
    var pc := Slot(queries, id);
    var i :| 0 <= i < |Keys(queries, IdOf)| && Keys(queries, IdOf)[i] == id;
    assert Slots(queries)[i] == pc;
    assert PointsOf(pc) in Keys(Slots(queries), PointsOf);
    k :| 0 <= k < |Keys(Slots(queries), PointsOf)| && Keys(Slots(queries), PointsOf)[k] == PointsOf(pc);
    assert pc in MembersOf(queries, k);
    j :| 0 <= j < |MembersOf(queries, k)| && MembersOf(queries, k)[j] == pc;
  }
}
