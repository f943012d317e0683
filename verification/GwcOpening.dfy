/**
 Completeness and soundness of the GWC check in terms of polynomials: honest openings always pass, and
 openings that pass for enough challenges are true.
 */
module GwcOpening {
  import opened Fields
  import opened Polynomials
  import opened Vanishing
  import opened LinearProducts
  import opened Kzg
  import opened Grouping
  import opened Gwc
  import opened ShplonkOpening
  import opened ShplonkSoundness

  /** The pairing value of the check on these queries and witnesses. */
  ghost function CheckValue<F(!new)>(f: Field<F>, queries: seq<VerifierQuery<F>>, ws: seq<F>, v: F, u: F, tau: F): F
    requires |ws| == |Gwc.Points(queries)|
  {
    PairingValue(f, PairingInput(Eval(f, ws, u), f.neg(Eval(f, RightTerms(f, GroupsOf(queries), ws, v), u))), tau)
  }

  /** The polynomials behind a list of queries. */
  ghost function PolysBehind<F(!new)>(qs: seq<VerifierQuery<F>>, poly: nat -> seq<F>): (r: seq<seq<F>>)
    ensures |r| == |qs|
  {
    seq(|qs|, j requires 0 <= j < |qs| => poly(qs[j].commitId))
  }

  /** Each query of a group opens its own polynomial: the j-th commitment and the j-th value. */
  ghost predicate CommittedGroup<F(!new)>(f: Field<F>, qs: seq<VerifierQuery<F>>, poly: nat -> seq<F>, tau: F) {
    forall j :: 0 <= j < |qs| ==> qs[j].commitment == Eval(f, poly(qs[j].commitId), tau)
  }

  lemma GroupCommitments<F(!new)>(f: Field<F>, qs: seq<VerifierQuery<F>>, poly: nat -> seq<F>, tau: F, v: F)
    requires f.Valid() && CommittedGroup(f, qs, poly, tau)
    ensures Eval(f, Commitments(qs), v) == Eval(f, Batch(f, PolysBehind(qs, poly), v), tau)
  {
    hide Field.Valid, Eval, Batch;
    assert Commitments(qs) == ValuesAt(f, PolysBehind(qs, poly), tau);
    EvalBatch(f, PolysBehind(qs, poly), v, tau);
  }

  // ----- completeness -----

  /** The witness an honest prover commits to: the batched polynomial divided by `X - z`. */
  ghost function WitnessPoly<F(!new)>(f: Field<F>, g: PointQueries<F>, poly: nat -> seq<F>, v: F): seq<F> {
    Quotient(f, Batch(f, PolysBehind(g.queries, poly), v), g.point)
  }

  ghost function HonestWitnesses<F(!new)>(f: Field<F>, queries: seq<VerifierQuery<F>>, poly: nat -> seq<F>, v: F, tau: F): (ws: seq<F>)
    ensures |ws| == |Gwc.Points(queries)|
  {
    seq(|GroupsOf(queries)|, i requires 0 <= i < |GroupsOf(queries)| => Eval(f, WitnessPoly(f, GroupsOf(queries)[i], poly, v), tau))
  }

  lemma HonestDefect<F(!new)>(f: Field<F>, g: PointQueries<F>, poly: nat -> seq<F>, v: F, tau: F)
    requires f.Valid() && CommittedGroup(f, g.queries, poly, tau)
    requires forall j :: 0 <= j < |g.queries| ==> g.queries[j].eval == Eval(f, poly(g.queries[j].commitId), g.point)
    ensures Defect(f, g, Eval(f, WitnessPoly(f, g, poly, v), tau), v, tau) == f.Zero()
  {
    hide Field.Valid, Eval, Batch, Quotient, Field.Sub;
    var polys := PolysBehind(g.queries, poly);
    var b := Batch(f, polys, v);
    GroupCommitments(f, g.queries, poly, tau, v);
    assert Evals(g.queries) == ValuesAt(f, polys, g.point);
    EvalBatch(f, polys, v, g.point);
    Division(f, b, g.point, tau);
    ExactRemainder(f, Eval(f, b, tau), Eval(f, b, g.point), f.mul(f.Sub(tau, g.point), Eval(f, Quotient(f, b, g.point), tau)));
  }

  lemma ExactRemainder<F(!new)>(f: Field<F>, a: F, r: F, d: F)
    requires f.Valid() && a == f.add(r, d)
    ensures f.Sub(d, f.Sub(a, r)) == f.Zero()
  {
    var i, j := f.rep(r), f.rep(d);
    assert j - ((i + j) - i) == 0;
  }

  /** Completeness: openings of polynomials at their own points pass for all challenges. */
  lemma HonestOpeningsPass<F(!new)>(f: Field<F>, queries: seq<VerifierQuery<F>>, poly: nat -> seq<F>, v: F, u: F, tau: F)
    requires f.Valid() && Honest(f, queries, poly, tau)
    ensures CheckValue(f, queries, HonestWitnesses(f, queries, poly, v, tau), v, u, tau) == f.Zero()
  {
    hide Field.Valid, Eval, PairingValue, RightTerms, Gwc.Points, Defect, WitnessPoly;
    var groups, ws := GroupsOf(queries), HonestWitnesses(f, queries, poly, v, tau);
    forall i | 0 <= i < |groups| ensures Defect(f, groups[i], ws[i], v, tau) == f.Zero() {
      HonestGroup(f, queries, poly, tau, i);
      HonestDefect(f, groups[i], poly, v, tau);
    }
    BatchedEquation(f, groups, ws, v, u, tau);
    HonestWitnessesPass(f, groups, ws, v, u, tau);
  }

  lemma HonestGroup<F(!new)>(f: Field<F>, queries: seq<VerifierQuery<F>>, poly: nat -> seq<F>, tau: F, i: nat)
    requires Honest(f, queries, poly, tau) && i < |GroupsOf(queries)|
    ensures var g := GroupsOf(queries)[i];
      CommittedGroup(f, g.queries, poly, tau)
      && forall j :: 0 <= j < |g.queries| ==> g.queries[j].eval == Eval(f, poly(g.queries[j].commitId), g.point)
  {
    hide Eval, Keys;
    var g := GroupsOf(queries)[i];
    forall j | 0 <= j < |g.queries| ensures g.queries[j] in queries && g.queries[j].point == g.point {
      assert g.queries[j] in g.queries;
      assert PointOf(g.queries[j]) == g.point;
    }
  }

  // ----- the same claims with other commitments -----

  ghost function Recommit<F(!new)>(f: Field<F>, poly: nat -> seq<F>, tau: F): VerifierQuery<F> -> VerifierQuery<F> {
    (q: VerifierQuery<F>) => VerifierQuery(q.commitId, Eval(f, poly(q.commitId), tau), q.point, q.eval)
  }

  /** The claims as the verifier sees them when the polynomials are committed at tau. */
  ghost function Recommitted<F(!new)>(f: Field<F>, claims: seq<VerifierQuery<F>>, poly: nat -> seq<F>, tau: F): (qs: seq<VerifierQuery<F>>)
    ensures |qs| == |claims|
  {
    Mapped(claims, Recommit(f, poly, tau))
  }

  lemma MappedSnoc<A, B>(s: seq<A>, a: A, m: A -> B)
    ensures Mapped(s + [a], m) == Mapped(s, m) + [m(a)]
  {
  }

  /** A map that keeps keys keeps the groups. */
  lemma {:induction false} MappedKeys<T(!new), K(!new)>(s: seq<T>, m: T -> T, key: T -> K)
    requires forall t :: key(m(t)) == key(t)
    ensures Keys(Mapped(s, m), key) == Keys(s, key)
  {
    hide Keys, Mapped;
    if s == [] {
      assert Mapped(s, m) == [];
    } else {
      var init, t := s[..|s| - 1], s[|s| - 1];
      assert s == init + [t];
      MappedKeys(init, m, key);
      MappedSnoc(init, t, m);
      Snoc(init, t, key);
      Snoc(Mapped(init, m), m(t), key);
    }
  }

  lemma {:induction false} MappedWithKey<T(!new), K(!new)>(s: seq<T>, m: T -> T, key: T -> K, k: K)
    requires forall t :: key(m(t)) == key(t)
    ensures WithKey(Mapped(s, m), key, k) == Mapped(WithKey(s, key, k), m)
  {
    hide Keys, Mapped, WithKey;
    if s == [] {
      NothingWithKey(key, k);
      assert Mapped(s, m) == [] == Mapped(WithKey(s, key, k), m);
    } else {
      var init, t := s[..|s| - 1], s[|s| - 1];
      assert s == init + [t];
      MappedWithKey(init, m, key, k);
      MappedSnoc(init, t, m);
      MappedSnoc(WithKey(init, key, k), t, m);
      Snoc(init, t, key);
      Snoc(Mapped(init, m), m(t), key);
    }
  }

  lemma NothingWithKey<T(!new), K(!new)>(key: T -> K, k: K)
    ensures WithKey([], key, k) == []
  {
  }

  lemma RecommittedGroups<F(!new)>(f: Field<F>, claims: seq<VerifierQuery<F>>, poly: nat -> seq<F>, tau: F, z: F)
    ensures Keys(Recommitted(f, claims, poly, tau), PointOf) == Keys(claims, PointOf)
    ensures WithKey(Recommitted(f, claims, poly, tau), PointOf, z) == Recommitted(f, WithKey(claims, PointOf, z), poly, tau)
  {
    hide Eval, Keys, WithKey;
    MappedKeys(claims, Recommit(f, poly, tau), PointOf);
    MappedWithKey(claims, Recommit(f, poly, tau), PointOf, z);
  }

  lemma GroupOfRecommitted<F(!new)>(f: Field<F>, claims: seq<VerifierQuery<F>>, poly: nat -> seq<F>, tau: F, i: nat)
    requires i < |GroupsOf(claims)|
    ensures |GroupsOf(Recommitted(f, claims, poly, tau))| == |GroupsOf(claims)|
    ensures var g, h := GroupsOf(claims)[i], GroupsOf(Recommitted(f, claims, poly, tau))[i];
      h.point == g.point && h.queries == Recommitted(f, g.queries, poly, tau)
  {
    hide Eval, Keys, WithKey, Recommitted;
    RecommittedGroups(f, claims, poly, tau, GroupsOf(claims)[i].point);
  }

  lemma RecommittedParts<F(!new)>(f: Field<F>, qs: seq<VerifierQuery<F>>, poly: nat -> seq<F>, tau: F)
    ensures CommittedGroup(f, Recommitted(f, qs, poly, tau), poly, tau)
    ensures Evals(Recommitted(f, qs, poly, tau)) == Evals(qs)
    ensures PolysBehind(Recommitted(f, qs, poly, tau), poly) == PolysBehind(qs, poly)
  {
    hide Eval;
    var rs := Recommitted(f, qs, poly, tau);
    assert Evals(rs) == Evals(qs);
    assert PolysBehind(rs, poly) == PolysBehind(qs, poly);
  }

  // ----- soundness -----

  /** The witness commitments of these polynomials, one per point. */
  ghost function WitnessesAt<F(!new)>(f: Field<F>, claims: seq<VerifierQuery<F>>, w: (F, nat) -> seq<F>, v: F, tau: F): (ws: seq<F>)
    ensures |ws| == |Gwc.Points(claims)|
  {
    seq(|Gwc.Points(claims)|, i requires 0 <= i < |Gwc.Points(claims)| => Eval(f, w(v, i), tau))
  }

  /** The check passes for every one of these challenges and commitment keys. */
  ghost predicate PassesForAll<F(!new)>(f: Field<F>, claims: seq<VerifierQuery<F>>, poly: nat -> seq<F>, w: (F, nat) -> seq<F>,
                                        vs: seq<F>, us: seq<F>, taus: seq<F>) {
    forall i, j, k :: 0 <= i < |vs| && 0 <= j < |us| && 0 <= k < |taus| ==> PassesAt(f, claims, poly, w, vs[i], us[j], taus[k])
  }

  ghost predicate PassesAt<F(!new)>(f: Field<F>, claims: seq<VerifierQuery<F>>, poly: nat -> seq<F>, w: (F, nat) -> seq<F>, v: F, u: F, tau: F) {
    RecommittedGroups(f, claims, poly, tau, u);
    CheckValue(f, Recommitted(f, claims, poly, tau), WitnessesAt(f, claims, w, v, tau), v, u, tau) == f.Zero()
  }

  /** For one v and tau, enough u: no opening has a defect. */
  lemma NoDefect<F(!new)>(f: Field<F>, claims: seq<VerifierQuery<F>>, poly: nat -> seq<F>, w: (F, nat) -> seq<F>,
                          v: F, us: seq<F>, tau: F, i: nat)
    requires f.Valid() && Distinct(us) && |GroupsOf(claims)| <= |us| && i < |GroupsOf(claims)|
    requires forall j :: 0 <= j < |us| ==> PassesAt(f, claims, poly, w, v, us[j], tau)
    ensures |GroupsOf(Recommitted(f, claims, poly, tau))| == |GroupsOf(claims)|
    ensures Defect(f, GroupsOf(Recommitted(f, claims, poly, tau))[i], Eval(f, w(v, i), tau), v, tau) == f.Zero()
  {
    hide Field.Valid, Eval, Keys, WithKey, Recommitted, PairingValue, RightTerms, Defect;
    GroupOfRecommitted(f, claims, poly, tau, i);
    var groups, ws := GroupsOf(Recommitted(f, claims, poly, tau)), WitnessesAt(f, claims, w, v, tau);
    forall j | 0 <= j < |us| ensures Eval(f, Defects(f, groups, ws, v, tau), us[j]) == f.Zero() {
      assert PassesAt(f, claims, poly, w, v, us[j], tau);
      BatchedEquation(f, groups, ws, v, us[j], tau);
    }
    Gwc.PassingManyChallengesIsSound(f, groups, ws, v, tau, us);
  }

  /** The polynomial that vanishes at the point of a group when its batched claim is true. */
  ghost function Remainder<F(!new)>(f: Field<F>, g: PointQueries<F>, poly: nat -> seq<F>, v: F): seq<F> {
    Difference(f, Batch(f, PolysBehind(g.queries, poly), v), [Eval(f, Evals(g.queries), v)])
  }

  lemma DefectIsEquation<F(!new)>(f: Field<F>, claims: seq<VerifierQuery<F>>, poly: nat -> seq<F>, v: F, tau: F, i: nat, wTau: F)
    requires f.Valid() && i < |GroupsOf(claims)| && |GroupsOf(Recommitted(f, claims, poly, tau))| == |GroupsOf(claims)|
    requires Defect(f, GroupsOf(Recommitted(f, claims, poly, tau))[i], wTau, v, tau) == f.Zero()
    ensures f.mul(f.Sub(tau, GroupsOf(claims)[i].point), wTau) == Eval(f, Remainder(f, GroupsOf(claims)[i], poly, v), tau)
  {
    hide Field.Valid, Eval, Batch, Keys, WithKey, Recommitted, Difference, Field.Sub, Commitments, Evals, PolysBehind;
    var g := GroupsOf(claims)[i];
    GroupOfRecommitted(f, claims, poly, tau, i);
    RecommittedParts(f, g.queries, poly, tau);
    GroupCommitments(f, Recommitted(f, g.queries, poly, tau), poly, tau, v);
    var b, e := Batch(f, PolysBehind(g.queries, poly), v), Eval(f, Evals(g.queries), v);
    EvalDifference(f, b, [e], tau);
    EvalConstant(f, e, tau);
    SubIsZero(f, f.mul(f.Sub(tau, g.point), wTau), f.Sub(Eval(f, b, tau), e));
  }

  lemma RemainderSize<F(!new)>(f: Field<F>, g: PointQueries<F>, poly: nat -> seq<F>, v: F, d: nat)
    requires forall j :: 0 <= j < |g.queries| ==> |poly(g.queries[j].commitId)| <= d
    ensures |Remainder(f, g, poly, v)| <= d + 1
  {
    hide Batch, Difference, Eval;
    BatchSize(f, PolysBehind(g.queries, poly), v, d);
    DifferenceSize(f, Batch(f, PolysBehind(g.queries, poly), v), [Eval(f, Evals(g.queries), v)]);
  }

  /** What the members of a group claim and what is true, differ by. */
  ghost function Errors<F(!new)>(f: Field<F>, g: PointQueries<F>, poly: nat -> seq<F>): (r: seq<F>)
    ensures |r| == |g.queries|
  {
    seq(|g.queries|, j requires 0 <= j < |g.queries| => f.Sub(Eval(f, poly(g.queries[j].commitId), g.point), g.queries[j].eval))
  }

  lemma RemainderAtPoint<F(!new)>(f: Field<F>, g: PointQueries<F>, poly: nat -> seq<F>, v: F)
    requires f.Valid()
    ensures Eval(f, Remainder(f, g, poly, v), g.point) == Eval(f, Errors(f, g, poly), v)
  {
    hide Field.Valid, Eval, Batch, Difference, Field.Sub;
    var polys := PolysBehind(g.queries, poly);
    var e := Eval(f, Evals(g.queries), v);
    EvalDifference(f, Batch(f, polys, v), [e], g.point);
    EvalConstant(f, e, g.point);
    EvalBatch(f, polys, v, g.point);
    EvalOfDifferences(f, ValuesAt(f, polys, g.point), Evals(g.queries), Errors(f, g, poly), v);
  }

  /** Everything committed has at most d coefficients. */
  ghost predicate DegreeBound<F(!new)>(claims: seq<VerifierQuery<F>>, poly: nat -> seq<F>, w: (F, nat) -> seq<F>, vs: seq<F>, d: nat) {
    && Bounded(claims, poly, d)
    && forall i, k :: 0 <= i < |vs| && 0 <= k < |Gwc.Points(claims)| ==> |w(vs[i], k)| <= d
  }

  lemma BatchedClaimHolds<F(!new)>(f: Field<F>, claims: seq<VerifierQuery<F>>, poly: nat -> seq<F>, w: (F, nat) -> seq<F>,
                                   vs: seq<F>, us: seq<F>, taus: seq<F>, d: nat, i: nat, k: nat)
    requires f.Valid() && Distinct(us) && |GroupsOf(claims)| <= |us| && Distinct(taus) && d + 1 <= |taus|
    requires DegreeBound(claims, poly, w, vs, d) && PassesForAll(f, claims, poly, w, vs, us, taus)
    requires i < |vs| && k < |GroupsOf(claims)|
    ensures Eval(f, Errors(f, GroupsOf(claims)[k], poly), vs[i]) == f.Zero()
  {
    hide Field.Valid, Eval, Keys, WithKey, Recommitted, PassesAt, Remainder, Defect, Errors, Bounded;
    var g, v := GroupsOf(claims)[k], vs[i];
    forall j | 0 <= j < |taus| ensures f.mul(f.Sub(taus[j], g.point), Eval(f, w(v, k), taus[j])) == Eval(f, Remainder(f, g, poly, v), taus[j]) {
      NoDefect(f, claims, poly, w, v, us, taus[j], k);
      DefectIsEquation(f, claims, poly, v, taus[j], k, Eval(f, w(v, k), taus[j]));
    }
    forall j | 0 <= j < |g.queries| ensures |poly(g.queries[j].commitId)| <= d {
      MemberOfGroup(claims, k, j);
      BoundOf(claims, poly, d, g.queries[j]);
    }
    RemainderSize(f, g, poly, v, d);
    PassingManyTausVanishes(f, Remainder(f, g, poly, v), w(v, k), g.point, taus);
    RemainderAtPoint(f, g, poly, v);
  }

  lemma MemberOfGroup<F(!new)>(claims: seq<VerifierQuery<F>>, k: nat, j: nat)
    requires k < |GroupsOf(claims)| && j < |GroupsOf(claims)[k].queries|
    ensures GroupsOf(claims)[k].queries[j] in claims && GroupsOf(claims)[k].queries[j].point == GroupsOf(claims)[k].point
  {
    hide Keys;
    var g := GroupsOf(claims)[k];
    assert g.queries[j] in g.queries;
    assert PointOf(g.queries[j]) == g.point;
  }

  lemma BoundOf<F(!new)>(claims: seq<VerifierQuery<F>>, poly: nat -> seq<F>, d: nat, q: VerifierQuery<F>)
    requires Bounded(claims, poly, d) && q in claims
    ensures |poly(q.commitId)| <= d
  {
  }

  /** Every query is in the group of its point. */
  lemma GroupOfQuery<F(!new)>(claims: seq<VerifierQuery<F>>, q: VerifierQuery<F>) returns (k: nat, j: nat)
    requires q in claims
    ensures k < |GroupsOf(claims)| && j < |GroupsOf(claims)[k].queries| && GroupsOf(claims)[k].queries[j] == q
  {
    hide Keys;
    assert PointOf(q) in Gwc.Points(claims);
    k :| 0 <= k < |Gwc.Points(claims)| && Gwc.Points(claims)[k] == PointOf(q);
    assert q in GroupsOf(claims)[k].queries;
    j :| 0 <= j < |GroupsOf(claims)[k].queries| && GroupsOf(claims)[k].queries[j] == q;
  }

  /** Soundness: if, for witness polynomials chosen after v, the check passes for as many v as the largest
      group has queries, as many u as there are groups and more tau than the degree, then every claimed
      value is the value of the committed polynomial at the claimed point. */
  lemma PassingChecksForceClaims<F(!new)>(f: Field<F>, claims: seq<VerifierQuery<F>>, poly: nat -> seq<F>, w: (F, nat) -> seq<F>,
                                          vs: seq<F>, us: seq<F>, taus: seq<F>, d: nat, q: VerifierQuery<F>)
    requires f.Valid() && Distinct(us) && |GroupsOf(claims)| <= |us| && Distinct(taus) && d + 1 <= |taus|
    requires DegreeBound(claims, poly, w, vs, d) && PassesForAll(f, claims, poly, w, vs, us, taus)
    requires Distinct(vs) && (forall k :: 0 <= k < |GroupsOf(claims)| ==> |GroupsOf(claims)[k].queries| <= |vs|) && q in claims
    ensures q.eval == Eval(f, poly(q.commitId), q.point)
  {
    hide Field.Valid, Eval, Keys, WithKey, PassesForAll, DegreeBound, Field.Sub;
    var k, j := GroupOfQuery(claims, q);
    var g := GroupsOf(claims)[k];
    MemberOfGroup(claims, k, j);
    forall i | 0 <= i < |vs| ensures Eval(f, Errors(f, g, poly), vs[i]) == f.Zero() {
      BatchedClaimHolds(f, claims, poly, w, vs, us, taus, d, i, k);
    }
    TooManyRoots(f, Errors(f, g, poly), vs);
    assert Errors(f, g, poly)[j] == f.Zero();
    SubIsZero(f, Eval(f, poly(q.commitId), g.point), q.eval);
  }
}
