/**
 The batched multi-opening check of GWC (eprint 2019/953, section 3): queries are grouped by
 point, each group is batched with powers of v and the groups with powers of u.
 */
module Gwc {
  import opened Wrappers
  import opened Fields
  import opened Polynomials
  import opened Kzg
  import opened Grouping

  datatype PointQueries<F> = PointQueries(point: F, queries: seq<VerifierQuery<F>>)

  // ----- grouping -----

  /** The points of the queries, each once, in order of first appearance. */
  ghost function Points<F(!new)>(queries: seq<VerifierQuery<F>>): (p: seq<F>)
    ensures Distinct(p)
  {
    Keys(queries, PointOf)
  }

  /** One group for each distinct point, holding exactly the queries at that point, in order. */
  ghost predicate Grouped<F(!new)>(queries: seq<VerifierQuery<F>>, groups: seq<PointQueries<F>>) {
    && |groups| == |Points(queries)|
    && forall i :: 0 <= i < |groups| ==>
         groups[i].point == Points(queries)[i] && groups[i].queries == WithKey(queries, PointOf, groups[i].point)
  }

  /** The groups of a query list. */
  ghost function GroupsOf<F(!new)>(queries: seq<VerifierQuery<F>>): (groups: seq<PointQueries<F>>)
    ensures Grouped(queries, groups)
  {
    seq(|Points(queries)|, i requires 0 <= i < |Points(queries)| => PointQueries(Points(queries)[i], WithKey(queries, PointOf, Points(queries)[i])))
  }

  lemma GroupsAreDetermined<F(!new)>(queries: seq<VerifierQuery<F>>, groups: seq<PointQueries<F>>)
    requires Grouped(queries, groups)
    ensures groups == GroupsOf(queries)
  {
    hide Keys, WithKey;
    forall i | 0 <= i < |groups| ensures groups[i] == GroupsOf(queries)[i] {}
  }

  lemma JoinGroup<F(!new)>(init: seq<VerifierQuery<F>>, q: VerifierQuery<F>, groups: seq<PointQueries<F>>, k: nat)
    requires Grouped(init, groups) && k < |groups| && groups[k].point == q.point
    ensures Grouped(init + [q], groups[k := PointQueries(groups[k].point, groups[k].queries + [q])])
  {
    hide Keys, WithKey;
    Snoc(init, q, PointOf);
    assert groups[k].point in Points(init);
    forall i | 0 <= i < |groups| && i != k ensures groups[i].point != q.point {
      assert Points(init)[i] != Points(init)[k];
    }
  }

  lemma NewGroup<F(!new)>(init: seq<VerifierQuery<F>>, q: VerifierQuery<F>, groups: seq<PointQueries<F>>)
    requires Grouped(init, groups) && forall i :: 0 <= i < |groups| ==> groups[i].point != q.point
    ensures Grouped(init + [q], groups + [PointQueries(q.point, [q])])
  {
    hide Keys, WithKey;
    Snoc(init, q, PointOf);
    assert forall i :: 0 <= i < |groups| ==> Points(init)[i] != q.point;
    assert q.point !in Points(init);
    NoneWithKey(init, PointOf, q.point);
  }

  method GroupByPoint<F(!new,==)>(queries: seq<VerifierQuery<F>>) returns (groups: seq<PointQueries<F>>)
    ensures Grouped(queries, groups)
  {
    groups := [];
    assert queries[..0] == [];
    for i := 0 to |queries|
      invariant Grouped(queries[..i], groups)
    {
      hide Grouped;
      var query := queries[i];
      assert queries[..i + 1] == queries[..i] + [query];
      var k := 0;
      while k < |groups| && groups[k].point != query.point
        invariant 0 <= k <= |groups|
        invariant forall l :: 0 <= l < k ==> groups[l].point != query.point
      {
        k := k + 1;
      }
      if k < |groups| {
        JoinGroup(queries[..i], query, groups, k);
        groups := groups[k := PointQueries(groups[k].point, groups[k].queries + [query])];
      } else {
        NewGroup(queries[..i], query, groups);
        groups := groups + [PointQueries(query.point, [query])];
      }
    }
    assert queries[..|queries|] == queries;
  }

  ghost function Members<F(!new)>(groups: seq<PointQueries<F>>): multiset<VerifierQuery<F>> {
    if groups == [] then multiset{}
    else Members(groups[..|groups| - 1]) + multiset(groups[|groups| - 1].queries)
  }

  /** Grouping loses and invents nothing: the groups together are a permutation of the queries. */
  lemma GroupingIsPartition<F(!new)>(queries: seq<VerifierQuery<F>>, groups: seq<PointQueries<F>>)
    requires Grouped(queries, groups)
    ensures Members(groups) == multiset(queries)
    ensures forall i, j :: 0 <= i < j < |groups| ==> groups[i].point != groups[j].point
  {
    hide Keys, WithKey, Members, Together;
    GroupsPartition(queries, PointOf);
    MembersPrefix(queries, groups, |groups|);
    assert groups[..|groups|] == groups && Points(queries)[..|groups|] == Points(queries);
  }

  lemma {:induction false} MembersPrefix<F(!new)>(queries: seq<VerifierQuery<F>>, groups: seq<PointQueries<F>>, n: nat)
    requires Grouped(queries, groups) && n <= |groups|
    ensures Members(groups[..n]) == Together(queries, PointOf, Points(queries)[..n])
  {
    if n > 0 {
      MembersPrefix(queries, groups, n - 1);
      assert groups[..n][..n - 1] == groups[..n - 1];
      assert Points(queries)[..n][..n - 1] == Points(queries)[..n - 1];
    }
  }

  // ----- the batched equation -----

  ghost function Commitments<F(!new)>(qs: seq<VerifierQuery<F>>): (c: seq<F>)
    ensures |c| == |qs|
  {
    seq(|qs|, i requires 0 <= i < |qs| => qs[i].commitment)
  }

  ghost function Evals<F(!new)>(qs: seq<VerifierQuery<F>>): (c: seq<F>)
    ensures |c| == |qs|
  {
    seq(|qs|, i requires 0 <= i < |qs| => qs[i].eval)
  }

  /** What group `g` contributes to the right-hand side: `z W + sum_j v^j C_j - sum_j v^j e_j`. */
  ghost function RightTerm<F(!new)>(f: Field<F>, g: PointQueries<F>, w: F, v: F): F {
    f.Sub(f.add(f.mul(g.point, w), Eval(f, Commitments(g.queries), v)), Eval(f, Evals(g.queries), v))
  }

  ghost function RightTerms<F(!new)>(f: Field<F>, groups: seq<PointQueries<F>>, ws: seq<F>, v: F): (r: seq<F>)
    requires |groups| == |ws|
    ensures |r| == |groups|
  {
    seq(|groups|, i requires 0 <= i < |groups| => RightTerm(f, groups[i], ws[i], v))
  }

  /** The defect of one opening: `(tau - z) W - sum_j v^j (C_j - e_j)`. It is zero exactly when
      the witness commits to the quotient of the batched polynomial by `X - z`. */
  ghost function Defect<F(!new)>(f: Field<F>, g: PointQueries<F>, w: F, v: F, tau: F): F {
    f.Sub(f.mul(f.Sub(tau, g.point), w), f.Sub(Eval(f, Commitments(g.queries), v), Eval(f, Evals(g.queries), v)))
  }

  ghost function Defects<F(!new)>(f: Field<F>, groups: seq<PointQueries<F>>, ws: seq<F>, v: F, tau: F): (r: seq<F>)
    requires |groups| == |ws|
    ensures |r| == |groups|
  {
    seq(|groups|, i requires 0 <= i < |groups| => Defect(f, groups[i], ws[i], v, tau))
  }

  lemma CollectTerms<F(!new)>(f: Field<F>, dot: F, up: F, z: F, w: F, c: F)
    requires f.Valid()
    ensures f.add(f.add(dot, f.mul(f.mul(up, z), w)), f.mul(up, c)) == f.add(dot, f.mul(f.add(f.mul(z, w), c), up))
  {
    var i, j, k, l, m := f.rep(dot), f.rep(up), f.rep(z), f.rep(w), f.rep(c);
    assert (i + (j * k) * l) + j * m == i + (k * l + m) * j;
  }

  lemma SubtractScaled<F(!new)>(f: Field<F>, dot: F, em: F, a: F, e: F, up: F)
    requires f.Valid()
    ensures f.Sub(f.add(dot, f.mul(a, up)), f.add(em, f.mul(up, e))) == f.add(f.Sub(dot, em), f.mul(f.Sub(a, e), up))
  {
    var i, j, k, l, m := f.rep(dot), f.rep(em), f.rep(a), f.rep(e), f.rep(up);
    assert (i + k * m) - (j + m * l) == (i - j) + (k - l) * m;
  }

  lemma OuterStep<F(!new)>(f: Field<F>, dot: F, em: F, up: F, z: F, w: F, c: F, e: F)
    requires f.Valid()
    ensures f.Sub(f.add(f.add(dot, f.mul(f.mul(up, z), w)), f.mul(up, c)), f.add(em, f.mul(up, e)))
         == f.add(f.Sub(dot, em), f.mul(f.Sub(f.add(f.mul(z, w), c), e), up))
  {
    hide *;
    CollectTerms(f, dot, up, z, w, c);
    SubtractScaled(f, dot, em, f.add(f.mul(z, w), c), e, up);
  }

  method VerifyOpening<F(!new,==)>(f: Field<F>, queries: seq<VerifierQuery<F>>, witnesses: seq<F>, v: F, u: F)
    returns (r: Result<PairingInput<F>, Error>)
    requires f.Valid()
    ensures r.Err? <==> queries == [] || |witnesses| != |Points(queries)|
    ensures r.Ok? ==> r.value == PairingInput(Eval(f, witnesses, u), f.neg(Eval(f, RightTerms(f, GroupsOf(queries), witnesses, v), u)))
  {
    var gs := GroupByPoint(queries);
    ghost var groups := GroupsOf(queries);
    GroupsAreDetermined(queries, gs);
    if queries == [] {
      return Err(Protocol);
    }
    if |gs| != |witnesses| {
      return Err(Protocol);
    }
    hide Field.Valid, Grouped, RightTerm, Eval;
    var leftTerms: seq<(F, F)> := [];
    var rightTerms: seq<(F, F)> := [];
    var evalMulti := f.Zero();
    var uPower := f.One();
    ghost var rights := RightTerms(f, groups, witnesses, v);
    StartOfSums(f, witnesses, rights, u);
    for i := 0 to |gs|
      invariant uPower == Pow(f, u, i)
      invariant Dot(f, leftTerms) == Eval(f, witnesses[..i], u)
      invariant f.Sub(Dot(f, rightTerms), evalMulti) == Eval(f, rights[..i], u)
    {
      ghost var dot0, em0 := Dot(f, rightTerms), evalMulti;
      DotSnoc(f, leftTerms, uPower, witnesses[i]);
      leftTerms := leftTerms + [(uPower, witnesses[i])];
      EvalPrefix(f, witnesses, i, u);
      MulComm(f, uPower, witnesses[i]);
      DotSnoc(f, rightTerms, f.mul(uPower, gs[i].point), witnesses[i]);
      rightTerms := rightTerms + [(f.mul(uPower, gs[i].point), witnesses[i])];
      rightTerms, evalMulti := AddGroup(f, gs[i].queries, v, uPower, rightTerms, evalMulti);
      OuterStep(f, dot0, em0, uPower, gs[i].point, witnesses[i],
                Eval(f, Commitments(gs[i].queries), v), Eval(f, Evals(gs[i].queries), v));
      GroupTerm(f, gs, witnesses, v, i);
      EvalPrefix(f, rights, i, u);
      MulComm(f, uPower, u);
      uPower := f.mul(uPower, u);
    }
    assert witnesses[..|gs|] == witnesses && rights[..|gs|] == rights;
    DotSnoc(f, rightTerms, f.neg(evalMulti), f.One());
    MulOne(f, f.neg(evalMulti));
    rightTerms := rightTerms + [(f.neg(evalMulti), f.One())];
    var left := MsmG1(f, leftTerms);
    var right := MsmG1(f, rightTerms);
    var negRight := NegG1(f, right);
    return Ok(PairingInput(left, negRight));
  }

  lemma StartOfSums<F(!new)>(f: Field<F>, ws: seq<F>, rights: seq<F>, u: F)
    requires f.Valid()
    ensures Pow(f, u, 0) == f.One() && Dot(f, []) == Eval(f, ws[..0], u)
    ensures f.Sub(Dot(f, []), f.Zero()) == Eval(f, rights[..0], u)
  {
    SubIsZero(f, f.Zero(), f.Zero());
  }

  lemma GroupTerm<F(!new)>(f: Field<F>, gs: seq<PointQueries<F>>, ws: seq<F>, v: F, i: nat)
    requires |gs| == |ws| && i < |gs|
    ensures RightTerms(f, gs, ws, v)[i] ==
            f.Sub(f.add(f.mul(gs[i].point, ws[i]), Eval(f, Commitments(gs[i].queries), v)), Eval(f, Evals(gs[i].queries), v))
  {
  }

  /** The inner loop: one term per query of the group, with its evaluation on the side. */
  method AddGroup<F(!new)>(f: Field<F>, qs: seq<VerifierQuery<F>>, v: F, uPower: F, terms: seq<(F, F)>, em: F)
    returns (rightTerms: seq<(F, F)>, evalMulti: F)
    requires f.Valid()
    ensures Dot(f, rightTerms) == f.add(Dot(f, terms), f.mul(uPower, Eval(f, Commitments(qs), v)))
    ensures evalMulti == f.add(em, f.mul(uPower, Eval(f, Evals(qs), v)))
  {
    ghost var cs, es := Commitments(qs), Evals(qs);
    assert cs[..0] == [] && es[..0] == [] && Eval(f, [], v) == f.Zero();
    hide Field.Valid, Eval;
    rightTerms, evalMulti := terms, em;
    var vPower := f.One();
    MulZero(f, uPower);
    AddZero(f, Dot(f, terms));
    AddZero(f, em);
    for j := 0 to |qs|
      invariant vPower == Pow(f, v, j)
      invariant Dot(f, rightTerms) == f.add(Dot(f, terms), f.mul(uPower, Eval(f, cs[..j], v)))
      invariant evalMulti == f.add(em, f.mul(uPower, Eval(f, es[..j], v)))
    {
      var coefficient := f.mul(uPower, vPower);
      DotSnoc(f, rightTerms, coefficient, qs[j].commitment);
      rightTerms := rightTerms + [(coefficient, qs[j].commitment)];
      evalMulti := f.add(evalMulti, f.mul(coefficient, qs[j].eval));
      ScaledStep(f, Dot(f, terms), uPower, Eval(f, cs[..j], v), cs[j], vPower);
      ScaledStep(f, em, uPower, Eval(f, es[..j], v), es[j], vPower);
      EvalPrefix(f, cs, j, v);
      EvalPrefix(f, es, j, v);
      MulComm(f, vPower, v);
      vPower := f.mul(vPower, v);
    }
    assert cs[..|qs|] == cs && es[..|qs|] == es;
  }

  // ----- what the equation means -----

  lemma TermDefect<F(!new)>(f: Field<F>, z: F, w: F, c: F, e: F, tau: F)
    requires f.Valid()
    ensures f.Sub(f.mul(f.Sub(tau, z), w), f.Sub(c, e)) == f.Sub(f.mul(tau, w), f.Sub(f.add(f.mul(z, w), c), e))
  {
    hide Field.Valid;
    SplitDifference(f, tau, z, w);
    MoveInside(f, f.mul(tau, w), f.mul(z, w), c, e);
  }

  lemma SplitDifference<F(!new)>(f: Field<F>, a: F, b: F, w: F)
    requires f.Valid()
    ensures f.mul(f.Sub(a, b), w) == f.Sub(f.mul(a, w), f.mul(b, w))
  {
    var i, j, k := f.rep(a), f.rep(b), f.rep(w);
    assert (i - j) * k == i * k - j * k;
  }

  lemma MoveInside<F(!new)>(f: Field<F>, a: F, b: F, c: F, e: F)
    requires f.Valid()
    ensures f.Sub(f.Sub(a, b), f.Sub(c, e)) == f.Sub(a, f.Sub(f.add(b, c), e))
  {
    var i, j, k, l := f.rep(a), f.rep(b), f.rep(c), f.rep(e);
    assert (i - j) - (k - l) == i - ((j + k) - l);
  }

  lemma CombineStep<F(!new)>(f: Field<F>, tau: F, a: F, b: F, w: F, r: F, p: F)
    requires f.Valid()
    ensures f.Sub(f.mul(tau, f.add(a, f.mul(w, p))), f.add(b, f.mul(r, p)))
         == f.add(f.Sub(f.mul(tau, a), b), f.mul(f.Sub(f.mul(tau, w), r), p))
  {
    var i, j, k, l, m, n := f.rep(tau), f.rep(a), f.rep(b), f.rep(w), f.rep(r), f.rep(p);
    assert i * (j + l * n) - (k + m * n) == (i * j - k) + (i * l - m) * n;
  }

  lemma {:induction false} DefectPrefix<F(!new)>(f: Field<F>, groups: seq<PointQueries<F>>, ws: seq<F>, v: F, u: F, tau: F, n: nat)
    requires f.Valid() && |groups| == |ws| && n <= |groups|
    ensures f.Sub(f.mul(tau, Eval(f, ws[..n], u)), Eval(f, RightTerms(f, groups, ws, v)[..n], u))
         == Eval(f, Defects(f, groups, ws, v, tau)[..n], u)
  {
    var rs, ds := RightTerms(f, groups, ws, v), Defects(f, groups, ws, v, tau);
    if n == 0 {
      MulZero(f, tau);
      SubIsZero(f, f.Zero(), f.Zero());
    } else {
      DefectPrefix(f, groups, ws, v, u, tau, n - 1);
      DefectPrefixStep(f, groups, ws, v, u, tau, n - 1);
    }
  }

  lemma DefectPrefixStep<F(!new)>(f: Field<F>, groups: seq<PointQueries<F>>, ws: seq<F>, v: F, u: F, tau: F, n: nat)
    requires f.Valid() && |groups| == |ws| && n < |groups|
    requires f.Sub(f.mul(tau, Eval(f, ws[..n], u)), Eval(f, RightTerms(f, groups, ws, v)[..n], u))
          == Eval(f, Defects(f, groups, ws, v, tau)[..n], u)
    ensures f.Sub(f.mul(tau, Eval(f, ws[..n + 1], u)), Eval(f, RightTerms(f, groups, ws, v)[..n + 1], u))
         == Eval(f, Defects(f, groups, ws, v, tau)[..n + 1], u)
  {
    hide Field.Valid, Eval, Pow, Field.Sub;
    var rs, ds := RightTerms(f, groups, ws, v), Defects(f, groups, ws, v, tau);
    var g := groups[n];
    EvalPrefix(f, ws, n, u);
    EvalPrefix(f, rs, n, u);
    EvalPrefix(f, ds, n, u);
    TermDefect(f, g.point, ws[n], Eval(f, Commitments(g.queries), v), Eval(f, Evals(g.queries), v), tau);
    CombineStep(f, tau, Eval(f, ws[..n], u), Eval(f, rs[..n], u), ws[n], rs[n], Pow(f, u, n));
  }

  /** The pairing value is the polynomial in u whose coefficients are the defects. */
  lemma BatchedEquation<F(!new)>(f: Field<F>, groups: seq<PointQueries<F>>, ws: seq<F>, v: F, u: F, tau: F)
    requires f.Valid() && |groups| == |ws|
    ensures PairingValue(f, PairingInput(Eval(f, ws, u), f.neg(Eval(f, RightTerms(f, groups, ws, v), u))), tau)
         == Eval(f, Defects(f, groups, ws, v, tau), u)
  {
    DefectPrefix(f, groups, ws, v, u, tau, |groups|);
    assert ws[..|ws|] == ws;
    assert RightTerms(f, groups, ws, v)[..|groups|] == RightTerms(f, groups, ws, v);
    assert Defects(f, groups, ws, v, tau)[..|groups|] == Defects(f, groups, ws, v, tau);
  }

  /** Completeness: honest witnesses always satisfy the check. */
  lemma HonestWitnessesPass<F(!new)>(f: Field<F>, groups: seq<PointQueries<F>>, ws: seq<F>, v: F, u: F, tau: F)
    requires f.Valid() && |groups| == |ws|
    requires forall i :: 0 <= i < |groups| ==> Defect(f, groups[i], ws[i], v, tau) == f.Zero()
    ensures Eval(f, Defects(f, groups, ws, v, tau), u) == f.Zero()
  {
    EvalZeros(f, Defects(f, groups, ws, v, tau), u);
  }

  /** Soundness by counting roots: a check that passes for as many distinct u as there are groups
      leaves no defect. */
  lemma PassingManyChallengesIsSound<F(!new)>(f: Field<F>, groups: seq<PointQueries<F>>, ws: seq<F>, v: F, tau: F, us: seq<F>)
    requires f.Valid() && |groups| == |ws| <= |us| && Distinct(us)
    requires forall k :: 0 <= k < |us| ==> Eval(f, Defects(f, groups, ws, v, tau), us[k]) == f.Zero()
    ensures forall i :: 0 <= i < |groups| ==> Defect(f, groups[i], ws[i], v, tau) == f.Zero()
  {
    var ds := Defects(f, groups, ws, v, tau);
    TooManyRoots(f, ds, us);
    forall i | 0 <= i < |groups| ensures Defect(f, groups[i], ws[i], v, tau) == f.Zero() {
      assert ds[i] == f.Zero();
    }
  }

  /** Two queries at one point: the second commitment and the second value carry v. */
  lemma TwoClaims<F(!new)>(f: Field<F>, z: F, p: VerifierQuery<F>, q: VerifierQuery<F>, w: F, v: F)
    requires f.Valid()
    ensures RightTerm(f, PointQueries(z, [p, q]), w, v) ==
            f.Sub(f.add(f.mul(z, w), f.add(p.commitment, f.mul(v, q.commitment))), f.add(p.eval, f.mul(v, q.eval)))
  {
    hide Field.Valid, Field.Sub;
    assert Commitments([p, q]) == [p.commitment, q.commitment] && Evals([p, q]) == [p.eval, q.eval];
    EvalOfTwo(f, p.commitment, q.commitment, v);
    EvalOfTwo(f, p.eval, q.eval, v);
  }
}
