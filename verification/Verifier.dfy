/**
 The verifier's glue: evaluating the expressions and folding them with y, reassembling the quotient
 commitment, and opening the query list with GWC or SHPLONK.
 */
module Verifier {
  import opened Wrappers
  import opened Bytes
  import opened PowersOfTwo
  import opened Fields
  import opened Polynomials
  import opened Domain
  import opened Lagrange
  import opened Kzg
  import opened Plonk
  import opened Queries
  import opened WitnessCount
  import Expression
  import Permutation
  import RotationSets
  import Shplonk
  import Grouping
  import Gwc

  // ----- the quotient -----

  ghost function Zipped<F(!new)>(a: seq<F>, b: seq<F>): (z: seq<(F, F)>)
    requires |a| == |b|
    ensures |z| == |a|
  {
    seq(|a|, i requires 0 <= i < |a| => (a[i], b[i]))
  }

  lemma {:induction false} DotOfPowers<F(!new)>(f: Field<F>, x: F, powers: seq<F>, pieces: seq<F>)
    requires f.Valid() && |powers| == |pieces| && Shplonk.PowersOf(f, x, powers)
    ensures Dot(f, Zipped(powers, pieces)) == Eval(f, pieces, x)
  {
    hide Field.Valid, Pow;
    var n := |pieces|;
    if n > 0 {
      DotOfPowers(f, x, powers[..n - 1], pieces[..n - 1]);
      assert Zipped(powers, pieces) == Zipped(powers[..n - 1], pieces[..n - 1]) + [(powers[n - 1], pieces[n - 1])];
      DotSnoc(f, Zipped(powers[..n - 1], pieces[..n - 1]), powers[n - 1], pieces[n - 1]);
      assert pieces == pieces[..n - 1] + [pieces[n - 1]];
      EvalSnoc(f, pieces[..n - 1], pieces[n - 1], x);
      MulComm(f, powers[n - 1], pieces[n - 1]);
    }
  }

  /** The pieces of the quotient recombined with powers of `x^n`. */
  method AggregateHCommitment<F(!new,==)>(f: Field<F>, pieces: seq<F>, xn: F) returns (r: Result<F, Error>)
    requires f.Valid()
    ensures r == if pieces == [] then Err(Protocol) else Ok(Eval(f, pieces, xn))
  {
    hide Field.Valid, Eval, Dot;
    if pieces == [] {
      return Err(Protocol);
    }
    var powers := Shplonk.Powers(f, xn, |pieces|);
    var terms: seq<(F, F)> := [];
    for i := 0 to |pieces|
      invariant terms == Zipped(powers[..i], pieces[..i])
    {
      terms := terms + [(powers[i], pieces[i])];
    }
    assert powers[..|pieces|] == powers && pieces[..|pieces|] == pieces;
    DotOfPowers(f, xn, powers, pieces);
    var sum := MsmG1(f, terms);
    return Ok(sum);
  }

  /** The expressions as coefficients in y: the first one gets the highest power. */
  ghost function Reversed<T>(s: seq<T>): (r: seq<T>)
    ensures |r| == |s|
    ensures forall i :: 0 <= i < |s| ==> r[i] == s[|s| - 1 - i]
  {
    seq(|s|, i requires 0 <= i < |s| => s[|s| - 1 - i])
  }

  method FoldExpressions<F(!new)>(f: Field<F>, expressions: seq<F>, y: F) returns (acc: F)
    requires f.Valid()
    ensures acc == Eval(f, Reversed(expressions), y)
  {
    hide Field.Valid;
    acc := f.Zero();
    for i := 0 to |expressions|
      invariant acc == Eval(f, Reversed(expressions[..i]), y)
    {
      var e := expressions[i];
      assert Reversed(expressions[..i + 1])[1..] == Reversed(expressions[..i]);
      MulComm(f, acc, y);
      AddComm(f, f.mul(y, acc), e);
      acc := f.add(f.mul(acc, y), e);
    }
    assert expressions[..|expressions|] == expressions;
  }

  /** The value the quotient must take at x: the folded expressions divided by `x^n - 1`. */
  method ExpectedHEval<F(!new,==)>(f: Field<F>, expressions: seq<F>, y: F, xn: F) returns (r: Result<F, Error>)
    requires f.Valid()
    ensures r.Err? <==> xn == f.One()
    ensures r.Err? ==> r.error == Protocol
    ensures r.Ok? ==> f.mul(r.value, f.Sub(xn, f.One())) == Eval(f, Reversed(expressions), y)
  {
    hide Field.Valid, Eval;
    var folded := FoldExpressions(f, expressions, y);
    var inverse := FrInverse(f, f.Sub(xn, f.One()));
    SubIsZero(f, xn, f.One());
    if inverse.None? {
      return Err(Protocol);
    }
    QuotientTimesDivisor(f, folded, f.Sub(xn, f.One()));
    return Ok(f.mul(folded, inverse.value));
  }

  lemma QuotientTimesDivisor<F(!new)>(f: Field<F>, a: F, d: F)
    requires f.Valid() && d != f.Zero()
    ensures f.mul(f.mul(a, f.inv(d)), d) == a
  {
    hide Field.Valid;
    MulAssoc(f, a, f.inv(d), d);
    MulInverseLeft(f, d, a);
    MulOne(f, a);
  }

  /** The expected value is the one the recombined pieces take exactly when the folded expressions
      are the recombined pieces times `x^n - 1`: the vanishing argument at x. */
  lemma QuotientCheck<F(!new)>(f: Field<F>, expected: F, folded: F, xn: F, pieceEvals: seq<F>)
    requires f.Valid() && xn != f.One()
    requires f.mul(expected, f.Sub(xn, f.One())) == folded
    ensures expected == Eval(f, pieceEvals, xn) <==> folded == f.mul(Eval(f, pieceEvals, xn), f.Sub(xn, f.One()))
  {
    hide Field.Valid, Eval;
    var d, h := f.Sub(xn, f.One()), Eval(f, pieceEvals, xn);
    SubIsZero(f, xn, f.One());
    MulComm(f, expected, d);
    MulComm(f, h, d);
    if folded == f.mul(h, d) {
      MulCancel(f, d, expected, h);
    }
  }

  /** Folding loses nothing: it vanishes at as many challenges as there are expressions exactly when
      every expression is zero. */
  lemma FoldVanishesOnlyWithAll<F(!new)>(f: Field<F>, expressions: seq<F>, ys: seq<F>)
    requires f.Valid() && Distinct(ys) && |expressions| <= |ys|
    ensures (forall i :: 0 <= i < |ys| ==> Eval(f, Reversed(expressions), ys[i]) == f.Zero())
       <==> (forall i :: 0 <= i < |expressions| ==> expressions[i] == f.Zero())
  {
    hide Field.Valid, Eval;
    var c := Reversed(expressions);
    if forall i :: 0 <= i < |ys| ==> Eval(f, c, ys[i]) == f.Zero() {
      TooManyRoots(f, c, ys);
      forall i | 0 <= i < |expressions| ensures expressions[i] == f.Zero() {
        assert c[|c| - 1 - i] == expressions[i];
      }
    }
    if forall i :: 0 <= i < |expressions| ==> expressions[i] == f.Zero() {
      forall i | 0 <= i < |ys| ensures Eval(f, c, ys[i]) == f.Zero() {
        EvalZeros(f, c, ys[i]);
      }
    }
  }

  // ----- opening -----

  /** The list of lookup and shuffle expressions, as a function of what the verifier has computed. */
  type MoreExpressions<!F> = (LagrangeEvaluations<F>, seq<F>) -> Result<seq<F>, Error>

  // ----- public inputs -----

  ghost predicate InputsInRange<F(!new)>(f: Field<F>, inputs: seq<seq<byte>>) {
    forall i :: 0 <= i < |inputs| ==> Expression.ScalarFromBytes(f, inputs[i]).Some?
  }

  /** The inputs fill the first instance column; without instance columns they are not looked at. */
  ghost function ColumnsOf<F(!new)>(f: Field<F>, numInstance: nat, inputs: seq<seq<byte>>): Option<seq<seq<F>>> {
    if numInstance == 0 then Some([])
    else if !InputsInRange(f, inputs) then None
    else Some([seq(|inputs|, i requires 0 <= i < |inputs| => Expression.ScalarFromBytes(f, inputs[i]).value)] + seq(numInstance - 1, _ => []))
  }

  method InstanceColumns<F(!new)>(f: Field<F>, numInstance: nat, inputs: seq<seq<byte>>) returns (r: Result<seq<seq<F>>, Error>)
    ensures var c := ColumnsOf(f, numInstance, inputs);
      if c.None? then r == Err(PublicInputOutOfRange) else r == Ok(c.value)
  {
    if numInstance == 0 {
      return Ok([]);
    }
    var column: seq<F> := [];
    for i := 0 to |inputs|
      invariant |column| == i
      invariant forall l :: 0 <= l < i ==> Expression.ScalarFromBytes(f, inputs[l]) == Some(column[l])
    {
      var a := Expression.ScalarFromBytes(f, inputs[i]);
      if a.None? {
        return Err(PublicInputOutOfRange);
      }
      column := column + [a.value];
    }
    assert column == seq(|inputs|, i requires 0 <= i < |inputs| => Expression.ScalarFromBytes(f, inputs[i]).value);
    var columns := [column];
    for c := 1 to numInstance
      invariant columns == [column] + seq(c - 1, _ => [])
    {
      columns := columns + [[]];
    }
    return Ok(columns);
  }

  /** The instance evaluations, when every query has a column and misses its rows. */
  ghost function InstanceOf<F(!new)>(f: Field<F>, vk: Vk<F>, x: F, columns: seq<seq<F>>): Option<seq<F>> {
    var qs, n := vk.instanceQueries, Pow2(vk.k);
    if exists q :: q in qs && BadQuery(f, vk.omega, n, x, q, columns) then None
    else Some(seq(|qs|, i requires 0 <= i < |qs| => InstanceAt(f, vk, x, columns, qs[i])))
  }

  ghost function InstanceAt<F(!new)>(f: Field<F>, vk: Vk<F>, x: F, columns: seq<seq<F>>, q: (u32, i32)): F {
    if q.0 < |columns| then WeightedSum(f, vk.omega, Pow2(vk.k), columns[q.0], |columns[q.0]|, Rotated(f, vk.omega, Pow2(vk.k), x, q.1))
    else f.Zero()
  }

  lemma InstanceIsOf<F(!new)>(f: Field<F>, vk: Vk<F>, x: F, columns: seq<seq<F>>, out: seq<F>)
    requires !(exists q :: q in vk.instanceQueries && BadQuery(f, vk.omega, Pow2(vk.k), x, q, columns))
    requires |out| == |vk.instanceQueries|
    requires forall i :: 0 <= i < |out| ==> IsEvaluation(f, vk.omega, Pow2(vk.k), x, vk.instanceQueries[i], columns, out[i])
    ensures InstanceOf(f, vk, x, columns) == Some(out)
  {
    hide WeightedSum, Rotated, BadQuery, Pow2;
    forall i | 0 <= i < |out| ensures InstanceAt(f, vk, x, columns, vk.instanceQueries[i]) == out[i] {
      assert IsEvaluation(f, vk.omega, Pow2(vk.k), x, vk.instanceQueries[i], columns, out[i]);
    }
    assert InstanceOf(f, vk, x, columns).Some?;
    assert InstanceOf(f, vk, x, columns).value == out;
  }

  // ----- the expressions -----

  ghost function Flat(gates: seq<seq<seq<byte>>>): seq<seq<byte>> {
    if gates == [] then [] else Flat(gates[..|gates| - 1]) + gates[|gates| - 1]
  }

  /** The values of the polynomials, or the first failure. */
  ghost function Values<F(!new)>(f: Field<F>, polys: seq<seq<byte>>, ctx: Expression.EvalContext<F>): Result<seq<F>, Error> {
    if polys == [] then Ok([])
    else
      var init := Values(f, polys[..|polys| - 1], ctx);
      if init.Err? then init
      else
        var last := Expression.Outcome(f, polys[|polys| - 1], ctx);
        if last.Err? then Err(last.error) else Ok(init.value + [last.value])
  }

  lemma {:induction false} FailureStays<F(!new)>(f: Field<F>, a: seq<seq<byte>>, b: seq<seq<byte>>, ctx: Expression.EvalContext<F>)
    requires Values(f, a, ctx).Err?
    ensures Values(f, a + b, ctx) == Values(f, a, ctx)
  {
    hide Expression.Outcome;
    if b == [] {
      assert a + b == a;
    } else {
      assert (a + b)[..|a + b| - 1] == a + b[..|b| - 1];
      FailureStays(f, a, b[..|b| - 1], ctx);
    }
  }

  lemma {:induction false} FlatSplit(gates: seq<seq<seq<byte>>>, i: nat)
    requires i < |gates|
    ensures exists rest :: Flat(gates) == Flat(gates[..i]) + gates[i] + rest
  {
    var n := |gates| - 1;
    if i == n {
      assert Flat(gates) == Flat(gates[..i]) + gates[i] + [];
    } else {
      FlatSplit(gates[..n], i);
      assert gates[..n][..i] == gates[..i];
      var rest :| Flat(gates[..n]) == Flat(gates[..i]) + gates[i] + rest;
      assert Flat(gates) == Flat(gates[..i]) + gates[i] + (rest + gates[n]);
    }
  }

  lemma OneMoreValue<F(!new)>(f: Field<F>, done: seq<seq<byte>>, gate: seq<seq<byte>>, j: nat, ctx: Expression.EvalContext<F>)
    requires j < |gate|
    ensures done + gate[..j + 1] == done + gate[..j] + [gate[j]]
    ensures var before, v := Values(f, done + gate[..j], ctx), Expression.Outcome(f, gate[j], ctx);
      Values(f, done + gate[..j + 1], ctx) ==
        if before.Err? then before else if v.Err? then Err(v.error) else Ok(before.value + [v.value])
  {
    hide Expression.Outcome;
    assert gate[..j + 1] == gate[..j] + [gate[j]];
    assert (done + gate[..j + 1])[..|done| + j] == done + gate[..j];
  }

  /** Every gate polynomial, gate by gate. */
  method EvaluateGates<F(!new)>(f: Field<F>, vk: Vk<F>, ctx: Expression.EvalContext<F>) returns (r: Result<seq<F>, Error>)
    ensures r == Values(f, Flat(vk.gates), ctx)
  {
    hide Values, Flat, Expression.Outcome;
    var out: seq<F> := [];
    NothingFlat(f, ctx);
    assert vk.gates[..0] == [];
    for i := 0 to |vk.gates|
      invariant Values(f, Flat(vk.gates[..i]), ctx) == Ok(out)
    {
      var gate := vk.gates[i];
      ghost var done := Flat(vk.gates[..i]);
      assert done + gate[..0] == done;
      FlatStep(vk.gates, i);
      for j := 0 to |gate|
        invariant Values(f, done + gate[..j], ctx) == Ok(out)
      {
        OneMoreValue(f, done, gate, j, ctx);
        var v := Expression.Evaluate(f, gate[j], ctx);
        if v.Err? {
          FlatSplit(vk.gates, i);
          ghost var rest :| Flat(vk.gates) == done + gate + rest;
          FailureStays(f, done + gate[..j + 1], gate[j + 1..] + rest, ctx);
          assert done + gate[..j + 1] + (gate[j + 1..] + rest) == done + gate + rest;
          return Err(v.error);
        }
        out := out + [v.value];
      }
      assert gate[..|gate|] == gate;
    }
    assert vk.gates[..|vk.gates|] == vk.gates;
    return Ok(out);
  }

  lemma NothingFlat<F(!new)>(f: Field<F>, ctx: Expression.EvalContext<F>)
    ensures Flat([]) == [] && Values(f, [], ctx) == Ok([])
  {
  }

  lemma FlatStep(gates: seq<seq<seq<byte>>>, i: nat)
    requires i < |gates|
    ensures Flat(gates[..i + 1]) == Flat(gates[..i]) + gates[i]
  {
    assert gates[..i + 1][..i] == gates[..i];
  }

  ghost predicate PermutationAccepted<F>(vk: Vk<F>, proof: Proof<F>, instance: seq<F>) {
    vk.numPermChunks == 0 || (Permutation.CountsMatch(vk, proof) && Permutation.EveryCoveredResolves(vk, proof, instance))
  }

  /** The evaluations of the permuted columns. */
  ghost function ColumnValues<F(!new)>(f: Field<F>, vk: Vk<F>, proof: Proof<F>, instance: seq<F>): (v: seq<F>)
    ensures |v| == |vk.permutedColumns|
    ensures Permutation.Resolve(vk.permutedColumns, proof.adviceEvals, proof.fixedEvals, instance, v)
  {
    seq(|vk.permutedColumns|, j requires 0 <= j < |vk.permutedColumns| =>
        var v := Permutation.LookupColumnEval(vk.permutedColumns[j], proof.adviceEvals, proof.fixedEvals, instance);
        if v.Ok? then v.value else f.Zero())
  }

  ghost function PermutationList<F(!new)>(f: Field<F>, vk: Vk<F>, proof: Proof<F>, ch: Challenges<F>, lag: LagrangeEvaluations<F>,
                                          instance: seq<F>, delta: F): seq<F>
    requires PermutationAccepted(vk, proof, instance)
  {
    if vk.numPermChunks == 0 then []
    else
      var values := ColumnValues(f, vk, proof, instance);
      Permutation.ExpressionList(f, lag.l0, lag.lLast, f.Sub(f.Sub(f.One(), lag.lLast), lag.lBlind), proof.permutationProductEvals,
                                 Permutation.LeftFactors(f, values, proof.permutationCommonEvals, ch.beta, ch.gamma),
                                 Permutation.RightFactors(f, values, delta, ch.beta, ch.x, ch.gamma), Permutation.ChunkLen(vk.csDegree))
  }

  function ContextOf<F>(proof: Proof<F>, instance: seq<F>, ch: Challenges<F>): Expression.EvalContext<F> {
    Expression.EvalContext(proof.adviceEvals, proof.fixedEvals, instance, ch.userChallenges)
  }

  /** All expressions in the order they are folded: gates, permutation, then lookups and shuffles. */
  ghost function ExpressionsOf<F(!new)>(f: Field<F>, vk: Vk<F>, proof: Proof<F>, ch: Challenges<F>, lag: LagrangeEvaluations<F>,
                                        instance: seq<F>, delta: F, more: MoreExpressions<F>): Result<seq<F>, Error> {
    var gates := Values(f, Flat(vk.gates), ContextOf(proof, instance, ch));
    if gates.Err? then gates
    else if !PermutationAccepted(vk, proof, instance) then Err(Protocol)
    else
      var others := more(lag, instance);
      if others.Err? then others else Ok(gates.value + PermutationList(f, vk, proof, ch, lag, instance, delta) + others.value)
  }

  /** The value the quotient must take at x, from the expressions. */
  method ComputeExpectedHEval<F(!new,==)>(f: Field<F>, vk: Vk<F>, proof: Proof<F>, ch: Challenges<F>, lag: LagrangeEvaluations<F>,
                                          instance: seq<F>, delta: F, more: MoreExpressions<F>)
    returns (r: Result<F, Error>)
    requires f.Valid()
    ensures var e := ExpressionsOf(f, vk, proof, ch, lag, instance, delta, more);
      && (e.Err? ==> r == Err(e.error))
      && (e.Ok? ==> (r.Err? <==> lag.xn == f.One()))
      && (e.Ok? && r.Err? ==> r.error == Protocol)
      && (r.Ok? ==> f.mul(r.value, f.Sub(lag.xn, f.One())) == Eval(f, Reversed(e.value), ch.y))
  {
    hide Field.Valid, Eval, Values, Flat, Permutation.ExpressionList, Permutation.LeftFactors, Permutation.RightFactors,
         Permutation.EveryCoveredResolves, Permutation.Resolve, Permutation.LookupColumnEval;
    var gates := EvaluateGates(f, vk, ContextOf(proof, instance, ch));
    if gates.Err? {
      return Err(gates.error);
    }
    var perm := Permutation.Expressions(f, vk, proof, ch.beta, ch.gamma, ch.x, lag, instance, delta, ColumnValues(f, vk, proof, instance));
    if perm.Err? {
      return Err(perm.error);
    }
    var others := more(lag, instance);
    if others.Err? {
      return Err(others.error);
    }
    r := ExpectedHEval(f, gates.value + perm.value + others.value, ch.y, lag.xn);
  }

  // ----- the query list -----

  /** The challenge misses row 0, the blinded rows and the last usable row. */
  ghost predicate MissesSpecialRows<F(!new)>(f: Field<F>, vk: Vk<F>, x: F) {
    forall e :: -(vk.blindingFactors as int) - 1 <= e <= 0 ==> x != PowZ(f, vk.omega, Pow2(vk.k), e)
  }

  ghost function LagrangeAt<F(!new)>(f: Field<F>, vk: Vk<F>, x: F): LagrangeEvaluations<F> {
    var n := Pow2(vk.k);
    LagrangeEvaluations(L(f, vk.omega, n, 0, x), L(f, vk.omega, n, -(vk.blindingFactors as int) - 1, x),
                        BlindSum(f, vk.omega, n, vk.blindingFactors, x), Pow(f, x, n))
  }

  /** The expressions at the challenge, when the challenge and the public inputs are not refused. */
  ghost function ExpressionsAt<F(!new)>(f: Field<F>, vk: Vk<F>, proof: Proof<F>, ch: Challenges<F>, inputs: seq<seq<byte>>,
                                        delta: F, more: MoreExpressions<F>): Option<seq<F>> {
    var columns := ColumnsOf(f, vk.numInstance, inputs);
    if !MissesSpecialRows(f, vk, ch.x) || columns.None? then None
    else
      var instance := InstanceOf(f, vk, ch.x, columns.value);
      if instance.None? then None
      else
        var e := ExpressionsOf(f, vk, proof, ch, LagrangeAt(f, vk, ch.x), instance.value, delta, more);
        if e.Err? then None else Some(e.value)
  }

  /** The folded expressions divided by `x^n - 1`. */
  ghost function QuotientValue<F(!new)>(f: Field<F>, expressions: seq<F>, y: F, xn: F): F {
    f.mul(Eval(f, Reversed(expressions), y), f.inv(f.Sub(xn, f.One())))
  }

  /** A value whose product with `x^n - 1` is the fold is the quotient value. */
  lemma QuotientDetermined<F(!new)>(f: Field<F>, expressions: seq<F>, y: F, xn: F, value: F)
    requires f.Valid() && xn != f.One()
    ensures value == QuotientValue(f, expressions, y, xn) <==> f.mul(value, f.Sub(xn, f.One())) == Eval(f, Reversed(expressions), y)
  {
    hide Field.Valid, Eval;
    SubIsZero(f, xn, f.One());
    MulInverseLeft(f, f.Sub(xn, f.One()), value);
    QuotientTimesDivisor(f, Eval(f, Reversed(expressions), y), f.Sub(xn, f.One()));
  }

  /** The query list the openings are checked against. There is none exactly when an expression cannot
      be evaluated, when x is on the domain, when there are no quotient pieces, or when the proof does
      not fit the key. */
  ghost function Prepared<F(!new)>(f: Field<F>, vk: Vk<F>, proof: Proof<F>, ch: Challenges<F>, inputs: seq<seq<byte>>,
                                   delta: F, more: MoreExpressions<F>): Option<seq<VerifierQuery<F>>>
    requires PermIndexable(vk, proof)
  {
    var e, xn := ExpressionsAt(f, vk, proof, ch, inputs, delta, more), Pow(f, ch.x, Pow2(vk.k));
    if e.None? || xn == f.One() || proof.vanishingHCommits == [] || !Buildable(vk, proof) then None
    else
      Some(QueriesOf(f, SettingOf(vk, proof, ch.x, Eval(f, proof.vanishingHCommits, xn), vk.omega, Pow(f, vk.omega, LastPower(vk))),
                     Openings(vk, proof, QuotientValue(f, e.value, ch.y, xn))))
  }

  method PrepareOpeningQueries<F(!new,==)>(f: Field<F>, vk: Vk<F>, proof: Proof<F>, ch: Challenges<F>, inputs: seq<seq<byte>>,
                                           delta: F, more: MoreExpressions<F>)
    returns (r: Result<seq<VerifierQuery<F>>, Error>)
    requires f.Valid() && HasOrder(f, vk.omega, Pow2(vk.k)) && vk.k < 64 && PermIndexable(vk, proof)
    ensures r.Ok? <==> Prepared(f, vk, proof, ch, inputs, delta, more).Some?
    ensures r.Ok? ==> r.value == Prepared(f, vk, proof, ch, inputs, delta, more).value
  {
    hide Field.Valid, Eval, QueriesOf, HasOrder, Pow2, Openings, Buildable, PermIndexable, PowZ, Pow, L, BlindSum, ColumnsOf,
         InstanceOf, ExpressionsOf, BadQuery, IsEvaluation, LastPower, OpenedLast, QuotientValue;
    var lag := EvaluateLagrange(f, vk.k, vk.omega, ch.x, vk.blindingFactors);
    if lag.Err? {
      return Err(lag.error);
    }
    var columns := InstanceColumns(f, vk.numInstance, inputs);
    if columns.Err? {
      return Err(columns.error);
    }
    var instance := ReconstructInstanceEvals(f, vk.k, vk.omega, ch.x, vk.instanceQueries, columns.value);
    if instance.Err? {
      NoInstance(f, vk, ch.x, columns.value);
      return Err(instance.error);
    }
    InstanceIsOf(f, vk, ch.x, columns.value, instance.value);
    var expected := ComputeExpectedHEval(f, vk, proof, ch, lag.value, instance.value, delta, more);
    if expected.Err? {
      return Err(expected.error);
    }
    QuotientDetermined(f, ExpressionsAt(f, vk, proof, ch, inputs, delta, more).value, ch.y, lag.value.xn, expected.value);
    var commitment := AggregateHCommitment(f, proof.vanishingHCommits, lag.value.xn);
    if commitment.Err? {
      return Err(commitment.error);
    }
    var last := OmegaLast(f, vk);
    r := BuildQueries(f, vk, proof, ch.x, commitment.value, expected.value, vk.omega, last);
  }

  lemma NoInstance<F(!new)>(f: Field<F>, vk: Vk<F>, x: F, columns: seq<seq<F>>)
    requires exists q :: q in vk.instanceQueries && BadQuery(f, vk.omega, Pow2(vk.k), x, q, columns)
    ensures InstanceOf(f, vk, x, columns).None?
  {
  }

  /** In a built query list the slot number alone determines the commitment, so the list is consistent
      exactly when no slot is claimed to have two values at one point. */
  lemma BuiltQueriesConsistent<F(!new)>(f: Field<F>, s: Setting<F>, os: seq<Opening<F>>)
    requires s.n > 0
    ensures var qs := QueriesOf(f, s, os);
      RotationSets.Consistent(qs) <==>
      forall p, q :: p in qs && q in qs && p.commitId == q.commitId && p.point == q.point ==> p.eval == q.eval
  {
    hide PointAt;
    var qs := QueriesOf(f, s, os);
    forall p, q | p in qs && q in qs && p.commitId == q.commitId ensures p.commitment == q.commitment {
      var i :| 0 <= i < |qs| && qs[i] == p;
      var j :| 0 <= j < |qs| && qs[j] == q;
      assert qs[i] == QueryOf(f, s, os[i]) && qs[j] == QueryOf(f, s, os[j]);
    }
  }

  // ----- the two verifiers, up to the pairing -----

  /** The GWC verifier after the proof has been read. The opening is reached exactly when the queries
      can be prepared and there are as many witnesses as points; the pairing sides are then the batched
      ones. */
  method VerifyGwc<F(!new,==)>(f: Field<F>, vk: Vk<F>, proof: Proof<F>, ch: Challenges<F>, inputs: seq<seq<byte>>,
                               witnesses: seq<F>, v: F, u: F, delta: F, more: MoreExpressions<F>)
    returns (r: Result<PairingInput<F>, Error>)
    requires f.Valid() && HasOrder(f, vk.omega, Pow2(vk.k)) && vk.k < 64 && PermIndexable(vk, proof)
    ensures var queries := Prepared(f, vk, proof, ch, inputs, delta, more);
      && (r.Ok? <==> queries.Some? && |witnesses| == |Gwc.Points(queries.value)|)
      && (r.Ok? ==> r.value == PairingInput(Eval(f, witnesses, u),
                                            f.neg(Eval(f, Gwc.RightTerms(f, Gwc.GroupsOf(queries.value), witnesses, v), u))))
  {
    hide Field.Valid, Eval, HasOrder, Pow2, Pow, Prepared, Gwc.Points, Gwc.RightTerms, Gwc.GroupsOf, PermIndexable;
    var queries := PrepareOpeningQueries(f, vk, proof, ch, inputs, delta, more);
    if queries.Err? {
      return Err(queries.error);
    }
    PreparedNonEmpty(f, vk, proof, ch, inputs, delta, more);
    r := Gwc.VerifyOpening(f, queries.value, witnesses, v, u);
  }

  lemma PreparedNonEmpty<F(!new)>(f: Field<F>, vk: Vk<F>, proof: Proof<F>, ch: Challenges<F>, inputs: seq<seq<byte>>,
                                  delta: F, more: MoreExpressions<F>)
    requires PermIndexable(vk, proof) && Prepared(f, vk, proof, ch, inputs, delta, more).Some?
    ensures Prepared(f, vk, proof, ch, inputs, delta, more).value != []
  {
    hide Eval, Pow2, Pow, ExpressionsAt, Openings, QueriesOf, QuotientValue, Buildable, PermIndexable;
    var e, xn := ExpressionsAt(f, vk, proof, ch, inputs, delta, more), Pow(f, ch.x, Pow2(vk.k));
    SomeOpening(vk, proof, QuotientValue(f, e.value, ch.y, xn));
  }

  /** For a proof of the announced sizes, a non-zero challenge and a last row that is counted as it is
      opened, as many witnesses as the reader expects is as many as there are points. */
  lemma ExpectedCountReachesPairing<F(!new)>(f: Field<F>, vk: Vk<F>, proof: Proof<F>, ch: Challenges<F>, inputs: seq<seq<byte>>,
                                             delta: F, more: MoreExpressions<F>)
    requires f.Valid() && HasOrder(f, vk.omega, Pow2(vk.k)) && Shaped(vk, proof) && ch.x != f.Zero()
    requires Prepared(f, vk, proof, ch, inputs, delta, more).Some?
    ensures |Gwc.Points(Prepared(f, vk, proof, ch, inputs, delta, more).value)| == |Distinguished(VkRotations(vk), Pow2(vk.k))|
       <==> LastRowCounted(vk)
  {
    hide Field.Valid, Eval, HasOrder, Pow2, Pow, ExpressionsAt, Openings, QueriesOf, Gwc.Points, QuotientValue, Buildable,
         PermIndexable, Distinguished, VkRotations, LastRowCounted, LastPower;
    var e, xn := ExpressionsAt(f, vk, proof, ch, inputs, delta, more), Pow(f, ch.x, Pow2(vk.k));
    WitnessCountAgrees(f, vk, proof, ch.x, Eval(f, proof.vanishingHCommits, xn), QuotientValue(f, e.value, ch.y, xn), vk.omega,
                       Pow(f, vk.omega, LastPower(vk)));
  }

  /** The SHPLONK verifier after the proof has been read: refused exactly when the queries cannot be
      prepared or u is a query point outside the first set; otherwise the two pairing sides. */
  method VerifyShplonk<F(!new,==)>(f: Field<F>, vk: Vk<F>, proof: Proof<F>, ch: Challenges<F>, inputs: seq<seq<byte>>,
                                   delta: F, more: MoreExpressions<F>)
    returns (r: Result<PairingInput<F>, Error>)
    requires f.Valid() && HasOrder(f, vk.omega, Pow2(vk.k)) && vk.k < 64 && PermIndexable(vk, proof)
    ensures var queries := Prepared(f, vk, proof, ch, inputs, delta, more);
      && (queries.Some? ==> queries.value != [])
      && (r.Ok? <==> queries.Some? && (ch.shplonkU in Grouping.Keys(queries.value, PointOf) ==> ch.shplonkU in Shplonk.FirstPoints(queries.value)))
      && (r.Ok? ==> r.value == PairingInput(proof.openingProofWPrime,
            f.neg(Shplonk.OuterSum(f, queries.value, proof.openingProofW, proof.openingProofWPrime, ch.shplonkY, ch.shplonkV, ch.shplonkU))))
  {
    hide Field.Valid, HasOrder, Pow2, Pow, Prepared, Shplonk.OuterSum, Shplonk.FirstPoints, Grouping.Keys, PermIndexable;
    var queries := PrepareOpeningQueries(f, vk, proof, ch, inputs, delta, more);
    if queries.Err? {
      return Err(queries.error);
    }
    PreparedNonEmpty(f, vk, proof, ch, inputs, delta, more);
    r := Shplonk.VerifyOpening(f, queries.value, proof.openingProofW, proof.openingProofWPrime, ch.shplonkY, ch.shplonkV, ch.shplonkU);
  }
}
