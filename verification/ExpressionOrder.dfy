/** The order of the expressions and the power of y each of them is folded with. The prover divides the same
    combination by `X^n - 1`, so every place counts. */
module ExpressionOrder {
  import opened Wrappers
  import opened Bytes
  import opened Fields
  import opened Polynomials
  import opened Lagrange
  import opened Plonk
  import opened Queries
  import opened Verifier
  import Expression
  import ExpressionLanguage
  import Permutation
  import PermutationArgument

  // ----- folding -----

  ghost function Fold<F(!new)>(f: Field<F>, expressions: seq<F>, y: F): F {
    Eval(f, Reversed(expressions), y)
  }

  /** One more expression multiplies the earlier ones by y. */
  lemma FoldAppends<F(!new)>(f: Field<F>, expressions: seq<F>, e: F, y: F)
    requires f.Valid()
    ensures Fold(f, [], y) == f.Zero()
    ensures Fold(f, expressions + [e], y) == f.add(f.mul(Fold(f, expressions, y), y), e)
  {
    hide Field.Valid;
    assert Reversed(expressions + [e])[1..] == Reversed(expressions);
    MulComm(f, Fold(f, expressions, y), y);
    AddComm(f, f.mul(y, Fold(f, expressions, y)), e);
  }

  /** Later expressions lift earlier ones by as many powers of y. */
  lemma {:induction false} FoldConcat<F(!new)>(f: Field<F>, a: seq<F>, b: seq<F>, y: F)
    requires f.Valid()
    ensures Fold(f, a + b, y) == f.add(f.mul(Fold(f, a, y), Pow(f, y, |b|)), Fold(f, b, y))
  {
    hide Field.Valid, Fold;
    FoldAppends(f, [], f.Zero(), y);
    if b == [] {
      assert a + b == a;
      PowNothing(f, y);
      MulOne(f, Fold(f, a, y));
      AddZero(f, Fold(f, a, y));
    } else {
      var init, e := b[..|b| - 1], b[|b| - 1];
      assert b == init + [e] && a + b == a + init + [e];
      FoldConcat(f, a, init, y);
      FoldAppends(f, a + init, e, y);
      FoldAppends(f, init, e, y);
      NextPower(f, y, |init|);
      LiftStep(f, Fold(f, a, y), Pow(f, y, |init|), Fold(f, init, y), y, e);
    }
  }

  lemma PowNothing<F(!new)>(f: Field<F>, y: F)
    ensures Pow(f, y, 0) == f.One()
  {
  }

  lemma NextPower<F(!new)>(f: Field<F>, y: F, n: nat)
    requires f.Valid()
    ensures Pow(f, y, n + 1) == f.mul(Pow(f, y, n), y)
  {
    hide Field.Valid;
    MulComm(f, Pow(f, y, n), y);
  }

  lemma LiftStep<F(!new)>(f: Field<F>, a: F, p: F, b: F, y: F, e: F)
    requires f.Valid()
    ensures f.add(f.mul(f.add(f.mul(a, p), b), y), e) == f.add(f.mul(a, f.mul(p, y)), f.add(f.mul(b, y), e))
  {
    var i, j, k, l, m := f.rep(a), f.rep(p), f.rep(b), f.rep(y), f.rep(e);
    assert (i * j + k) * l + m == i * (j * l) + (k * l + m);
  }

  /** Gates first, then the permutation, then lookups and shuffles: with p permutation and o other
      expressions the fold is `(G y^p + P) y^o + O`. */
  lemma ExpressionsFold<F(!new)>(f: Field<F>, vk: Vk<F>, proof: Proof<F>, ch: Challenges<F>, lag: LagrangeEvaluations<F>,
                                 instance: seq<F>, delta: F, more: MoreExpressions<F>)
    requires f.Valid() && ExpressionsOf(f, vk, proof, ch, lag, instance, delta, more).Ok?
    ensures PermutationAccepted(vk, proof, instance) && more(lag, instance).Ok?
    ensures Values(f, Flat(vk.gates), ContextOf(proof, instance, ch)).Ok?
    ensures var gates, others := Values(f, Flat(vk.gates), ContextOf(proof, instance, ch)).value, more(lag, instance).value;
      var permutation := PermutationList(f, vk, proof, ch, lag, instance, delta);
      Fold(f, ExpressionsOf(f, vk, proof, ch, lag, instance, delta, more).value, ch.y) ==
      f.add(f.mul(f.add(f.mul(Fold(f, gates, ch.y), Pow(f, ch.y, |permutation|)), Fold(f, permutation, ch.y)), Pow(f, ch.y, |others|)),
            Fold(f, others, ch.y))
  {
    hide Field.Valid, Fold, Values, Flat, PermutationList, PermutationAccepted, Pow;
    var gates, others := Values(f, Flat(vk.gates), ContextOf(proof, instance, ch)).value, more(lag, instance).value;
    var permutation := PermutationList(f, vk, proof, ch, lag, instance, delta);
    FoldConcat(f, gates, permutation, ch.y);
    FoldConcat(f, gates + permutation, others, ch.y);
  }

  // ----- gates -----

  /** The i-th value is that of the i-th polynomial. */
  lemma {:induction false} GateValueAt<F(!new)>(f: Field<F>, polys: seq<seq<byte>>, ctx: Expression.EvalContext<F>, i: nat)
    requires Values(f, polys, ctx).Ok? && i <= |polys|
    ensures |Values(f, polys, ctx).value| == |polys|
    ensures i < |polys| ==> Expression.Outcome(f, polys[i], ctx) == Ok(Values(f, polys, ctx).value[i])
  {
    hide Expression.Outcome;
    if polys != [] {
      var n := |polys| - 1;
      GateValueAt(f, polys[..n], ctx, if i < n then i else n);
    }
  }

  // ----- the permutation -----

  /** Which permutation expression stands where: the first value, the last value, the seams between chunks, then
      one step per chunk. */
  lemma PermutationPositions<F(!new)>(f: Field<F>, l0: F, lLast: F, active: F, zs: seq<(F, F, F)>, left: seq<F>, right: seq<F>, chunkLen: nat)
    requires |left| == |right| && zs != []
    ensures var list, n := Permutation.ExpressionList(f, l0, lLast, active, zs, left, right, chunkLen), |zs|;
      && |list| == 2 * n + 1
      && list[0] == f.mul(l0, f.Sub(f.One(), zs[0].0))
      && list[1] == f.mul(lLast, f.Sub(f.mul(zs[n - 1].0, zs[n - 1].0), zs[n - 1].0))
      && (forall i :: 1 <= i < n ==> list[i + 1] == f.mul(l0, f.Sub(zs[i].0, zs[i - 1].2)))
      && (forall i :: 0 <= i < n ==> list[n + 1 + i] == f.mul(active, Permutation.ChunkDifference(f, left, right, chunkLen, i, zs[i])))
  {
    hide Permutation.Stitches, Permutation.Steps, Permutation.ChunkDifference;
    var list, n := Permutation.ExpressionList(f, l0, lLast, active, zs, left, right, chunkLen), |zs|;
    forall i | 1 <= i < n ensures list[i + 1] == f.mul(l0, f.Sub(zs[i].0, zs[i - 1].2)) {
      PermutationArgument.StitchAt(f, l0, zs, n, i);
      assert list[2 + (i - 1)] == Permutation.Stitches(f, l0, zs, n)[i - 1];
    }
    forall i | 0 <= i < n ensures list[n + 1 + i] == f.mul(active, Permutation.ChunkDifference(f, left, right, chunkLen, i, zs[i])) {
      PermutationArgument.StepAt(f, active, zs, left, right, chunkLen, n, i);
    }
  }

  // ----- where the values come from -----

  /** The public inputs, decoded in order, fill the first instance column; the others are empty. */
  lemma InputsFillFirstColumn<F(!new)>(f: Field<F>, numInstance: nat, inputs: seq<seq<byte>>)
    ensures numInstance == 0 ==> ColumnsOf(f, numInstance, inputs) == Some([])
    ensures numInstance > 0 ==>
      (ColumnsOf(f, numInstance, inputs).Some? <==> forall i :: 0 <= i < |inputs| ==> Expression.ScalarFromBytes(f, inputs[i]).Some?)
    ensures numInstance > 0 && ColumnsOf(f, numInstance, inputs).Some? ==>
      var columns := ColumnsOf(f, numInstance, inputs).value;
      && |columns| == numInstance && |columns[0]| == |inputs|
      && (forall i :: 0 <= i < |inputs| ==> Expression.ScalarFromBytes(f, inputs[i]) == Some(columns[0][i]))
      && (forall c :: 1 <= c < numInstance ==> columns[c] == [])
  {
    hide Expression.ScalarFromBytes;
  }

  /** A gate's queries read the proof's evaluations, its instance queries those of the public inputs, and its
      challenges the user's. */
  lemma QueryValues<F(!new)>(f: Field<F>, proof: Proof<F>, instance: seq<F>, ch: Challenges<F>, i: u32, n: byte)
    requires Expression.Encodable(f)
    ensures i < |proof.adviceEvals| ==>
      Expression.Outcome(f, Expression.Encode(f, Expression.Advice(i)), ContextOf(proof, instance, ch)) == Ok(proof.adviceEvals[i])
    ensures i < |proof.fixedEvals| ==>
      Expression.Outcome(f, Expression.Encode(f, Expression.Fixed(i)), ContextOf(proof, instance, ch)) == Ok(proof.fixedEvals[i])
    ensures i < |instance| ==>
      Expression.Outcome(f, Expression.Encode(f, Expression.Instance(i)), ContextOf(proof, instance, ch)) == Ok(instance[i])
    ensures n < |ch.userChallenges| ==>
      Expression.Outcome(f, Expression.Encode<F>(f, Expression.Challenge(n)), ContextOf(proof, instance, ch)) == Ok(ch.userChallenges[n])
  {
    hide Expression.Encodable, Expression.Outcome, Expression.Encode;
    var ctx := ContextOf(proof, instance, ch);
    ExpressionLanguage.EncodedExpressionEvaluates(f, Expression.Advice(i), ctx);
    ExpressionLanguage.EncodedExpressionEvaluates(f, Expression.Fixed(i), ctx);
    ExpressionLanguage.EncodedExpressionEvaluates(f, Expression.Instance(i), ctx);
    ExpressionLanguage.EncodedExpressionEvaluates(f, Expression.Challenge(n), ctx);
  }
}
