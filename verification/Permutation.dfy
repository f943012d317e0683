/**
 The copy-constraint argument: the expressions the verifier evaluates, and why their vanishing on
 every row of the domain makes the two grand products equal.
 */
module Permutation {
  import opened Wrappers
  import opened Bytes
  import opened Fields
  import opened Lagrange
  import opened Plonk

  type Column = (byte, u32)

  // ----- columns -----

  /** The evaluation of a permuted column: tag 0 is advice, 1 fixed, 2 instance. */
  function LookupColumnEval<F>(column: Column, advice: seq<F>, fixed: seq<F>, instance: seq<F>): (r: Result<F, Error>)
    ensures column.0 == 0 && column.1 < |advice| ==> r == Ok(advice[column.1])
    ensures column.0 == 1 && column.1 < |fixed| ==> r == Ok(fixed[column.1])
    ensures column.0 == 2 && column.1 < |instance| ==> r == Ok(instance[column.1])
    ensures r.Ok? <==> column.0 <= 2 && column.1 < |if column.0 == 0 then advice else if column.0 == 1 then fixed else instance|
    ensures r.Err? ==> r.error == Protocol
  {
    if column.0 > 2 then Err(Protocol)
    else
      var evals := if column.0 == 0 then advice else if column.0 == 1 then fixed else instance;
      if column.1 < |evals| then Ok(evals[column.1]) else Err(Protocol)
  }

  /** All columns resolve to these values. */
  ghost predicate Resolve<F>(columns: seq<Column>, advice: seq<F>, fixed: seq<F>, instance: seq<F>, values: seq<F>) {
    && |values| == |columns|
    && forall j :: 0 <= j < |columns| && LookupColumnEval(columns[j], advice, fixed, instance).Ok? ==>
         values[j] == LookupColumnEval(columns[j], advice, fixed, instance).value
  }

  ghost predicate Resolvable<F>(columns: seq<Column>, advice: seq<F>, fixed: seq<F>, instance: seq<F>, lo: nat, hi: nat) {
    forall j :: lo <= j < hi && j < |columns| ==> LookupColumnEval(columns[j], advice, fixed, instance).Ok?
  }

  // ----- the factors of the two products -----

  ghost function LeftFactors<F(!new)>(f: Field<F>, values: seq<F>, sigmas: seq<F>, beta: F, gamma: F): (s: seq<F>)
    requires |values| == |sigmas|
    ensures |s| == |values|
  {
    seq(|values|, j requires 0 <= j < |values| => f.add(f.add(values[j], f.mul(beta, sigmas[j])), gamma))
  }

  ghost function RightFactors<F(!new)>(f: Field<F>, values: seq<F>, delta: F, beta: F, x: F, gamma: F): (s: seq<F>)
    ensures |s| == |values|
  {
    seq(|values|, j requires 0 <= j < |values| => f.add(f.add(values[j], f.mul(f.mul(beta, x), Pow(f, delta, j))), gamma))
  }

  /** The columns of the first i chunks. */
  function Covered(chunkLen: nat, columns: nat, i: nat): (c: nat)
    ensures c <= columns
  {
    if i * chunkLen < columns then i * chunkLen else columns
  }

  lemma CoveredGrows(chunkLen: nat, columns: nat, i: nat)
    ensures Covered(chunkLen, columns, i) <= Covered(chunkLen, columns, i + 1)
  {
    assert (i + 1) * chunkLen == i * chunkLen + chunkLen;
  }

  /** `z(wx) * prod(left) - z(x) * prod(right)` over the columns of chunk i. */
  ghost function ChunkDifference<F(!new)>(f: Field<F>, left: seq<F>, right: seq<F>, chunkLen: nat, i: nat, z: (F, F, F)): F
    requires |left| == |right|
  {
    CoveredGrows(chunkLen, |left|, i);
    var lo, hi := Covered(chunkLen, |left|, i), Covered(chunkLen, |left|, i + 1);
    f.Sub(f.mul(z.1, Prod(f, left[lo..hi])), f.mul(z.0, Prod(f, right[lo..hi])))
  }

  /** One chunk's contribution; the power of delta is carried from column to column. */
  method ChunkGrandProduct<F(!new,==)>(f: Field<F>, i: nat, chunkLen: nat, columns: seq<Column>, advice: seq<F>, fixed: seq<F>,
                                       instance: seq<F>, sigmas: seq<F>, evals: seq<(F, F, F)>, beta: F, x: F, gamma: F, delta: F,
                                       ghost values: seq<F>)
    returns (r: Result<F, Error>)
    requires f.Valid() && i < |evals| && |sigmas| == |columns| && Resolve(columns, advice, fixed, instance, values)
    ensures r.Ok? <==> Resolvable(columns, advice, fixed, instance, i * chunkLen, i * chunkLen + chunkLen)
    ensures r.Err? ==> r.error == Protocol
    ensures r.Ok? ==> r.value == ChunkDifference(f, LeftFactors(f, values, sigmas, beta, gamma),
                                                 RightFactors(f, values, delta, beta, x, gamma), chunkLen, i, evals[i])
  {
    hide Field.Valid, Prod, Pow;
    var (z, zOmega, _) := evals[i];
    var colStart := i * chunkLen;
    var colEnd := if colStart + chunkLen < |columns| then colStart + chunkLen else |columns|;
    assert (i + 1) * chunkLen == colStart + chunkLen;
    ghost var lo := Covered(chunkLen, |columns|, i);

    var left :- LeftProduct(f, columns, advice, fixed, instance, sigmas, beta, gamma, zOmega, colStart, colEnd, values, lo);
    var deltaPower := PowU64(f, delta, colStart);
    var right := RightProduct(f, columns, advice, fixed, instance, f.mul(f.mul(beta, x), deltaPower), delta, gamma, z, colStart, colEnd,
                              values, lo, f.mul(beta, x), beta, x);
    return Ok(f.Sub(left, right));
  }

  /** `z * prod(v + beta*sigma + gamma)`, refused when a column does not resolve. */
  method LeftProduct<F(!new,==)>(f: Field<F>, columns: seq<Column>, advice: seq<F>, fixed: seq<F>, instance: seq<F>, sigmas: seq<F>,
                                 beta: F, gamma: F, z: F, colStart: nat, colEnd: nat, ghost values: seq<F>, ghost lo: nat)
    returns (r: Result<F, Error>)
    requires f.Valid() && |sigmas| == |columns| && Resolve(columns, advice, fixed, instance, values)
    requires colEnd <= |columns| && lo <= |columns| && (lo == colStart <= colEnd || lo == colEnd < colStart)
    ensures r.Ok? <==> Resolvable(columns, advice, fixed, instance, colStart, colEnd)
    ensures r.Err? ==> r.error == Protocol
    ensures r.Ok? ==> r.value == f.mul(z, Prod(f, LeftFactors(f, values, sigmas, beta, gamma)[lo..colEnd]))
  {
    hide Field.Valid, Prod;
    ghost var lefts := LeftFactors(f, values, sigmas, beta, gamma);
    var left, j := z, colStart;
    EmptyProduct(f, lefts, lo);
    MulOne(f, z);
    while j < colEnd
      invariant colStart <= j && (j <= colEnd || j == colStart)
      invariant Resolvable(columns, advice, fixed, instance, colStart, j)
      invariant left == f.mul(z, Prod(f, lefts[lo..if j < colEnd then j else colEnd]))
    {
      var eval := LookupColumnEval(columns[j], advice, fixed, instance);
      if eval.Err? {
        return Err(eval.error);
      }
      ExtendProduct(f, z, lefts, lo, j);
      left := f.mul(left, f.add(f.add(eval.value, f.mul(beta, sigmas[j])), gamma));
      j := j + 1;
    }
    return Ok(left);
  }

  /** `z * prod(v + delta^j*beta*x + gamma)`, over columns already resolved once. */
  method RightProduct<F(!new,==)>(f: Field<F>, columns: seq<Column>, advice: seq<F>, fixed: seq<F>, instance: seq<F>, start: F, delta: F,
                                  gamma: F, z: F, colStart: nat, colEnd: nat, ghost values: seq<F>, ghost lo: nat, ghost betaX: F,
                                  ghost beta: F, ghost x: F)
    returns (right: F)
    requires f.Valid() && Resolve(columns, advice, fixed, instance, values) && Resolvable(columns, advice, fixed, instance, colStart, colEnd)
    requires colEnd <= |columns| && lo <= |columns| && (lo == colStart <= colEnd || lo == colEnd < colStart)
    requires betaX == f.mul(beta, x) && start == f.mul(betaX, Pow(f, delta, colStart))
    ensures right == f.mul(z, Prod(f, RightFactors(f, values, delta, beta, x, gamma)[lo..colEnd]))
  {
    hide Field.Valid, Prod, Pow;
    ghost var rights := RightFactors(f, values, delta, beta, x, gamma);
    var currentDelta, j := start, colStart;
    right := z;
    EmptyProduct(f, rights, lo);
    MulOne(f, z);
    while j < colEnd
      invariant colStart <= j && (j <= colEnd || j == colStart)
      invariant currentDelta == f.mul(betaX, Pow(f, delta, j))
      invariant right == f.mul(z, Prod(f, rights[lo..if j < colEnd then j else colEnd]))
    {
      var eval := LookupColumnEval(columns[j], advice, fixed, instance);
      ExtendProduct(f, z, rights, lo, j);
      right := f.mul(right, f.add(f.add(eval.value, currentDelta), gamma));
      NextDelta(f, betaX, delta, j);
      currentDelta := f.mul(currentDelta, delta);
      j := j + 1;
    }
  }

  lemma EmptyProduct<F(!new)>(f: Field<F>, a: seq<F>, lo: nat)
    requires lo <= |a|
    ensures Prod(f, a[lo..lo]) == f.One()
  {
  }

  lemma ExtendProduct<F(!new)>(f: Field<F>, z: F, factors: seq<F>, lo: nat, j: nat)
    requires f.Valid() && lo <= j < |factors|
    ensures f.mul(f.mul(z, Prod(f, factors[lo..j])), factors[j]) == f.mul(z, Prod(f, factors[lo..j + 1]))
  {
    hide Field.Valid, Prod;
    assert factors[lo..j + 1] == factors[lo..j] + [factors[j]];
    ProdSnoc(f, factors[lo..j], factors[j]);
    MulAssoc(f, z, Prod(f, factors[lo..j]), factors[j]);
  }

  lemma NextDelta<F(!new)>(f: Field<F>, b: F, delta: F, j: nat)
    requires f.Valid()
    ensures f.mul(f.mul(b, Pow(f, delta, j)), delta) == f.mul(b, Pow(f, delta, j + 1))
  {
    hide Field.Valid;
    MulAssoc(f, b, Pow(f, delta, j), delta);
    MulComm(f, Pow(f, delta, j), delta);
  }

  // ----- the list of expressions -----

  ghost function Stitches<F(!new)>(f: Field<F>, l0: F, zs: seq<(F, F, F)>, n: nat): (s: seq<F>)
    requires n <= |zs|
    ensures |s| == if n == 0 then 0 else n - 1
  {
    if n <= 1 then []
    else Stitches(f, l0, zs, n - 1) + [f.mul(l0, f.Sub(zs[n - 1].0, zs[n - 2].2))]
  }

  ghost function Steps<F(!new)>(f: Field<F>, active: F, zs: seq<(F, F, F)>, left: seq<F>, right: seq<F>, chunkLen: nat, n: nat): (s: seq<F>)
    requires n <= |zs| && |left| == |right|
    ensures |s| == n
  {
    if n == 0 then []
    else
      Steps(f, active, zs, left, right, chunkLen, n - 1)
      + [f.mul(active, ChunkDifference(f, left, right, chunkLen, n - 1, zs[n - 1]))]
  }

  /** First value one, last value idempotent, chunks stitched, and one product step per chunk. */
  ghost function ExpressionList<F(!new)>(f: Field<F>, l0: F, lLast: F, active: F, zs: seq<(F, F, F)>,
                                         left: seq<F>, right: seq<F>, chunkLen: nat): seq<F>
    requires |left| == |right|
  {
    if zs == [] then []
    else
      var last := zs[|zs| - 1].0;
      [f.mul(l0, f.Sub(f.One(), zs[0].0))] + [f.mul(lLast, f.Sub(f.mul(last, last), last))]
      + Stitches(f, l0, zs, |zs|) + Steps(f, active, zs, left, right, chunkLen, |zs|)
  }

  function ChunkLen(csDegree: nat): (n: nat)
    ensures n >= 1
  {
    if csDegree <= 3 then 1 else csDegree - 2
  }

  ghost predicate CountsMatch<F, G>(vk: PlonkProtocol<F, G>, proof: PlonkProof<F, G>) {
    && |proof.permutationProductEvals| == vk.numPermChunks
    && |proof.permutationCommonEvals| == |vk.permutationCommitments| == |vk.permutedColumns|
  }

  ghost predicate EveryCoveredResolves<F, G>(vk: PlonkProtocol<F, G>, proof: PlonkProof<F, G>, instance: seq<F>) {
    Resolvable(vk.permutedColumns, proof.adviceEvals, proof.fixedEvals, instance, 0, vk.numPermChunks * ChunkLen(vk.csDegree))
  }

  /** Accepted exactly when there is no permutation, or the counts match and every column that a
      chunk covers resolves. */
  method Expressions<F(!new,==), G>(f: Field<F>, vk: PlonkProtocol<F, G>, proof: PlonkProof<F, G>, beta: F, gamma: F, x: F,
                                    lag: LagrangeEvaluations<F>, instance: seq<F>, delta: F, ghost values: seq<F>)
    returns (r: Result<seq<F>, Error>)
    requires f.Valid() && Resolve(vk.permutedColumns, proof.adviceEvals, proof.fixedEvals, instance, values)
    ensures r.Ok? <==> (vk.numPermChunks == 0 || (CountsMatch(vk, proof) && EveryCoveredResolves(vk, proof, instance)))
    ensures r.Err? ==> r.error == Protocol
    ensures r.Ok? && vk.numPermChunks == 0 ==> r.value == []
    ensures r.Ok? && vk.numPermChunks > 0 ==>
      r.value == ExpressionList(f, lag.l0, lag.lLast, f.Sub(f.Sub(f.One(), lag.lLast), lag.lBlind), proof.permutationProductEvals,
                                LeftFactors(f, values, proof.permutationCommonEvals, beta, gamma),
                                RightFactors(f, values, delta, beta, x, gamma), ChunkLen(vk.csDegree))
  {
    hide Field.Valid, Prod, Pow, ChunkDifference, Steps, LeftFactors, RightFactors, EveryCoveredResolves, Resolve, LookupColumnEval;
    var chunks := vk.numPermChunks;
    if chunks == 0 {
      return Ok([]);
    }
    if |proof.permutationProductEvals| != chunks || |proof.permutationCommonEvals| != |vk.permutationCommitments|
       || |vk.permutedColumns| != |vk.permutationCommitments| {
      return Err(Protocol);
    }
    assert |values| == |vk.permutedColumns| by { ResolveLength(vk.permutedColumns, proof.adviceEvals, proof.fixedEvals, instance, values); }
    var zs := proof.permutationProductEvals;
    var last := zs[chunks - 1].0;
    var out := [f.mul(lag.l0, f.Sub(f.One(), zs[0].0))];
    out := out + [f.mul(lag.lLast, f.Sub(f.mul(last, last), last))];
    ghost var firstTwo := out;
    for i := 1 to chunks
      invariant out == firstTwo + Stitches(f, lag.l0, zs, i)
    {
      out := out + [f.mul(lag.l0, f.Sub(zs[i].0, zs[i - 1].2))];
    }
    var active := f.Sub(f.Sub(f.One(), lag.lLast), lag.lBlind);
    r := ChunkSteps(f, vk, proof, beta, gamma, x, active, instance, delta, out, values);
  }

  /** The grand-product step of every chunk, in order. */
  method ChunkSteps<F(!new,==), G>(f: Field<F>, vk: PlonkProtocol<F, G>, proof: PlonkProof<F, G>, beta: F, gamma: F, x: F,
                                   active: F, instance: seq<F>, delta: F, before: seq<F>, ghost values: seq<F>)
    returns (r: Result<seq<F>, Error>)
    requires f.Valid() && CountsMatch(vk, proof)
    requires Resolve(vk.permutedColumns, proof.adviceEvals, proof.fixedEvals, instance, values)
    ensures r.Ok? <==> EveryCoveredResolves(vk, proof, instance)
    ensures r.Err? ==> r.error == Protocol
    ensures r.Ok? ==> r.value == before + Steps(f, active, proof.permutationProductEvals,
                                                LeftFactors(f, values, proof.permutationCommonEvals, beta, gamma),
                                                RightFactors(f, values, delta, beta, x, gamma), ChunkLen(vk.csDegree), vk.numPermChunks)
  {
    hide Field.Valid, Prod, Pow, ChunkDifference, LeftFactors, RightFactors, Resolvable, Resolve, LookupColumnEval;
    var chunkLen, chunks, zs := ChunkLen(vk.csDegree), vk.numPermChunks, proof.permutationProductEvals;
    assert |values| == |vk.permutedColumns| by { ResolveLength(vk.permutedColumns, proof.adviceEvals, proof.fixedEvals, instance, values); }
    ghost var lefts := LeftFactors(f, values, proof.permutationCommonEvals, beta, gamma);
    ghost var rights := RightFactors(f, values, delta, beta, x, gamma);
    var out := before;
    NothingResolvable(vk.permutedColumns, proof.adviceEvals, proof.fixedEvals, instance);
    for i := 0 to chunks
      invariant out == before + Steps(f, active, zs, lefts, rights, chunkLen, i)
      invariant Resolvable(vk.permutedColumns, proof.adviceEvals, proof.fixedEvals, instance, 0, i * chunkLen)
    {
      ChunkBounds(i, chunks, chunkLen);
      ResolvableJoin(vk.permutedColumns, proof.adviceEvals, proof.fixedEvals, instance, i * chunkLen, (i + 1) * chunkLen, chunks * chunkLen);
      var contribution := ChunkGrandProduct(f, i, chunkLen, vk.permutedColumns, proof.adviceEvals, proof.fixedEvals, instance,
                                            proof.permutationCommonEvals, zs, beta, x, gamma, delta, values);
      if contribution.Err? {
        return Err(contribution.error);
      }
      out := out + [f.mul(active, contribution.value)];
    }
    return Ok(out);
  }

  lemma ResolveLength<F>(columns: seq<Column>, advice: seq<F>, fixed: seq<F>, instance: seq<F>, values: seq<F>)
    requires Resolve(columns, advice, fixed, instance, values)
    ensures |values| == |columns|
  {
  }

  lemma NothingResolvable<F>(columns: seq<Column>, advice: seq<F>, fixed: seq<F>, instance: seq<F>)
    ensures Resolvable(columns, advice, fixed, instance, 0, 0)
  {
  }

  lemma ChunkBounds(i: nat, chunks: nat, chunkLen: nat)
    requires i < chunks
    ensures (i + 1) * chunkLen == i * chunkLen + chunkLen <= chunks * chunkLen
  {
    assert chunks * chunkLen == (i + 1) * chunkLen + (chunks - i - 1) * chunkLen;
  }

  lemma ResolvableJoin<F>(columns: seq<Column>, advice: seq<F>, fixed: seq<F>, instance: seq<F>, a: nat, b: nat, c: nat)
    requires a <= b <= c
    ensures Resolvable(columns, advice, fixed, instance, 0, a) && Resolvable(columns, advice, fixed, instance, a, b)
       <==> Resolvable(columns, advice, fixed, instance, 0, b)
    ensures Resolvable(columns, advice, fixed, instance, 0, c) ==> Resolvable(columns, advice, fixed, instance, 0, b)
  {
    hide LookupColumnEval;
  }
}
