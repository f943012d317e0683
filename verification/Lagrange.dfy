/**
 Lagrange basis evaluations at the challenge point, and the reconstruction of instance-column
 evaluations from public inputs.
 */
module Lagrange {
  import opened Wrappers
  import opened PowersOfTwo
  import opened Fields
  import opened Polynomials
  import opened Interpolation
  import opened Domain

  /** `L_e(x)` for any integer index, taken modulo n. */
  ghost function L<F(!new)>(f: Field<F>, omega: F, n: nat, e: int, x: F): F
    requires n > 0
  {
    Basis(f, omega, n, e % n, x)
  }

  function FrInverse<F(!new,==)>(f: Field<F>, a: F): Option<F> {
    if a == f.Zero() then None else Some(f.inv(a))
  }

  /** Square and multiply over the field. */
  method PowU64<F(!new)>(f: Field<F>, base: F, e: nat) returns (acc: F)
    requires f.Valid()
    ensures acc == Pow(f, base, e)
  {
    hide Field.Valid, Pow;
    acc := f.One();
    var power, exponent := base, e;
    MulOne(f, Pow(f, base, e));
    while exponent != 0
      invariant f.mul(acc, Pow(f, power, exponent)) == Pow(f, base, e)
    {
      ghost var h := exponent / 2;
      SquareHalf(f, power, h);
      if exponent % 2 == 1 {
        assert exponent == 1 + 2 * h;
        PowAdd(f, power, 1, 2 * h);
        PowOne(f, power);
        MulAssoc(f, acc, power, Pow(f, power, 2 * h));
        acc := f.mul(acc, power);
      }
      exponent := exponent / 2;
      if exponent != 0 {
        power := f.mul(power, power);
      } else {
        PowOne(f, power);
        PowOne(f, f.mul(power, power));
      }
    }
    PowOne(f, power);
    MulOne(f, acc);
  }

  lemma SquareHalf<F(!new)>(f: Field<F>, a: F, h: nat)
    requires f.Valid()
    ensures Pow(f, f.mul(a, a), h) == Pow(f, a, 2 * h)
  {
    hide Field.Valid, Pow;
    PowOfProduct(f, a, a, h);
    PowAdd(f, a, h, h);
  }

  // ----- one basis evaluation -----

  /** What the code computes for index e. */
  ghost function ClosedForm<F(!new)>(f: Field<F>, omega: F, n: nat, e: int, x: F): F
    requires n > 0
  {
    var w := PowZ(f, omega, n, e);
    f.mul(f.mul(f.mul(w, f.Sub(Pow(f, x, n), f.One())), f.inv(f.of(n))), f.inv(f.Sub(x, w)))
  }

  lemma ClosedFormIsL<F(!new)>(f: Field<F>, omega: F, n: nat, e: int, x: F)
    requires f.Valid() && HasOrder(f, omega, n) && x != PowZ(f, omega, n, e)
    ensures ClosedForm(f, omega, n, e, x) == L(f, omega, n, e, x)
  {
    hide Field.Valid, HasOrder, Pow, Basis;
    BasisClosedForm(f, omega, n, e % n, x);
  }

  method LagrangeBasisAt<F(!new,==)>(f: Field<F>, i: int, omega: F, x: F, xnMinusOne: F, nInv: F, ghost n: nat)
    returns (r: Result<F, Error>)
    requires f.Valid() && HasOrder(f, omega, n)
    requires xnMinusOne == f.Sub(Pow(f, x, n), f.One()) && nInv == f.inv(f.of(n))
    ensures r == if x == PowZ(f, omega, n, i) then Err(Protocol) else Ok(L(f, omega, n, i, x))
  {
    hide Field.Valid, HasOrder, Pow, PowZ, L;
    var w;
    if i >= 0 {
      w := PowU64(f, omega, i);
      PowZNat(f, omega, n, i);
    } else {
      OmegaNonZero(f, omega, n);
      var omegaInv := FrInverse(f, omega);
      if omegaInv.None? {
        return Err(Protocol);
      }
      w := PowU64(f, omegaInv.value, -i);
      InversePower(f, omega, n, -i);
    }
    SubIsZero(f, x, w);
    var denom := FrInverse(f, f.Sub(x, w));
    if denom.None? {
      return Err(Protocol);
    }
    ClosedFormIsL(f, omega, n, i, x);
    return Ok(f.mul(f.mul(f.mul(w, xnMinusOne), nInv), denom.value));
  }

  // ----- instance columns -----

  /** `sum_{j < m} values[j] * L_j(z)`. */
  ghost function WeightedSum<F(!new)>(f: Field<F>, omega: F, n: nat, values: seq<F>, m: nat, z: F): F
    requires n > 0 && m <= |values|
  {
    if m == 0 then f.Zero()
    else f.add(WeightedSum(f, omega, n, values, m - 1, z), f.mul(values[m - 1], L(f, omega, n, m - 1, z)))
  }

  lemma {:induction false} PartialIsWeightedSum<F(!new)>(f: Field<F>, omega: F, n: nat, values: seq<F>, m: nat, z: F)
    requires f.Valid() && n > 0 && m <= |values| == n
    ensures Eval(f, Partial(f, Points(f, omega, n), values, m), z) == WeightedSum(f, omega, n, values, m, z)
  {
    hide Field.Valid, Eval, Numerator, Others, AddScaled, Pow, Partial;
    var d := Points(f, omega, n);
    if m == 0 {
      PartialZero(f, d, values, z);
    } else {
      PartialIsWeightedSum(f, omega, n, values, m - 1, z);
      PartialGrows(f, omega, n, values, m - 1, z);
    }
  }

  lemma PartialGrows<F(!new)>(f: Field<F>, omega: F, n: nat, values: seq<F>, j: nat, z: F)
    requires f.Valid() && j < |values| == n
    ensures var d := Points(f, omega, n);
            Eval(f, Partial(f, d, values, j + 1), z) == f.add(Eval(f, Partial(f, d, values, j), z), f.mul(values[j], L(f, omega, n, j, z)))
  {
    hide Field.Valid, Eval, Numerator, Others, AddScaled, Pow, Partial;
    var d := Points(f, omega, n);
    var own := Others(f, d, j, n, d[j]);
    PartialStep(f, d, values, j);
    EvalAddScaled(f, Partial(f, d, values, j), Numerator(f, d, j, n), f.mul(values[j], f.inv(own)), z);
    EvalNumerator(f, d, j, n, z);
    assert j % n == j;
    Weigh(f, Others(f, d, j, n, z), values[j], f.inv(own));
  }

  lemma PartialZero<F(!new)>(f: Field<F>, points: seq<F>, values: seq<F>, z: F)
    requires f.Valid() && |points| == |values|
    ensures Eval(f, Partial(f, points, values, 0), z) == f.Zero()
  {
    EvalZeros(f, Zeros(f, |points|), z);
  }

  lemma Weigh<F(!new)>(f: Field<F>, o: F, v: F, i: F)
    requires f.Valid()
    ensures f.mul(o, f.mul(v, i)) == f.mul(v, f.mul(o, i))
  {
    var a, b, c := f.rep(o), f.rep(v), f.rep(i);
    assert a * (b * c) == b * (a * c);
  }

  lemma {:induction false} PaddingIsFree<F(!new)>(f: Field<F>, omega: F, n: nat, values: seq<F>, m: nat, z: F)
    requires f.Valid() && n > 0 && |values| <= n && m <= n
    ensures WeightedSum(f, omega, n, Padded(f, values, n), m, z) ==
            WeightedSum(f, omega, n, values, if m < |values| then m else |values|, z)
  {
    hide Field.Valid, L;
    if m > 0 {
      PaddingIsFree(f, omega, n, values, m - 1, z);
      if m > |values| {
        MulZero(f, L(f, omega, n, m - 1, z));
        AddZero(f, WeightedSum(f, omega, n, values, |values|, z));
      }
    }
  }

  /** The weighted sum of a column of at most n values is the value at z of the polynomial of
      degree below n that takes these values on the domain, and zero on the remaining rows. */
  lemma WeightedSumInterpolates<F(!new)>(f: Field<F>, omega: F, n: nat, values: seq<F>, c: seq<F>, z: F)
    requires f.Valid() && HasOrder(f, omega, n) && |values| <= n == |c|
    requires forall j :: 0 <= j < n ==> Eval(f, c, Pow(f, omega, j)) == if j < |values| then values[j] else f.Zero()
    ensures WeightedSum(f, omega, n, values, |values|, z) == Eval(f, c, z)
  {
    hide Field.Valid, HasOrder, Eval, Pow, Partial, L;
    var p, d := Padded(f, values, n), Points(f, omega, n);
    PointsDistinct(f, omega, n);
    assert forall j :: 0 <= j < n ==> p[j] == Eval(f, c, d[j]);
    InterpolantExact(f, d, c, p);
    PartialIsWeightedSum(f, omega, n, p, n, z);
    PaddingIsFree(f, omega, n, values, n, z);
  }

  /** The point a rotation moves the challenge to. */
  ghost function Rotated<F(!new)>(f: Field<F>, omega: F, n: nat, x: F, rotation: int): F
    requires n > 0
  {
    f.mul(x, PowZ(f, omega, n, rotation))
  }

  /** Querying row j - r at x is querying row j at the rotated point. */
  lemma RotatedBasis<F(!new)>(f: Field<F>, omega: F, n: nat, j: nat, r: int, x: F)
    requires f.Valid() && HasOrder(f, omega, n) && x != PowZ(f, omega, n, j - r)
    ensures L(f, omega, n, j - r, x) == L(f, omega, n, j, Rotated(f, omega, n, x, r))
  {
    hide Field.Valid, HasOrder, Pow, PowZ, L, Field.Sub;
    var w, s, z := PowZ(f, omega, n, r), PowZ(f, omega, n, j - r), Rotated(f, omega, n, x, r);
    PowZAdd(f, omega, n, r, j - r);
    PowZNeg(f, omega, n, r);
    PowZOrder(f, omega, n, r, 0);
    PowOfProduct(f, x, w, n);
    MulOne(f, Pow(f, x, n));
    FactorOut(f, x, w, s);
    SubIsZero(f, x, s);
    NoZeroDivisors(f, w, f.Sub(x, s));
    SubIsZero(f, z, f.mul(w, s));
    ClosedFormIsL(f, omega, n, j - r, x);
    ClosedFormIsL(f, omega, n, j, z);
    InverseOfProduct(f, w, f.Sub(x, s));
    CancelRotation(f, w, s, f.Sub(Pow(f, x, n), f.One()), f.inv(f.of(n)), f.inv(f.Sub(x, s)));
  }

  lemma FactorOut<F(!new)>(f: Field<F>, x: F, w: F, s: F)
    requires f.Valid()
    ensures f.Sub(f.mul(x, w), f.mul(w, s)) == f.mul(w, f.Sub(x, s))
  {
    var i, j, k := f.rep(x), f.rep(w), f.rep(s);
    assert i * j - j * k == j * (i - k);
  }

  lemma CancelRotation<F(!new)>(f: Field<F>, w: F, s: F, z: F, m: F, d: F)
    requires f.Valid() && w != f.Zero()
    ensures f.mul(f.mul(f.mul(f.mul(w, s), z), m), f.mul(f.inv(w), d)) == f.mul(f.mul(f.mul(s, z), m), d)
  {
    hide Field.Valid;
    MulAssoc(f, w, s, z);
    MulAssoc(f, w, f.mul(s, z), m);
    SwapMiddle(f, w, f.mul(f.mul(s, z), m), f.inv(w), d);
    MulInverseLeft(f, w, f.One());
    MulComm(f, w, f.inv(w));
    MulOne(f, f.mul(f.mul(f.mul(s, z), m), d));
  }

  /** The instance polynomial is undefined at x for this query. */
  ghost predicate HitsDomain<F(!new)>(f: Field<F>, omega: F, n: nat, x: F, rotation: int, rows: nat)
    requires n > 0
  {
    exists e :: -rotation <= e < rows - rotation && x == PowZ(f, omega, n, e)
  }

  method InstanceEval<F(!new,==)>(f: Field<F>, omega: F, x: F, rotation: int, values: seq<F>, xnMinusOne: F, nInv: F, ghost n: nat)
    returns (r: Result<F, Error>)
    requires f.Valid() && HasOrder(f, omega, n)
    requires xnMinusOne == f.Sub(Pow(f, x, n), f.One()) && nInv == f.inv(f.of(n))
    ensures r == if HitsDomain(f, omega, n, x, rotation, |values|) then Err(Protocol)
                 else Ok(WeightedSum(f, omega, n, values, |values|, Rotated(f, omega, n, x, rotation)))
  {
    hide Field.Valid, HasOrder, Pow, PowZ, L, Rotated;
    var acc := f.Zero();
    for j := 0 to |values|
      invariant acc == WeightedSum(f, omega, n, values, j, Rotated(f, omega, n, x, rotation))
      invariant forall e :: -rotation <= e < j - rotation ==> x != PowZ(f, omega, n, e)
    {
      var basis := LagrangeBasisAt(f, j - rotation, omega, x, xnMinusOne, nInv, n);
      if basis.Err? {
        return Err(basis.error);
      }
      RotatedBasis(f, omega, n, j, rotation, x);
      acc := f.add(acc, f.mul(values[j], basis.value));
    }
    return Ok(acc);
  }

  ghost predicate BadQuery<F(!new)>(f: Field<F>, omega: F, n: nat, x: F, query: (nat, int), publicInputs: seq<seq<F>>)
    requires n > 0
  {
    query.0 >= |publicInputs| || HitsDomain(f, omega, n, x, query.1, |publicInputs[query.0]|)
  }

  /** The evaluation of one query: the column's weighted sum at the rotated point. */
  ghost predicate IsEvaluation<F(!new)>(f: Field<F>, omega: F, n: nat, x: F, query: (nat, int), publicInputs: seq<seq<F>>, value: F)
    requires n > 0
  {
    && query.0 < |publicInputs|
    && value == WeightedSum(f, omega, n, publicInputs[query.0], |publicInputs[query.0]|, Rotated(f, omega, n, x, query.1))
  }

  /**
   Each output is the weighted sum of the column's values at the rotated point; by
   `WeightedSumInterpolates` that is the column's interpolant evaluated there.
   */
  method ReconstructInstanceEvals<F(!new,==)>(f: Field<F>, k: nat, omega: F, x: F, queries: seq<(nat, int)>, publicInputs: seq<seq<F>>)
    returns (r: Result<seq<F>, Error>)
    requires f.Valid() && HasOrder(f, omega, Pow2(k)) && k < 64
    ensures r.Err? <==> exists q :: q in queries && BadQuery(f, omega, Pow2(k), x, q, publicInputs)
    ensures r.Ok? ==> |r.value| == |queries|
    ensures r.Ok? ==> forall i :: 0 <= i < |queries| ==>
              IsEvaluation(f, omega, Pow2(k), x, queries[i], publicInputs, r.value[i])
  {
    hide Field.Valid, HasOrder, Pow, PowZ, L, Rotated, WeightedSum, HitsDomain;
    if queries == [] {
      return Ok([]);
    }
    var n := Pow2(k);
    DenominatorValue(f, omega, n, 0);
    var nInv := FrInverse(f, f.of(n));
    if nInv.None? {
      return Err(Protocol);
    }
    var xn := PowU64(f, x, n);
    var xnMinusOne := f.Sub(xn, f.One());
    var out: seq<F> := [];
    for i := 0 to |queries|
      invariant |out| == i
      invariant forall l :: 0 <= l < i ==> !BadQuery(f, omega, n, x, queries[l], publicInputs)
      invariant forall l :: 0 <= l < i ==> IsEvaluation(f, omega, n, x, queries[l], publicInputs, out[l])
    {
      var (col, rotation) := queries[i];
      assert queries[i] in queries;
      if col >= |publicInputs| {
        return Err(Protocol);
      }
      var acc := InstanceEval(f, omega, x, rotation, publicInputs[col], xnMinusOne, nInv.value, n);
      if acc.Err? {
        return Err(acc.error);
      }
      out := out + [acc.value];
    }
    return Ok(out);
  }

  /** The evaluation of a query on a column of at most n values is the value, at the rotated point,
      of the polynomial of degree below n that the zero-padded column defines. */
  lemma EvaluationIsPolynomialValue<F(!new)>(f: Field<F>, omega: F, n: nat, x: F, query: (nat, int),
                                             publicInputs: seq<seq<F>>, value: F, c: seq<F>)
    requires f.Valid() && HasOrder(f, omega, n)
    requires IsEvaluation(f, omega, n, x, query, publicInputs, value) && |publicInputs[query.0]| <= n == |c|
    requires forall j :: 0 <= j < n ==>
               Eval(f, c, Pow(f, omega, j)) == if j < |publicInputs[query.0]| then publicInputs[query.0][j] else f.Zero()
    ensures value == Eval(f, c, f.mul(x, PowZ(f, omega, n, query.1)))
  {
    hide Field.Valid, HasOrder, Pow, PowZ, Eval, WeightedSum;
    WeightedSumInterpolates(f, omega, n, publicInputs[query.0], c, Rotated(f, omega, n, x, query.1));
  }

  // ----- the three evaluations the identity check needs -----

  datatype LagrangeEvaluations<F> = LagrangeEvaluations(l0: F, lLast: F, lBlind: F, xn: F)

  /** `sum_{i=1..b} L_{-i}(x)`. */
  ghost function BlindSum<F(!new)>(f: Field<F>, omega: F, n: nat, b: nat, x: F): F
    requires n > 0
  {
    if b == 0 then f.Zero() else f.add(BlindSum(f, omega, n, b - 1, x), L(f, omega, n, -(b as int), x))
  }

  lemma InverseWalk<F(!new)>(f: Field<F>, omega: F, n: nat, i: nat)
    requires f.Valid() && HasOrder(f, omega, n)
    ensures PowZ(f, omega, n, 0) == f.One()
    ensures f.mul(PowZ(f, omega, n, -(i as int)), f.inv(omega)) == PowZ(f, omega, n, -(i as int) - 1)
  {
    hide Field.Valid, HasOrder, Pow, PowZ;
    PowZNat(f, omega, n, 0);
    PowOne(f, omega);
    InversePower(f, omega, n, 1);
    PowOne(f, f.inv(omega));
    PowZAdd(f, omega, n, -(i as int), -1);
  }

  lemma FactorForm<F(!new)>(f: Field<F>, w: F, z: F, m: F, d: F)
    requires f.Valid()
    ensures f.mul(f.mul(w, f.mul(z, m)), d) == f.mul(f.mul(f.mul(w, z), m), d)
  {
    MulAssoc(f, w, z, m);
  }

  method AccumulateBlindedLagrange<F(!new,==)>(f: Field<F>, omegaInv: F, x: F, factor: F, blindingFactors: nat, ghost omega: F, ghost n: nat)
    returns (r: Result<(F, F), Error>)
    requires f.Valid() && HasOrder(f, omega, n) && omegaInv == f.inv(omega)
    requires factor == f.mul(f.Sub(Pow(f, x, n), f.One()), f.inv(f.of(n)))
    ensures r.Err? <==> exists e :: -(blindingFactors as int) <= e <= -1 && x == PowZ(f, omega, n, e)
    ensures r.Ok? ==> r.value == (BlindSum(f, omega, n, blindingFactors, x), PowZ(f, omega, n, -(blindingFactors as int)))
  {
    hide Field.Valid, HasOrder, Pow, PowZ, L;
    var w := f.One();
    var lBlind := f.Zero();
    InverseWalk(f, omega, n, 0);
    for i := 0 to blindingFactors
      invariant w == PowZ(f, omega, n, -(i as int))
      invariant lBlind == BlindSum(f, omega, n, i, x)
      invariant forall e :: -(i as int) <= e <= -1 ==> x != PowZ(f, omega, n, e)
    {
      InverseWalk(f, omega, n, i);
      w := f.mul(w, omegaInv);
      SubIsZero(f, x, w);
      var denom := FrInverse(f, f.Sub(x, w));
      if denom.None? {
        assert x == PowZ(f, omega, n, -(i as int) - 1);
        return Err(Protocol);
      }
      ClosedFormIsL(f, omega, n, -(i as int) - 1, x);
      FactorForm(f, w, f.Sub(Pow(f, x, n), f.One()), f.inv(f.of(n)), denom.value);
      lBlind := f.add(lBlind, f.mul(f.mul(w, factor), denom.value));
    }
    return Ok((lBlind, w));
  }

  /** `l_0`, `l_last` and `l_blind` are the basis polynomials of row 0, of the last unblinded row,
      and of the blinded rows together; the challenge is refused exactly on those rows. */
  method EvaluateLagrange<F(!new,==)>(f: Field<F>, k: nat, omega: F, x: F, blindingFactors: nat)
    returns (r: Result<LagrangeEvaluations<F>, Error>)
    requires f.Valid() && HasOrder(f, omega, Pow2(k)) && k < 64
    ensures r.Err? <==> exists e :: -(blindingFactors as int) - 1 <= e <= 0 && x == PowZ(f, omega, Pow2(k), e)
    ensures r.Ok? ==> r.value == LagrangeEvaluations(
              L(f, omega, Pow2(k), 0, x), L(f, omega, Pow2(k), -(blindingFactors as int) - 1, x),
              BlindSum(f, omega, Pow2(k), blindingFactors, x), Pow(f, x, Pow2(k)))
  {
    hide Field.Valid, HasOrder, Pow, PowZ, L;
    var n := Pow2(k);
    DenominatorValue(f, omega, n, 0);
    var nInv := FrInverse(f, f.of(n));
    if nInv.None? {
      return Err(Protocol);
    }
    var xn := PowU64(f, x, n);
    var xnMinusOne := f.Sub(xn, f.One());
    var factor := f.mul(xnMinusOne, nInv.value);

    InverseWalk(f, omega, n, blindingFactors);
    SubIsZero(f, x, f.One());
    var denom0 := FrInverse(f, f.Sub(x, f.One()));
    if denom0.None? {
      assert x == PowZ(f, omega, n, 0);
      return Err(Protocol);
    }
    ClosedFormIsL(f, omega, n, 0, x);
    MulOne(f, xnMinusOne);
    var l0 := f.mul(factor, denom0.value);

    OmegaNonZero(f, omega, n);
    var omegaInv := FrInverse(f, omega);
    if omegaInv.None? {
      return Err(Protocol);
    }
    var blind := AccumulateBlindedLagrange(f, omegaInv.value, x, factor, blindingFactors, omega, n);
    if blind.Err? {
      return Err(blind.error);
    }
    var wLast := f.mul(blind.value.1, omegaInv.value);
    SubIsZero(f, x, wLast);
    var denomLast := FrInverse(f, f.Sub(x, wLast));
    if denomLast.None? {
      assert x == PowZ(f, omega, n, -(blindingFactors as int) - 1);
      return Err(Protocol);
    }
    ClosedFormIsL(f, omega, n, -(blindingFactors as int) - 1, x);
    FactorForm(f, wLast, xnMinusOne, nInv.value, denomLast.value);
    var lLast := f.mul(f.mul(wLast, factor), denomLast.value);
    return Ok(LagrangeEvaluations(l0, lLast, blind.value.0, xn));
  }

  // ----- consequences -----

  ghost function Ones<F(!new)>(f: Field<F>, n: nat): (o: seq<F>)
    ensures |o| == n
  {
    seq(n, _ => f.One())
  }

  /** The basis polynomials of all rows sum to one, everywhere. */
  lemma BasisSumsToOne<F(!new)>(f: Field<F>, omega: F, n: nat, x: F)
    requires f.Valid() && HasOrder(f, omega, n)
    ensures WeightedSum(f, omega, n, Ones(f, n), n, x) == f.One()
  {
    hide Field.Valid, HasOrder, Pow, L, Eval;
    var c := [f.One()] + Zeros(f, n - 1);
    forall z: F ensures Eval(f, c, z) == f.One() { EvalOne(f, n, z); }
    WeightedSumInterpolates(f, omega, n, Ones(f, n), c, x);
  }

  lemma EvalOne<F(!new)>(f: Field<F>, n: nat, z: F)
    requires f.Valid() && n > 0
    ensures Eval(f, [f.One()] + Zeros(f, n - 1), z) == f.One()
  {
    var c := [f.One()] + Zeros(f, n - 1);
    assert c[1..] == Zeros(f, n - 1);
    EvalZeros(f, Zeros(f, n - 1), z);
    MulZero(f, z);
    AddZero(f, f.One());
  }

  /** On the domain a basis polynomial is the indicator of its row. */
  lemma BasisIsIndicator<F(!new)>(f: Field<F>, omega: F, n: nat, j: nat, i: nat)
    requires f.Valid() && HasOrder(f, omega, n) && j < n && i < n
    ensures Basis(f, omega, n, j, Pow(f, omega, i)) == if i == j then f.One() else f.Zero()
  {
    hide Field.Valid, HasOrder, Pow, Others;
    var d := Points(f, omega, n);
    DenominatorValue(f, omega, n, j);
    PointsDistinct(f, omega, n);
    var own := Others(f, d, j, n, d[j]);
    if i == j {
      MulInverseLeft(f, own, f.One());
      MulComm(f, own, f.inv(own));
    } else {
      OthersZero(f, d, j, n, d[i]);
      MulZero(f, f.inv(own));
    }
  }
}
