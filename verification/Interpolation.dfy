/**
 Lagrange interpolation in coefficient form, one polynomial at a time or through a basis whose
 denominators are inverted together, and Montgomery's batch inversion.
 */
module Interpolation {
  import opened Wrappers
  import opened Fields
  import opened Polynomials

  // ----- what the loops compute -----

  /** The coefficients of `carry + (X - r) * c`. */
  ghost function TimesLinear<F(!new)>(f: Field<F>, c: seq<F>, r: F, carry: F): (d: seq<F>)
    ensures |d| == |c| + 1
  {
    if c == [] then [carry] else [f.Sub(carry, f.mul(c[0], r))] + TimesLinear(f, c[1..], r, c[0])
  }

  lemma {:induction false} TimesLinearAt<F(!new)>(f: Field<F>, c: seq<F>, r: F, carry: F, k: nat)
    requires k <= |c|
    ensures TimesLinear(f, c, r, carry)[k] ==
            var low := if k == 0 then carry else c[k - 1];
            if k < |c| then f.Sub(low, f.mul(c[k], r)) else low
  {
    if c != [] && k > 0 {
      TimesLinearAt(f, c[1..], r, c[0], k - 1);
    }
  }

  lemma {:induction false} EvalTimesLinear<F(!new)>(f: Field<F>, c: seq<F>, r: F, carry: F, x: F)
    requires f.Valid()
    ensures Eval(f, TimesLinear(f, c, r, carry), x) == f.add(carry, f.mul(Eval(f, c, x), f.Sub(x, r)))
  {
    if c == [] {
      assert [carry][1..] == [];
      MulZero(f, x);
      MulZero(f, f.Sub(x, r));
    } else {
      EvalTimesLinear(f, c[1..], r, c[0], x);
      assert TimesLinear(f, c, r, carry)[1..] == TimesLinear(f, c[1..], r, c[0]);
      LinearStep(f, carry, c[0], r, x, Eval(f, c[1..], x));
    }
  }

  lemma LinearStep<F(!new)>(f: Field<F>, carry: F, c0: F, r: F, x: F, e: F)
    requires f.Valid()
    ensures f.add(f.Sub(carry, f.mul(c0, r)), f.mul(x, f.add(c0, f.mul(e, f.Sub(x, r)))))
         == f.add(carry, f.mul(f.add(c0, f.mul(x, e)), f.Sub(x, r)))
  {
    hide *;
    LinearLeft(f, carry, c0, r, x, e);
    LinearRight(f, carry, c0, r, x, e);
    LinearIntegers(f.rep(carry), f.rep(c0), f.rep(r), f.rep(x), f.rep(e));
  }

  lemma LinearIntegers(i: int, j: int, k: int, l: int, m: int)
    ensures (i - j * k) + l * (j + m * (l - k)) == i + (j + l * m) * (l - k)
  {
  }

  lemma LinearLeft<F(!new)>(f: Field<F>, carry: F, c0: F, r: F, x: F, e: F)
    requires f.Valid()
    ensures f.add(f.Sub(carry, f.mul(c0, r)), f.mul(x, f.add(c0, f.mul(e, f.Sub(x, r)))))
         == f.of((f.rep(carry) - f.rep(c0) * f.rep(r)) + f.rep(x) * (f.rep(c0) + f.rep(e) * (f.rep(x) - f.rep(r))))
  {
  }

  lemma LinearRight<F(!new)>(f: Field<F>, carry: F, c0: F, r: F, x: F, e: F)
    requires f.Valid()
    ensures f.add(carry, f.mul(f.add(c0, f.mul(x, e)), f.Sub(x, r)))
         == f.of(f.rep(carry) + (f.rep(c0) + f.rep(x) * f.rep(e)) * (f.rep(x) - f.rep(r)))
  {
  }

  /** Numerator of the `j`-th basis polynomial over the first `n` points: the product of
      `X - points[i]` for `i != j`. */
  ghost function Numerator<F(!new)>(f: Field<F>, points: seq<F>, j: nat, n: nat): (c: seq<F>)
    requires n <= |points|
    ensures |c| == if j < n then n else n + 1
  {
    if n == 0 then [f.One()]
    else if n - 1 == j then Numerator(f, points, j, n - 1)
    else TimesLinear(f, Numerator(f, points, j, n - 1), points[n - 1], f.Zero())
  }

  /** The product of `x - points[i]` for `i != j`, over the first `n` points. */
  ghost function Others<F(!new)>(f: Field<F>, points: seq<F>, j: nat, n: nat, x: F): F
    requires n <= |points|
  {
    if n == 0 then f.One()
    else if n - 1 == j then Others(f, points, j, n - 1, x)
    else f.mul(Others(f, points, j, n - 1, x), f.Sub(x, points[n - 1]))
  }

  lemma {:induction false} EvalNumerator<F(!new)>(f: Field<F>, points: seq<F>, j: nat, n: nat, x: F)
    requires f.Valid() && n <= |points|
    ensures Eval(f, Numerator(f, points, j, n), x) == Others(f, points, j, n, x)
  {
    if n == 0 {
      assert [f.One()][1..] == [];
      MulZero(f, x);
      AddZero(f, f.One());
    } else {
      EvalNumerator(f, points, j, n - 1, x);
      if n - 1 != j {
        EvalTimesLinear(f, Numerator(f, points, j, n - 1), points[n - 1], f.Zero(), x);
        AddZero(f, Others(f, points, j, n, x));
      }
    }
  }

  lemma {:induction false} OthersZero<F(!new)>(f: Field<F>, points: seq<F>, j: nat, n: nat, x: F)
    requires f.Valid() && n <= |points|
    ensures Others(f, points, j, n, x) == f.Zero() <==> exists i :: 0 <= i < n && i != j && points[i] == x
  {
    if n == 0 {
    } else {
      OthersZero(f, points, j, n - 1, x);
      if n - 1 != j {
        NoZeroDivisors(f, Others(f, points, j, n - 1, x), f.Sub(x, points[n - 1]));
        SubIsZero(f, x, points[n - 1]);
      }
    }
  }

  /** The interpolant assembled from the first `j` basis polynomials. */
  ghost function Partial<F(!new)>(f: Field<F>, points: seq<F>, values: seq<F>, j: nat): (c: seq<F>)
    requires |points| == |values| && j <= |points|
    ensures |c| == |points|
  {
    var n := |points|;
    if j == 0 then Zeros(f, n)
    else AddScaled(f, Partial(f, points, values, j - 1), Numerator(f, points, j - 1, n),
                   f.mul(values[j - 1], f.inv(Others(f, points, j - 1, n, points[j - 1]))))
  }

  lemma PartialStep<F(!new)>(f: Field<F>, points: seq<F>, values: seq<F>, j: nat)
    requires |points| == |values| && j < |points|
    ensures Partial(f, points, values, j + 1) ==
            AddScaled(f, Partial(f, points, values, j), Numerator(f, points, j, |points|),
                      f.mul(values[j], f.inv(Others(f, points, j, |points|, points[j]))))
  {
  }

  ghost function Interpolant<F(!new)>(f: Field<F>, points: seq<F>, values: seq<F>): (c: seq<F>)
    requires |points| == |values|
    ensures |c| == |points|
  {
    Partial(f, points, values, |points|)
  }

  lemma DivideBack<F(!new)>(f: Field<F>, d: F, v: F)
    requires f.Valid() && d != f.Zero()
    ensures f.mul(d, f.mul(v, f.inv(d))) == v
  {
    hide Field.Valid;
    MulComm(f, d, f.mul(v, f.inv(d)));
    MulAssoc(f, v, f.inv(d), d);
    MulInverseLeft(f, d, v);
    MulOne(f, v);
  }

  lemma {:induction false} EvalPartial<F(!new)>(f: Field<F>, points: seq<F>, values: seq<F>, j: nat, i: nat)
    requires f.Valid() && |points| == |values| && Distinct(points)
    requires j <= |points| && i < |points|
    ensures Eval(f, Partial(f, points, values, j), points[i]) == if i < j then values[i] else f.Zero()
  {
    hide Field.Valid, AddScaled, Numerator, Others, Eval;
    var n, x := |points|, points[i];
    if j == 0 {
      EvalZeros(f, Zeros(f, n), x);
    } else {
      EvalPartial(f, points, values, j - 1, i);
      var d := Others(f, points, j - 1, n, points[j - 1]);
      var scale := f.mul(values[j - 1], f.inv(d));
      PartialStep(f, points, values, j - 1);
      EvalAddScaled(f, Partial(f, points, values, j - 1), Numerator(f, points, j - 1, n), scale, x);
      EvalNumerator(f, points, j - 1, n, x);
      OthersZero(f, points, j - 1, n, x);
      if i == j - 1 {
        DivideBack(f, d, values[i]);
        AddZero(f, values[i]);
      } else {
        MulZero(f, scale);
        AddZero(f, Eval(f, Partial(f, points, values, j - 1), x));
      }
    }
  }

  /** The interpolant of the values of a polynomial of degree below n is that polynomial. */
  lemma InterpolantExact<F(!new)>(f: Field<F>, points: seq<F>, c: seq<F>, values: seq<F>)
    requires f.Valid() && Distinct(points) && |c| == |points| == |values|
    requires forall i :: 0 <= i < |points| ==> values[i] == Eval(f, c, points[i])
    ensures Interpolant(f, points, values) == c
  {
    forall i | 0 <= i < |points| ensures Eval(f, Interpolant(f, points, values), points[i]) == Eval(f, c, points[i]) {
      EvalPartial(f, points, values, |points|, i);
    }
    InterpolationUnique(f, Interpolant(f, points, values), c, points);
  }

  // ----- the loops -----

  /** Multiply `num[..deg]` by `X - xi` in place. */
  method MultiplyByLinear<F(!new)>(f: Field<F>, num: array<F>, deg: nat, xi: F)
    requires f.Valid() && 1 <= deg < num.Length
    modifies num
    ensures num[..deg + 1] == TimesLinear(f, old(num[..deg]), xi, f.Zero())
  {
    hide Field.Valid, TimesLinear;
    ghost var c := num[..deg];
    ghost var want := TimesLinear(f, c, xi, f.Zero());
    var newNum := new F[deg + 1](_ => f.Zero());
    for k := 0 to deg
      modifies newNum
      invariant newNum[..k] == want[..k]
      invariant newNum[k] == if k == 0 then f.Zero() else c[k - 1]
      invariant forall i :: k < i <= deg ==> newNum[i] == f.Zero()
    {
      TimesLinearAt(f, c, xi, f.Zero(), k);
      AddZero(f, num[k]);
      assert num[k] == c[k];
      newNum[k] := f.Sub(newNum[k], f.mul(num[k], xi));
      newNum[k + 1] := f.add(newNum[k + 1], num[k]);
      assert want[..k + 1] == want[..k] + [want[k]];
      assert newNum[..k + 1] == newNum[..k] + [newNum[k]];
    }
    TimesLinearAt(f, c, xi, f.Zero(), deg);
    assert want == want[..deg] + [want[deg]];
    assert newNum[..] == newNum[..deg] + [newNum[deg]];
    for k := 0 to deg + 1
      modifies num
      invariant num[..k] == newNum[..k]
    {
      num[k] := newNum[k];
      assert num[..k + 1] == num[..k] + [num[k]];
      assert newNum[..k + 1] == newNum[..k] + [newNum[k]];
    }
    assert newNum[..deg + 1] == newNum[..];
  }

  method BuildNumerator<F(!new)>(f: Field<F>, points: seq<F>, j: nat) returns (num: array<F>)
    requires f.Valid() && j < |points|
    ensures fresh(num) && num[..] == Numerator(f, points, j, |points|)
  {
    hide Field.Valid, TimesLinear;
    var n := |points|;
    num := new F[n](_ => f.Zero());
    num[0] := f.One();
    var deg := 1;
    assert num[..1] == [f.One()];
    for i := 0 to n
      invariant deg == (if j < i then i else i + 1) && deg <= n
      invariant num[..deg] == Numerator(f, points, j, i)
    {
      if i == j {
        continue;
      }
      MultiplyByLinear(f, num, deg, points[i]);
      deg := deg + 1;
    }
    assert num[..n] == num[..];
  }

  /** Some other point equals `points[j]`. */
  ghost predicate Repeated<F>(points: seq<F>, j: nat)
    requires j < |points|
  {
    exists i :: 0 <= i < |points| && i != j && points[i] == points[j]
  }

  lemma DistinctIffNotRepeated<F>(points: seq<F>)
    ensures Distinct(points) <==> forall j :: 0 <= j < |points| ==> !Repeated(points, j)
  {
    if !Distinct(points) {
      var i, j :| 0 <= i < j < |points| && points[i] == points[j];
      assert Repeated(points, j);
    }
    forall j | 0 <= j < |points| && Repeated(points, j) ensures !Distinct(points) {
      var i :| 0 <= i < |points| && i != j && points[i] == points[j];
      assert points[if i < j then i else j] == points[if i < j then j else i];
    }
  }

  /** The denominator, or `None` as soon as another point equals `points[j]`. */
  method BuildDenominator<F(!new,==)>(f: Field<F>, points: seq<F>, j: nat) returns (r: Option<F>)
    requires f.Valid() && j < |points|
    ensures r == (if Repeated(points, j) then None
                  else Some(Others(f, points, j, |points|, points[j])))
  {
    var denom := f.One();
    for i := 0 to |points|
      invariant denom == Others(f, points, j, i, points[j])
      invariant forall k :: 0 <= k < i && k != j ==> points[k] != points[j]
    {
      if i == j {
        continue;
      }
      var d := f.Sub(points[j], points[i]);
      SubIsZero(f, points[j], points[i]);
      if d == f.Zero() {
        return None;
      }
      denom := f.mul(denom, d);
    }
    return Some(denom);
  }

  /** One round of the interpolation: add the `j`-th basis polynomial, scaled to `values[j]`. */
  method AddBasisPolynomial<F(!new,==)>(f: Field<F>, points: seq<F>, values: seq<F>, j: nat, result: array<F>)
    returns (ok: bool)
    requires f.Valid() && |points| == |values| == result.Length && j < |points|
    requires result[..] == Partial(f, points, values, j)
    modifies result
    ensures ok == !Repeated(points, j)
    ensures ok ==> result[..] == Partial(f, points, values, j + 1)
  {
    hide AddScaled, Numerator, Partial, Field.Valid;
    var num := BuildNumerator(f, points, j);
    var denom := BuildDenominator(f, points, j);
    if denom.None? {
      return false;
    }
    OthersZero(f, points, j, |points|, points[j]);
    if denom.value == f.Zero() {
      return false;
    }
    var scale := f.mul(values[j], f.inv(denom.value));
    PartialStep(f, points, values, j);
    AccumulateScaled(f, result, num[..], scale);
    return true;
  }

  method LagrangeInterpolate<F(!new,==)>(f: Field<F>, points: seq<F>, values: seq<F>) returns (r: Result<seq<F>, Error>)
    requires f.Valid()
    ensures r == if |points| != |values| || !Distinct(points) then Err(Protocol) else Ok(Interpolant(f, points, values))
  {
    hide Field.Valid, Numerator, Others, Repeated, Distinct, AddScaled;
    if |points| != |values| {
      return Err(Protocol);
    }
    var n := |points|;
    if n == 0 {
      DistinctIffNotRepeated(points);
      assert Interpolant(f, points, values) == [];
      return Ok([]);
    }
    var result := new F[n](_ => f.Zero());
    assert result[..] == Partial(f, points, values, 0);
    for j := 0 to n
      invariant result[..] == Partial(f, points, values, j)
      invariant forall i :: 0 <= i < j ==> !Repeated(points, i)
    {
      var ok := AddBasisPolynomial(f, points, values, j, result);
      if !ok {
        DistinctIffNotRepeated(points);
        return Err(Protocol);
      }
    }
    DistinctIffNotRepeated(points);
    return Ok(result[..]);
  }

  /** `result[k] += num[k] * scale` for every k. */
  method AccumulateScaled<F(!new)>(f: Field<F>, result: array<F>, num: seq<F>, scale: F)
    requires |num| == result.Length
    modifies result
    ensures result[..] == AddScaled(f, old(result[..]), num, scale)
  {
    for k := 0 to result.Length
      invariant forall i :: 0 <= i < k ==> result[i] == f.add(old(result[i]), f.mul(num[i], scale))
      invariant forall i :: k <= i < result.Length ==> result[i] == old(result[i])
    {
      result[k] := f.add(result[k], f.mul(num[k], scale));
    }
  }

  // ----- the basis, computed once per point list -----

  ghost predicate IsBasis<F(!new)>(f: Field<F>, points: seq<F>, nums: seq<seq<F>>, denoms: seq<F>) {
    && |nums| == |denoms| == |points|
    && forall j :: 0 <= j < |points| ==>
         nums[j] == Numerator(f, points, j, |points|) && denoms[j] == Others(f, points, j, |points|, points[j])
  }

  method LagrangeBasisCompute<F(!new,==)>(f: Field<F>, points: seq<F>) returns (r: Result<(seq<seq<F>>, seq<F>), Error>)
    requires f.Valid()
    ensures r.Ok? <==> Distinct(points)
    ensures r.Ok? ==> IsBasis(f, points, r.value.0, r.value.1) && f.Zero() !in r.value.1
    ensures r.Err? ==> r.error == Protocol
  {
    hide Field.Valid, Numerator, Distinct;
    var nums: seq<seq<F>> := [];
    var denoms: seq<F> := [];
    for j := 0 to |points|
      invariant |nums| == |denoms| == j
      invariant forall i :: 0 <= i < j ==> nums[i] == Numerator(f, points, i, |points|)
      invariant forall i :: 0 <= i < j ==> denoms[i] == Others(f, points, i, |points|, points[i]) != f.Zero()
      invariant forall i :: 0 <= i < j ==> !Repeated(points, i)
    {
      var num := BuildNumerator(f, points, j);
      var denom := BuildDenominator(f, points, j);
      if denom.None? {
        DistinctIffNotRepeated(points);
        return Err(Protocol);
      }
      OthersZero(f, points, j, |points|, points[j]);
      nums := nums + [num[..]];
      denoms := denoms + [denom.value];
    }
    DistinctIffNotRepeated(points);
    return Ok((nums, denoms));
  }

  lemma PartialStart<F(!new)>(f: Field<F>, points: seq<F>, values: seq<F>, zeros: seq<F>)
    requires |points| == |values| == |zeros| && forall i :: 0 <= i < |zeros| ==> zeros[i] == f.Zero()
    ensures zeros == Partial(f, points, values, 0)
  {
  }

  lemma BasisEntry<F(!new)>(f: Field<F>, points: seq<F>, nums: seq<seq<F>>, denoms: seq<F>, j: nat)
    requires IsBasis(f, points, nums, denoms) && j < |points|
    ensures |nums| == |denoms| == |points|
    ensures nums[j] == Numerator(f, points, j, |points|) && denoms[j] == Others(f, points, j, |points|, points[j])
  {
  }

  method InterpolateWithBasis<F(!new)>(f: Field<F>, nums: seq<seq<F>>, denomInvs: seq<F>, values: seq<F>,
                                       ghost points: seq<F>, ghost denoms: seq<F>) returns (r: seq<F>)
    requires f.Valid() && |points| == |values| == |denomInvs| && IsBasis(f, points, nums, denoms)
    requires forall j :: 0 <= j < |points| ==> denomInvs[j] == f.inv(denoms[j])
    ensures r == Interpolant(f, points, values)
  {
    hide Field.Valid, Numerator, Others, AddScaled, Partial, IsBasis;
    var n := |values|;
    var result := new F[n](_ => f.Zero());
    PartialStart(f, points, values, result[..]);
    for j := 0 to n
      invariant result[..] == Partial(f, points, values, j)
    {
      var scale := f.mul(values[j], denomInvs[j]);
      BasisEntry(f, points, nums, denoms, j);
      AccumulateScaled(f, result, nums[j], scale);
      PartialStep(f, points, values, j);
    }
    r := result[..];
  }

  // ----- Montgomery's batch inversion -----

  /** Replace every element by its inverse, with a single inversion; leave everything alone when
      one of them is zero. */
  method BatchInverse<F(!new,==)>(f: Field<F>, xs: array<F>) returns (r: Result<(), Error>)
    requires f.Valid()
    modifies xs
    ensures r.Ok? <==> f.Zero() !in old(xs[..])
    ensures r.Ok? ==> forall i :: 0 <= i < xs.Length ==> xs[i] == f.inv(old(xs[i]))
    ensures r.Err? ==> xs[..] == old(xs[..])
  {
    hide Field.Valid;
    var n := xs.Length;
    if n == 0 {
      return Ok(());
    }
    if n == 1 {
      if xs[0] == f.Zero() {
        assert xs[..][0] == f.Zero();
        return Err(Protocol);
      }
      assert xs[..] == [xs[0]];
      xs[0] := f.inv(xs[0]);
      return Ok(());
    }
    var originals := xs[..];
    var prefix := [originals[0]];
    assert originals[..1] == [] + [originals[0]];
    ProdSnoc(f, [], originals[0]);
    MulOne(f, originals[0]);
    for i := 1 to n
      invariant xs[..] == originals
      invariant |prefix| == i
      invariant forall k :: 0 <= k < i ==> prefix[k] == Prod(f, originals[..k + 1])
    {
      assert originals[..i + 1] == originals[..i] + [originals[i]];
      ProdSnoc(f, originals[..i], originals[i]);
      prefix := prefix + [f.mul(prefix[i - 1], originals[i])];
    }
    assert originals[..n] == originals;
    ProdZero(f, originals);
    if prefix[n - 1] == f.Zero() {
      return Err(Protocol);
    }
    var acc := f.inv(prefix[n - 1]);
    var i := n - 1;
    while i >= 1
      invariant 0 <= i < n
      invariant acc == f.inv(Prod(f, originals[..i + 1]))
      invariant forall k :: 0 <= k <= i ==> xs[k] == originals[k]
      invariant forall k :: i < k < n ==> xs[k] == f.inv(originals[k])
    {
      BackwardAt(f, originals, i);
      xs[i] := f.mul(prefix[i - 1], acc);
      acc := f.mul(acc, originals[i]);
      i := i - 1;
    }
    assert originals[..1] == [originals[0]];
    xs[0] := acc;
    return Ok(());
  }

  lemma BackwardAt<F(!new)>(f: Field<F>, s: seq<F>, i: nat)
    requires f.Valid() && i < |s| && f.Zero() !in s
    ensures f.mul(Prod(f, s[..i]), f.inv(Prod(f, s[..i + 1]))) == f.inv(s[i])
    ensures f.mul(f.inv(Prod(f, s[..i + 1])), s[i]) == f.inv(Prod(f, s[..i]))
  {
    hide Field.Valid, Prod;
    assert s[..i + 1] == s[..i] + [s[i]];
    ProdSnoc(f, s[..i], s[i]);
    PrefixNonZero(f, s, i);
    BackwardStep(f, Prod(f, s[..i]), s[i]);
  }

  lemma PrefixNonZero<F(!new)>(f: Field<F>, s: seq<F>, i: nat)
    requires f.Valid() && i < |s| && f.Zero() !in s
    ensures Prod(f, s[..i]) != f.Zero() && s[i] != f.Zero()
  {
    ProdZero(f, s[..i]);
  }

  /** With `acc = 1/(before * x)`: `before * acc = 1/x` and `acc * x = 1/before`. */
  lemma BackwardStep<F(!new)>(f: Field<F>, before: F, x: F)
    requires f.Valid() && before != f.Zero() && x != f.Zero()
    ensures f.mul(before, f.inv(f.mul(before, x))) == f.inv(x)
    ensures f.mul(f.inv(f.mul(before, x)), x) == f.inv(before)
  {
    InverseOfProduct(f, before, x);
    var u, v := f.inv(before), f.inv(x);
    MulAssoc(f, before, u, v);
    MulOne(f, v);
    MulAssoc(f, u, v, x);
    MulInverseLeft(f, x, u);
    MulOne(f, u);
  }
}
