/**
 The evaluation domain: powers of an element of exact order n, with integer exponents, and the
 closed form of the Lagrange basis over it.
 */
module Domain {
  import opened Fields
  import opened Polynomials
  import opened Interpolation
  import opened Vanishing

  ghost predicate HasOrder<F(!new)>(f: Field<F>, omega: F, n: nat)
    ensures HasOrder(f, omega, n) ==> n > 0
  {
    && n > 0 && Pow(f, omega, n) == f.One()
    && forall i :: 0 < i < n ==> Pow(f, omega, i) != f.One()
  }

  lemma {:induction false} PowPeriodic<F(!new)>(f: Field<F>, omega: F, n: nat, m: nat, q: nat)
    requires f.Valid() && HasOrder(f, omega, n)
    ensures Pow(f, omega, m + q * n) == Pow(f, omega, m)
  {
    hide Field.Valid, Pow;
    if q > 0 {
      PowPeriodic(f, omega, n, m, q - 1);
      assert m + q * n == (m + (q - 1) * n) + n;
      PowAdd(f, omega, m + (q - 1) * n, n);
      MulOne(f, Pow(f, omega, m + (q - 1) * n));
    }
  }

  lemma PowInjective<F(!new)>(f: Field<F>, omega: F, n: nat, i: nat, j: nat)
    requires f.Valid() && HasOrder(f, omega, n) && i < j < n
    ensures Pow(f, omega, i) != Pow(f, omega, j)
  {
    hide Field.Valid, Pow;
    OmegaNonZero(f, omega, n);
    PowNonZero(f, omega, i);
    PowAdd(f, omega, i, j - i);
    MulOne(f, Pow(f, omega, i));
    if Pow(f, omega, i) == Pow(f, omega, j) {
      MulCancel(f, Pow(f, omega, i), f.One(), Pow(f, omega, j - i));
    }
  }

  lemma OmegaNonZero<F(!new)>(f: Field<F>, omega: F, n: nat)
    requires f.Valid() && HasOrder(f, omega, n)
    ensures omega != f.Zero()
  {
    MulZero(f, Pow(f, omega, n - 1));
  }

  // ----- integer exponents -----

  /** `omega^e` for any integer e. */
  ghost function PowZ<F(!new)>(f: Field<F>, omega: F, n: nat, e: int): F
    requires n > 0
  {
    Pow(f, omega, e % n)
  }

  lemma RemaindersAdd(a: int, b: int, n: nat) returns (c: nat)
    requires n > 0
    ensures a % n + b % n == (a + b) % n + c * n
  {
    var q := (a + b) / n - a / n - b / n;
    assert a == (a / n) * n + a % n;
    assert b == (b / n) * n + b % n;
    assert a + b == ((a + b) / n) * n + (a + b) % n;
    assert a % n + b % n - (a + b) % n == q * n;
    assert q <= -1 ==> q * n <= -(n as int);
    c := q;
  }

  lemma PowZAdd<F(!new)>(f: Field<F>, omega: F, n: nat, a: int, b: int)
    requires f.Valid() && HasOrder(f, omega, n)
    ensures PowZ(f, omega, n, a + b) == f.mul(PowZ(f, omega, n, a), PowZ(f, omega, n, b))
  {
    hide Field.Valid, Pow;
    var c := RemaindersAdd(a, b, n);
    PowAdd(f, omega, a % n, b % n);
    PowPeriodic(f, omega, n, (a + b) % n, c);
  }

  lemma PowZNat<F(!new)>(f: Field<F>, omega: F, n: nat, m: nat)
    requires f.Valid() && HasOrder(f, omega, n)
    ensures PowZ(f, omega, n, m) == Pow(f, omega, m)
  {
    hide Field.Valid, Pow;
    assert m == m % n + (m / n) * n;
    PowPeriodic(f, omega, n, m % n, m / n);
  }

  lemma PowZNeg<F(!new)>(f: Field<F>, omega: F, n: nat, e: int)
    requires f.Valid() && HasOrder(f, omega, n)
    ensures PowZ(f, omega, n, e) != f.Zero()
    ensures PowZ(f, omega, n, -e) == f.inv(PowZ(f, omega, n, e))
  {
    PowZAdd(f, omega, n, e, -e);
    PowZNat(f, omega, n, 0);
    InverseUnique(f, PowZ(f, omega, n, e), PowZ(f, omega, n, -e));
  }

  lemma {:induction false} InversePower<F(!new)>(f: Field<F>, omega: F, n: nat, m: nat)
    requires f.Valid() && HasOrder(f, omega, n)
    ensures Pow(f, f.inv(omega), m) == PowZ(f, omega, n, -(m as int))
  {
    hide Field.Valid, PowZ;
    PowZNat(f, omega, n, 0);
    PowOne(f, omega);
    PowZNat(f, omega, n, 1);
    if m > 0 {
      InversePower(f, omega, n, m - 1);
      PowZNeg(f, omega, n, 1);
      PowZAdd(f, omega, n, -1, -((m - 1) as int));
    }
  }

  lemma PowOne<F(!new)>(f: Field<F>, a: F)
    requires f.Valid()
    ensures Pow(f, a, 1) == a && Pow(f, a, 0) == f.One()
  {
    MulOne(f, a);
    assert Pow(f, a, 1) == f.mul(a, Pow(f, a, 0));
  }

  lemma {:induction false} PowZOrder<F(!new)>(f: Field<F>, omega: F, n: nat, e: int, q: nat)
    requires f.Valid() && HasOrder(f, omega, n)
    ensures Pow(f, PowZ(f, omega, n, e), n) == f.One()
  {
    hide Field.Valid, Pow;
    PowMul(f, omega, e % n, n);
    PowPeriodic(f, omega, n, 0, e % n);
    PowOne(f, omega);
  }

  // ----- the domain as a point list -----

  ghost function Points<F(!new)>(f: Field<F>, omega: F, n: nat): (p: seq<F>)
    ensures |p| == n
  {
    seq(n, i requires 0 <= i < n => Pow(f, omega, i))
  }

  lemma PointsDistinct<F(!new)>(f: Field<F>, omega: F, n: nat)
    requires f.Valid() && HasOrder(f, omega, n)
    ensures Distinct(Points(f, omega, n))
  {
    hide Field.Valid, Pow;
    var p := Points(f, omega, n);
    forall i, j | 0 <= i < j < |p| ensures p[i] != p[j] { PowInjective(f, omega, n, i, j); }
  }

  /** The coefficients of `X^n - 1`, with the leading one on request. */
  ghost function XnMinusOne<F(!new)>(f: Field<F>, n: nat): (c: seq<F>)
    requires n > 0
    ensures |c| == n + 1
  {
    [f.neg(f.One())] + Zeros(f, n - 1) + [f.One()]
  }

  lemma EvalXnMinusOne<F(!new)>(f: Field<F>, n: nat, x: F)
    requires f.Valid() && n > 0
    ensures Eval(f, XnMinusOne(f, n), x) == f.Sub(Pow(f, x, n), f.One())
  {
    hide Field.Valid, Pow;
    var low := [f.neg(f.One())] + Zeros(f, n - 1);
    EvalSnoc(f, low, f.One(), x);
    assert low[1..] == Zeros(f, n - 1);
    EvalZeros(f, Zeros(f, n - 1), x);
    MulZero(f, x);
    AddZero(f, f.neg(f.One()));
    MulOne(f, Pow(f, x, n));
    AddComm(f, f.neg(f.One()), Pow(f, x, n));
  }

  // ----- leading coefficients -----

  lemma {:induction false} TimesLinearMonic<F(!new)>(f: Field<F>, c: seq<F>, r: F, carry: F)
    requires c != []
    ensures TimesLinear(f, c, r, carry)[|c|] == c[|c| - 1]
  {
    TimesLinearAt(f, c, r, carry, |c|);
  }

  lemma {:induction false} NumeratorMonic<F(!new)>(f: Field<F>, points: seq<F>, j: nat, n: nat)
    requires n <= |points|
    ensures |Numerator(f, points, j, n)| > 0 ==> Numerator(f, points, j, n)[|Numerator(f, points, j, n)| - 1] == f.One()
  {
    hide Field.Valid, TimesLinear;
    if n > 0 {
      NumeratorMonic(f, points, j, n - 1);
      if n - 1 != j {
        var c := Numerator(f, points, j, n - 1);
        if c != [] {
          TimesLinearMonic(f, c, points[n - 1], f.Zero());
        }
      }
    }
  }

  lemma {:induction false} QuotientMonic<F(!new)>(f: Field<F>, c: seq<F>, r: F)
    requires f.Valid() && |c| >= 2
    ensures Quotient(f, c, r)[|c| - 2] == c[|c| - 1]
  {
    if |c| == 2 {
      var d := c[1..];
      assert d == [c[1]] && d[1..] == [];
      assert Eval(f, d, r) == f.add(d[0], f.mul(r, Eval(f, d[1..], r)));
      MulZero(f, r);
      AddZero(f, c[1]);
    } else {
      QuotientMonic(f, c[1..], r);
    }
  }

  /** Two lists of n coefficients with the same leading coefficient that agree at n - 1 distinct
      points are equal. */
  lemma MonicUnique<F(!new)>(f: Field<F>, a: seq<F>, b: seq<F>, points: seq<F>)
    requires f.Valid() && |a| == |b| == |points| + 1 && Distinct(points)
    requires a[|points|] == b[|points|]
    requires forall i :: 0 <= i < |points| ==> Eval(f, a, points[i]) == Eval(f, b, points[i])
    ensures a == b
  {
    hide Field.Valid, Eval, Pow;
    var n := |points|;
    var a', b', top := a[..n], b[..n], a[n];
    assert a == a' + [top] && b == b' + [top];
    forall i | 0 <= i < n ensures Eval(f, a', points[i]) == Eval(f, b', points[i]) {
      var x := points[i];
      EvalSnoc(f, a', top, x);
      EvalSnoc(f, b', top, x);
      AddCancel(f, Eval(f, a', x), Eval(f, b', x), f.mul(top, Pow(f, x, n)));
    }
    InterpolationUnique(f, a', b', points);
  }

  lemma AddCancel<F(!new)>(f: Field<F>, a: F, b: F, c: F)
    requires f.Valid() && f.add(a, c) == f.add(b, c)
    ensures a == b
  {
    var x, y, z := f.rep(a), f.rep(b), f.rep(c);
    assert f.add(f.add(a, c), f.neg(c)) == f.of(x);
    assert f.add(f.add(b, c), f.neg(c)) == f.of(y);
  }

  // ----- the Lagrange basis over the domain -----

  lemma OtherPointsAgree<F(!new)>(f: Field<F>, omega: F, n: nat, j: nat, x: F)
    requires f.Valid() && HasOrder(f, omega, n) && j < n
    requires x in Points(f, omega, n) && x != Pow(f, omega, j)
    ensures Eval(f, Numerator(f, Points(f, omega, n), j, n), x) == Eval(f, Quotient(f, XnMinusOne(f, n), Pow(f, omega, j)), x)
  {
    hide Field.Valid, Pow, Numerator, Quotient, XnMinusOne, Eval, Others, HasOrder;
    var d, r, c := Points(f, omega, n), Pow(f, omega, j), XnMinusOne(f, n);
    EvalNumerator(f, d, j, n, x);
    OthersZero(f, d, j, n, x);
    var i :| 0 <= i < n && d[i] == x;
    RootOfUnity(f, omega, n, i);
    RootOfUnity(f, omega, n, j);
    Division(f, c, r, x);
    AddZero(f, f.mul(f.Sub(x, r), Eval(f, Quotient(f, c, r), x)));
    NoZeroDivisors(f, f.Sub(x, r), Eval(f, Quotient(f, c, r), x));
    SubIsZero(f, x, r);
  }

  lemma RootOfUnity<F(!new)>(f: Field<F>, omega: F, n: nat, i: nat)
    requires f.Valid() && HasOrder(f, omega, n)
    ensures Pow(f, Pow(f, omega, i), n) == f.One()
    ensures Eval(f, XnMinusOne(f, n), Pow(f, omega, i)) == f.Zero()
  {
    hide Field.Valid, Pow, XnMinusOne, Eval;
    PowMul(f, omega, i, n);
    PowPeriodic(f, omega, n, 0, i);
    PowOne(f, omega);
    EvalXnMinusOne(f, n, Pow(f, omega, i));
    SubIsZero(f, f.One(), f.One());
  }

  /** The numerator of a basis polynomial is `(X^n - 1) / (X - omega^j)`. */
  lemma NumeratorIsQuotient<F(!new)>(f: Field<F>, omega: F, n: nat, j: nat)
    requires f.Valid() && HasOrder(f, omega, n) && j < n
    ensures Numerator(f, Points(f, omega, n), j, n) == Quotient(f, XnMinusOne(f, n), Pow(f, omega, j))
  {
    hide Field.Valid, Pow, Numerator, Quotient, Eval, HasOrder;
    var d, r, c := Points(f, omega, n), Pow(f, omega, j), XnMinusOne(f, n);
    var a, b, others := Numerator(f, d, j, n), Quotient(f, c, r), Without(d, j);
    PointsDistinct(f, omega, n);
    WithoutElements(d, j);
    NumeratorMonic(f, d, j, n);
    QuotientMonic(f, c, r);
    forall i | 0 <= i < |others| ensures Eval(f, a, others[i]) == Eval(f, b, others[i]) {
      assert others[i] in others;
      OtherPointsAgree(f, omega, n, j, others[i]);
    }
    MonicUnique(f, a, b, others);
  }

  /** `(x - omega^j) * prod_{i != j} (x - omega^i) = x^n - 1`, for every x. */
  lemma OthersTimesOwn<F(!new)>(f: Field<F>, omega: F, n: nat, j: nat, x: F)
    requires f.Valid() && HasOrder(f, omega, n) && j < n
    ensures f.mul(f.Sub(x, Pow(f, omega, j)), Others(f, Points(f, omega, n), j, n, x)) == f.Sub(Pow(f, x, n), f.One())
  {
    hide Field.Valid, Pow, Numerator, Quotient, Eval, HasOrder, XnMinusOne, Others;
    var r, c := Pow(f, omega, j), XnMinusOne(f, n);
    NumeratorIsQuotient(f, omega, n, j);
    EvalNumerator(f, Points(f, omega, n), j, n, x);
    RootOfUnity(f, omega, n, j);
    Division(f, c, r, x);
    AddZero(f, f.mul(f.Sub(x, r), Eval(f, Quotient(f, c, r), x)));
    EvalXnMinusOne(f, n, x);
  }

  ghost function Monomial<F(!new)>(f: Field<F>, m: nat): (c: seq<F>)
    ensures |c| == m + 1
  {
    Zeros(f, m) + [f.One()]
  }

  lemma EvalMonomial<F(!new)>(f: Field<F>, m: nat, x: F)
    requires f.Valid()
    ensures Eval(f, Monomial(f, m), x) == Pow(f, x, m)
  {
    hide Field.Valid, Pow;
    EvalSnoc(f, Zeros(f, m), f.One(), x);
    EvalZeros(f, Zeros(f, m), x);
    MulOne(f, Pow(f, x, m));
    AddZero(f, Pow(f, x, m));
  }

  /** r times the value at r of `(X^m - r^m) / (X - r)` is `m * r^m`. */
  lemma {:induction false} MonomialDerivative<F(!new)>(f: Field<F>, m: nat, r: F)
    requires f.Valid()
    ensures f.mul(r, Eval(f, Quotient(f, Monomial(f, m), r), r)) == f.mul(f.of(m), Pow(f, r, m))
  {
    if m == 0 {
      MulZero(f, r);
      MulZero(f, Pow(f, r, 0));
    } else {
      MonomialDerivative(f, m - 1, r);
      assert Monomial(f, m)[1..] == Monomial(f, m - 1);
      EvalMonomial(f, m - 1, r);
      var e := Eval(f, Quotient(f, Monomial(f, m - 1), r), r);
      var q := Quotient(f, Monomial(f, m), r);
      assert q[0] == Pow(f, r, m - 1) && q[1..] == Quotient(f, Monomial(f, m - 1), r);
      assert Eval(f, q, r) == f.add(Pow(f, r, m - 1), f.mul(r, e));
      DerivativeStep(f, r, Pow(f, r, m - 1), e, m - 1);
    }
  }

  lemma DerivativeStep<F(!new)>(f: Field<F>, r: F, p: F, e: F, m: int)
    requires f.Valid() && f.mul(r, e) == f.mul(f.of(m), p)
    ensures f.mul(r, f.add(p, f.mul(r, e))) == f.mul(f.of(m + 1), f.mul(r, p))
  {
    var i, j := f.rep(r), f.rep(p);
    assert i * (j + m * j) == (m + 1) * (i * j);
  }

  lemma OwnFactorNonZero<F(!new)>(f: Field<F>, d: seq<F>, j: nat)
    requires f.Valid() && Distinct(d) && j < |d|
    ensures Others(f, d, j, |d|, d[j]) != f.Zero()
  {
    hide Field.Valid, Others;
    OthersZero(f, d, j, |d|, d[j]);
    assert forall i :: 0 <= i < |d| && i != j ==> d[i] != d[j];
  }

  /** The denominator of a basis polynomial: omega^j times it is n. In particular n is not zero. */
  lemma DenominatorValue<F(!new)>(f: Field<F>, omega: F, n: nat, j: nat)
    requires f.Valid() && HasOrder(f, omega, n) && j < n
    ensures f.mul(Pow(f, omega, j), Others(f, Points(f, omega, n), j, n, Pow(f, omega, j))) == f.of(n)
    ensures Others(f, Points(f, omega, n), j, n, Pow(f, omega, j)) != f.Zero() && f.of(n) != f.Zero()
  {
    hide Field.Valid, Pow, Numerator, Quotient, Eval, HasOrder, XnMinusOne, Others;
    var r, d := Pow(f, omega, j), Points(f, omega, n);
    NumeratorIsQuotient(f, omega, n, j);
    EvalNumerator(f, d, j, n, r);
    SameTail(f, n, r);
    MonomialDerivative(f, n, r);
    RootOfUnity(f, omega, n, j);
    MulOne(f, f.of(n));
    PointsDistinct(f, omega, n);
    OwnFactorNonZero(f, d, j);
    OmegaNonZero(f, omega, n);
    PowNonZero(f, omega, j);
    NoZeroDivisors(f, r, Others(f, d, j, n, r));
  }

  /** The quotient does not see the constant coefficient. */
  lemma SameTail<F(!new)>(f: Field<F>, n: nat, r: F)
    requires n > 0
    ensures Quotient(f, XnMinusOne(f, n), r) == Quotient(f, Monomial(f, n), r)
  {
    assert XnMinusOne(f, n)[1..] == Monomial(f, n - 1) == Monomial(f, n)[1..];
  }

  /** The j-th Lagrange basis polynomial at x. */
  ghost function Basis<F(!new)>(f: Field<F>, omega: F, n: nat, j: nat, x: F): F {
    var d := Points(f, omega, n);
    if j < n then f.mul(Others(f, d, j, n, x), f.inv(Others(f, d, j, n, Pow(f, omega, j)))) else f.Zero()
  }

  /** Closed form: `L_j(x) = omega^j (x^n - 1) / (n (x - omega^j))` away from omega^j. */
  lemma BasisClosedForm<F(!new)>(f: Field<F>, omega: F, n: nat, j: nat, x: F)
    requires f.Valid() && HasOrder(f, omega, n) && j < n && x != Pow(f, omega, j)
    ensures Basis(f, omega, n, j, x) ==
            f.mul(f.mul(f.mul(Pow(f, omega, j), f.Sub(Pow(f, x, n), f.One())), f.inv(f.of(n))), f.inv(f.Sub(x, Pow(f, omega, j))))
  {
    hide Field.Valid, Pow, HasOrder, Others, Field.Sub;
    var r, d := Pow(f, omega, j), Points(f, omega, n);
    var o, own := Others(f, d, j, n, x), Others(f, d, j, n, r);
    OthersTimesOwn(f, omega, n, j, x);
    DenominatorValue(f, omega, n, j);
    OmegaNonZero(f, omega, n);
    PowNonZero(f, omega, j);
    SubIsZero(f, x, r);
    ClosedFormAlgebra(f, r, f.Sub(x, r), o, own);
  }

  lemma ClosedFormAlgebra<F(!new)>(f: Field<F>, r: F, d: F, o: F, own: F)
    requires f.Valid() && r != f.Zero() && d != f.Zero() && own != f.Zero()
    ensures f.mul(o, f.inv(own)) == f.mul(f.mul(f.mul(r, f.mul(d, o)), f.inv(f.mul(r, own))), f.inv(d))
  {
    InverseOfProduct(f, r, own);
    var ir, id, iown := f.inv(r), f.inv(d), f.inv(own);
    Regroup(f, r, d, o, ir, iown, id);
    MulInverseLeft(f, r, f.One());
    MulInverseLeft(f, d, f.One());
    MulComm(f, ir, r);
    MulComm(f, id, d);
    MulOne(f, f.One());
    MulOne(f, f.mul(o, iown));
  }

  lemma Regroup<F(!new)>(f: Field<F>, r: F, d: F, o: F, ir: F, iown: F, id: F)
    requires f.Valid()
    ensures f.mul(f.mul(f.mul(r, f.mul(d, o)), f.mul(ir, iown)), id) == f.mul(f.mul(f.mul(r, ir), f.mul(d, id)), f.mul(o, iown))
  {
    hide *;
    RegroupLeft(f, r, d, o, ir, iown, id);
    RegroupRight(f, r, d, o, ir, iown, id);
    RegroupIntegers(f.rep(r), f.rep(d), f.rep(o), f.rep(ir), f.rep(iown), f.rep(id));
  }

  lemma RegroupIntegers(a: int, b: int, c: int, d: int, e: int, g: int)
    ensures ((a * (b * c)) * (d * e)) * g == ((a * d) * (b * g)) * (c * e)
  {
  }

  lemma RegroupLeft<F(!new)>(f: Field<F>, r: F, d: F, o: F, ir: F, iown: F, id: F)
    requires f.Valid()
    ensures f.mul(f.mul(f.mul(r, f.mul(d, o)), f.mul(ir, iown)), id) ==
            f.of(((f.rep(r) * (f.rep(d) * f.rep(o))) * (f.rep(ir) * f.rep(iown))) * f.rep(id))
  {
  }

  lemma RegroupRight<F(!new)>(f: Field<F>, r: F, d: F, o: F, ir: F, iown: F, id: F)
    requires f.Valid()
    ensures f.mul(f.mul(f.mul(r, ir), f.mul(d, id)), f.mul(o, iown)) ==
            f.of(((f.rep(r) * f.rep(ir)) * (f.rep(d) * f.rep(id))) * (f.rep(o) * f.rep(iown)))
  {
  }
}
