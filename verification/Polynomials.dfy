/**
 Polynomials as coefficient lists, lowest degree first: evaluation, multiplication by a linear
 factor, division by one, and the fact that a list of n coefficients is determined by its values
 at n distinct points.
 */
module Polynomials {
  import opened Fields

  ghost function Eval<F(!new)>(f: Field<F>, c: seq<F>, x: F): F {
    if c == [] then f.Zero() else f.add(c[0], f.mul(x, Eval(f, c[1..], x)))
  }

  function Zeros<F(!new)>(f: Field<F>, n: nat): (c: seq<F>)
    ensures |c| == n
  {
    seq(n, _ => f.Zero())
  }

  /** `Distinct(s)`: no element occurs twice. */
  ghost predicate Distinct<T>(s: seq<T>) {
    forall i, j :: 0 <= i < j < |s| ==> s[i] != s[j]
  }

  lemma {:induction false} EvalZeros<F(!new)>(f: Field<F>, c: seq<F>, x: F)
    requires f.Valid() && forall i :: 0 <= i < |c| ==> c[i] == f.Zero()
    ensures Eval(f, c, x) == f.Zero()
  {
    if c != [] {
      EvalZeros(f, c[1..], x);
      MulZero(f, x);
      AddZero(f, f.Zero());
    }
  }

  lemma {:induction false} EvalSnoc<F(!new)>(f: Field<F>, c: seq<F>, a: F, x: F)
    requires f.Valid()
    ensures Eval(f, c + [a], x) == f.add(Eval(f, c, x), f.mul(a, Pow(f, x, |c|)))
  {
    if c == [] {
      MulZero(f, x);
      AddZero(f, a);
      MulOne(f, a);
      assert ([] + [a])[1..] == [];
      assert [a][1..] == [];
    } else {
      EvalSnoc(f, c[1..], a, x);
      assert (c + [a])[1..] == c[1..] + [a];
      EvalSnocStep(f, c[0], x, Eval(f, c[1..], x), a, Pow(f, x, |c| - 1));
    }
  }

  /** Adding one more coefficient to a prefix. */
  lemma EvalPrefix<F(!new)>(f: Field<F>, c: seq<F>, i: nat, x: F)
    requires f.Valid() && i < |c|
    ensures Eval(f, c[..i + 1], x) == f.add(Eval(f, c[..i], x), f.mul(c[i], Pow(f, x, i)))
  {
    assert c[..i + 1] == c[..i] + [c[i]];
    EvalSnoc(f, c[..i], c[i], x);
  }

  lemma EvalSnocStep<F(!new)>(f: Field<F>, c0: F, x: F, e: F, a: F, p: F)
    requires f.Valid()
    ensures f.add(c0, f.mul(x, f.add(e, f.mul(a, p)))) == f.add(f.add(c0, f.mul(x, e)), f.mul(a, f.mul(x, p)))
  {
    var i, j, k, l, m := f.rep(c0), f.rep(x), f.rep(e), f.rep(a), f.rep(p);
    assert i + j * (k + l * m) == (i + j * k) + l * (j * m);
  }

  ghost function Padded<F(!new)>(f: Field<F>, c: seq<F>, n: nat): (d: seq<F>)
    requires |c| <= n
    ensures |d| == n
  {
    c + Zeros(f, n - |c|)
  }

  /** Appending zero coefficients does not change the polynomial. */
  lemma {:induction false} EvalPadded<F(!new)>(f: Field<F>, c: seq<F>, n: nat, x: F)
    requires f.Valid()
    ensures Eval(f, c + Zeros(f, n), x) == Eval(f, c, x)
  {
    if c == [] {
      assert [] + Zeros(f, n) == Zeros(f, n);
      EvalZeros(f, Zeros(f, n), x);
    } else {
      EvalPadded(f, c[1..], n, x);
      assert (c + Zeros(f, n))[1..] == c[1..] + Zeros(f, n);
    }
  }

  /** `a + s * b`, coefficient by coefficient. */
  ghost function AddScaled<F(!new)>(f: Field<F>, a: seq<F>, b: seq<F>, s: F): (c: seq<F>)
    requires |a| == |b|
    ensures |c| == |a|
  {
    seq(|a|, i requires 0 <= i < |a| => f.add(a[i], f.mul(b[i], s)))
  }

  lemma {:induction false} EvalAddScaled<F(!new)>(f: Field<F>, a: seq<F>, b: seq<F>, s: F, x: F)
    requires f.Valid() && |a| == |b|
    ensures Eval(f, AddScaled(f, a, b, s), x) == f.add(Eval(f, a, x), f.mul(Eval(f, b, x), s))
  {
    if a == [] {
      MulZero(f, s);
      AddZero(f, f.Zero());
    } else {
      EvalAddScaled(f, a[1..], b[1..], s, x);
      assert AddScaled(f, a, b, s)[1..] == AddScaled(f, a[1..], b[1..], s);
      AddScaledStep(f, a[0], b[0], s, x, Eval(f, a[1..], x), Eval(f, b[1..], x));
    }
  }

  lemma AddScaledStep<F(!new)>(f: Field<F>, a: F, b: F, s: F, x: F, p: F, q: F)
    requires f.Valid()
    ensures f.add(f.add(a, f.mul(b, s)), f.mul(x, f.add(p, f.mul(q, s))))
         == f.add(f.add(a, f.mul(x, p)), f.mul(f.add(b, f.mul(x, q)), s))
  {
    var i, j, k, l, m, n := f.rep(a), f.rep(b), f.rep(s), f.rep(x), f.rep(p), f.rep(q);
    assert (i + j * k) + l * (m + n * k) == (i + l * m) + (j + l * n) * k;
  }

  // ----- linear factors -----

  /** The quotient of `c` by `X - r`. */
  ghost function Quotient<F(!new)>(f: Field<F>, c: seq<F>, r: F): (q: seq<F>)
    ensures |q| == if c == [] then 0 else |c| - 1
  {
    if |c| <= 1 then [] else [Eval(f, c[1..], r)] + Quotient(f, c[1..], r)
  }

  /** `c(x) = c(r) + (x - r) * quotient(x)`. */
  lemma {:induction false} Division<F(!new)>(f: Field<F>, c: seq<F>, r: F, x: F)
    requires f.Valid()
    ensures Eval(f, c, x) == f.add(Eval(f, c, r), f.mul(f.Sub(x, r), Eval(f, Quotient(f, c, r), x)))
  {
    MulZero(f, f.Sub(x, r));
    if |c| == 0 {
      AddZero(f, f.Zero());
    } else if |c| == 1 {
      MulZero(f, x);
      MulZero(f, r);
      AddZero(f, c[0]);
      assert c[1..] == [];
      AddZero(f, Eval(f, c, r));
    } else {
      Division(f, c[1..], r, x);
      var q := Quotient(f, c, r);
      assert q[1..] == Quotient(f, c[1..], r);
      DivisionStep(f, c[0], x, r, Eval(f, c[1..], r), Eval(f, q[1..], x));
    }
  }

  lemma DivisionStep<F(!new)>(f: Field<F>, c0: F, x: F, r: F, e: F, q: F)
    requires f.Valid()
    ensures f.add(c0, f.mul(x, f.add(e, f.mul(f.Sub(x, r), q))))
         == f.add(f.add(c0, f.mul(r, e)), f.mul(f.Sub(x, r), f.add(e, f.mul(x, q))))
  {
    hide *;
    DivisionLeft(f, c0, x, r, e, q);
    DivisionRight(f, c0, x, r, e, q);
    DivisionIntegers(f.rep(c0), f.rep(x), f.rep(r), f.rep(e), f.rep(q));
  }

  lemma DivisionIntegers(i: int, j: int, k: int, l: int, m: int)
    ensures i + j * (l + (j - k) * m) == (i + k * l) + (j - k) * (l + j * m)
  {
  }

  lemma DivisionLeft<F(!new)>(f: Field<F>, c0: F, x: F, r: F, e: F, q: F)
    requires f.Valid()
    ensures f.add(c0, f.mul(x, f.add(e, f.mul(f.Sub(x, r), q))))
         == f.of(f.rep(c0) + f.rep(x) * (f.rep(e) + (f.rep(x) - f.rep(r)) * f.rep(q)))
  {
  }

  lemma DivisionRight<F(!new)>(f: Field<F>, c0: F, x: F, r: F, e: F, q: F)
    requires f.Valid()
    ensures f.add(f.add(c0, f.mul(r, e)), f.mul(f.Sub(x, r), f.add(e, f.mul(x, q))))
         == f.of((f.rep(c0) + f.rep(r) * f.rep(e)) + (f.rep(x) - f.rep(r)) * (f.rep(e) + f.rep(x) * f.rep(q)))
  {
  }

  lemma {:induction false} ZeroQuotient<F(!new)>(f: Field<F>, c: seq<F>, r: F)
    requires f.Valid() && Eval(f, c, r) == f.Zero()
    requires forall i :: 0 <= i < |Quotient(f, c, r)| ==> Quotient(f, c, r)[i] == f.Zero()
    ensures forall i :: 0 <= i < |c| ==> c[i] == f.Zero()
  {
    if |c| == 1 {
      assert c[1..] == [];
      MulZero(f, r);
      AddZero(f, c[0]);
    } else if |c| > 1 {
      var q := Quotient(f, c, r);
      assert q[0] == Eval(f, c[1..], r);
      assert forall i :: 0 <= i < |q| - 1 ==> Quotient(f, c[1..], r)[i] == q[i + 1];
      ZeroQuotient(f, c[1..], r);
      MulZero(f, r);
      AddZero(f, c[0]);
      assert forall i :: 1 <= i < |c| ==> c[i] == c[1..][i - 1];
    }
  }

  /** A list of n coefficients that vanishes at n distinct points is zero. */
  lemma {:induction false} TooManyRoots<F(!new)>(f: Field<F>, c: seq<F>, points: seq<F>)
    requires f.Valid() && |c| <= |points| && Distinct(points)
    requires forall i :: 0 <= i < |points| ==> Eval(f, c, points[i]) == f.Zero()
    ensures forall i :: 0 <= i < |c| ==> c[i] == f.Zero()
    decreases |c|
  {
    if c != [] {
      var n := |points| - 1;
      var r, rest, q := points[n], points[..n], Quotient(f, c, points[n]);
      forall i | 0 <= i < n ensures Eval(f, q, rest[i]) == f.Zero() {
        var x := rest[i];
        assert Eval(f, c, x) == f.Zero() && x != r by { assert x == points[i]; }
        Division(f, c, r, x);
        var d := f.Sub(x, r);
        AddZero(f, f.mul(d, Eval(f, q, x)));
        SubIsZero(f, x, r);
        NoZeroDivisors(f, d, Eval(f, q, x));
      }
      TooManyRoots(f, q, rest);
      ZeroQuotient(f, c, r);
    }
  }

  /** Interpolation is unique: n coefficients are determined by n values. */
  lemma InterpolationUnique<F(!new)>(f: Field<F>, a: seq<F>, b: seq<F>, points: seq<F>)
    requires f.Valid() && |a| == |b| <= |points| && Distinct(points)
    requires forall i :: 0 <= i < |points| ==> Eval(f, a, points[i]) == Eval(f, b, points[i])
    ensures a == b
  {
    var minusOne := f.neg(f.One());
    var d := AddScaled(f, a, b, minusOne);
    forall i | 0 <= i < |points| ensures Eval(f, d, points[i]) == f.Zero() {
      EvalAddScaled(f, a, b, minusOne, points[i]);
      MinusOne(f, Eval(f, a, points[i]), Eval(f, b, points[i]));
    }
    TooManyRoots(f, d, points);
    forall i | 0 <= i < |a| ensures a[i] == b[i] {
      assert d[i] == f.Zero();
      MinusOne(f, a[i], b[i]);
    }
  }

  lemma MinusOne<F(!new)>(f: Field<F>, a: F, b: F)
    requires f.Valid()
    ensures f.add(a, f.mul(b, f.neg(f.One()))) == f.Zero() <==> a == b
  {
    var x, y := f.rep(a), f.rep(b);
    assert x + y * -1 == x - y;
    assert f.add(a, f.mul(b, f.neg(f.One()))) == f.Sub(a, b);
    SubIsZero(f, a, b);
  }

  lemma EvalOfTwo<F(!new)>(f: Field<F>, a: F, b: F, x: F)
    requires f.Valid()
    ensures Eval(f, [a, b], x) == f.add(a, f.mul(x, b))
  {
    hide Field.Valid;
    assert [a, b][1..] == [b] && [b][1..] == [];
    assert Eval(f, [b], x) == f.add(b, f.mul(x, Eval(f, [], x)));
    MulZero(f, x);
    AddZero(f, b);
  }
}
