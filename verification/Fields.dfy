/**
 The scalar field as the rest of the verifier sees it: a record of operations over an unknown
 carrier, with the laws of a prime field. `of` is reduction of an integer into the field (the
 conversion from integers) and `rep` is the canonical integer representative. Because `of` is a
 ring homomorphism onto the field, every ring identity follows from the same identity over the
 integers; mentioning `f.rep(a)` in a proof is what brings that law to bear on `a`.
 */
module Fields {

  datatype Field<!F(!new)> = Field(
    order: nat,
    of: int -> F,
    rep: F -> int,
    add: (F, F) -> F,
    mul: (F, F) -> F,
    neg: F -> F,
    inv: F -> F)
  {
    ghost predicate Represents() {
      forall a {:trigger rep(a)} :: of(rep(a)) == a
    }

    ghost predicate AddsAsIntegers() {
      forall x: int, y: int {:trigger add(of(x), of(y))} :: add(of(x), of(y)) == of(x + y)
    }

    ghost predicate MultipliesAsIntegers() {
      forall x: int, y: int {:trigger mul(of(x), of(y))} :: mul(of(x), of(y)) == of(x * y)
    }

    ghost predicate NegatesAsIntegers() {
      forall x: int {:trigger neg(of(x))} :: neg(of(x)) == of(-x)
    }

    ghost predicate Inverts() {
      forall a {:trigger inv(a)} :: a != of(0) ==> mul(a, inv(a)) == of(1)
    }

    /** The laws of a prime field. */
    ghost predicate Valid() {
      && Represents()
      && AddsAsIntegers()
      && MultipliesAsIntegers()
      && NegatesAsIntegers()
      && of(0) != of(1)
      && Inverts()
    }

    /** `rep` is the representative in `[0, order)`. */
    ghost predicate Canonical() {
      && 1 < order
      && (forall a {:trigger rep(a)} :: 0 <= rep(a) < order)
      && (forall x: int {:trigger rep(of(x))} :: rep(of(x)) == x % order)
    }

    function Zero(): F { of(0) }

    function One(): F { of(1) }

    function Sub(a: F, b: F): F { add(a, neg(b)) }
  }

  lemma AddZero<F(!new)>(f: Field<F>, a: F)
    requires f.Valid()
    ensures f.add(a, f.Zero()) == a && f.add(f.Zero(), a) == a
  {
    var x := f.rep(a);
  }

  lemma AddComm<F(!new)>(f: Field<F>, a: F, b: F)
    requires f.Valid()
    ensures f.add(a, b) == f.add(b, a)
  {
    var x, y := f.rep(a), f.rep(b);
  }

  lemma AddAssoc<F(!new)>(f: Field<F>, a: F, b: F, c: F)
    requires f.Valid()
    ensures f.add(f.add(a, b), c) == f.add(a, f.add(b, c))
  {
    var x, y, z := f.rep(a), f.rep(b), f.rep(c);
  }

  lemma MulOne<F(!new)>(f: Field<F>, a: F)
    requires f.Valid()
    ensures f.mul(a, f.One()) == a && f.mul(f.One(), a) == a
  {
    var x := f.rep(a);
    assert 1 * x == x;
  }

  lemma MulZero<F(!new)>(f: Field<F>, a: F)
    requires f.Valid()
    ensures f.mul(a, f.Zero()) == f.Zero() && f.mul(f.Zero(), a) == f.Zero()
  {
    var x := f.rep(a);
    assert 0 * x == 0;
  }

  lemma MulComm<F(!new)>(f: Field<F>, a: F, b: F)
    requires f.Valid()
    ensures f.mul(a, b) == f.mul(b, a)
  {
    var x, y := f.rep(a), f.rep(b);
    assert x * y == y * x;
  }

  lemma MulAssoc<F(!new)>(f: Field<F>, a: F, b: F, c: F)
    requires f.Valid()
    ensures f.mul(f.mul(a, b), c) == f.mul(a, f.mul(b, c))
  {
    var x, y, z := f.rep(a), f.rep(b), f.rep(c);
    assert (x * y) * z == x * (y * z);
  }

  lemma Distribute<F(!new)>(f: Field<F>, a: F, b: F, c: F)
    requires f.Valid()
    ensures f.mul(a, f.add(b, c)) == f.add(f.mul(a, b), f.mul(a, c))
    ensures f.mul(f.add(b, c), a) == f.add(f.mul(b, a), f.mul(c, a))
  {
    var x, y, z := f.rep(a), f.rep(b), f.rep(c);
    assert x * (y + z) == x * y + x * z;
    assert (y + z) * x == y * x + z * x;
  }

  lemma SubIsZero<F(!new)>(f: Field<F>, a: F, b: F)
    requires f.Valid()
    ensures f.Sub(a, b) == f.Zero() <==> a == b
  {
    var x, y := f.rep(a), f.rep(b);
    if f.Sub(a, b) == f.Zero() {
      assert f.add(f.Sub(a, b), b) == f.of((x - y) + y);
      assert f.add(f.Zero(), b) == f.of(0 + y);
    }
  }

  /** A field has no zero divisors. */
  lemma NoZeroDivisors<F(!new)>(f: Field<F>, a: F, b: F)
    requires f.Valid()
    ensures f.mul(a, b) == f.Zero() <==> a == f.Zero() || b == f.Zero()
  {
    MulZero(f, a);
    MulZero(f, b);
    if f.mul(a, b) == f.Zero() && a != f.Zero() {
      MulInverseLeft(f, a, b);
      MulZero(f, f.inv(a));
    }
  }

  lemma MulInverseLeft<F(!new)>(f: Field<F>, a: F, b: F)
    requires f.Valid() && a != f.Zero()
    ensures f.mul(f.inv(a), f.mul(a, b)) == b
    ensures f.mul(f.mul(b, a), f.inv(a)) == b
    ensures f.mul(f.inv(a), a) == f.One()
  {
    var i := f.inv(a);
    MulAssoc(f, i, a, b);
    MulAssoc(f, b, a, i);
    MulComm(f, i, a);
    MulOne(f, b);
  }

  lemma MulCancel<F(!new)>(f: Field<F>, a: F, b: F, c: F)
    requires f.Valid() && a != f.Zero()
    requires f.mul(a, b) == f.mul(a, c)
    ensures b == c
  {
    MulInverseLeft(f, a, b);
    MulInverseLeft(f, a, c);
  }

  lemma InverseUnique<F(!new)>(f: Field<F>, a: F, b: F)
    requires f.Valid() && f.mul(a, b) == f.One()
    ensures a != f.Zero() && b == f.inv(a)
  {
    MulZero(f, b);
    MulCancel(f, a, b, f.inv(a));
  }

  lemma InverseOfProduct<F(!new)>(f: Field<F>, a: F, b: F)
    requires f.Valid() && a != f.Zero() && b != f.Zero()
    ensures f.mul(a, b) != f.Zero() && f.inv(f.mul(a, b)) == f.mul(f.inv(a), f.inv(b))
  {
    var u, v := f.inv(a), f.inv(b);
    SwapMiddle(f, a, b, u, v);
    MulOne(f, f.One());
    InverseUnique(f, f.mul(a, b), f.mul(u, v));
  }

  lemma SwapMiddle<F(!new)>(f: Field<F>, a: F, b: F, c: F, d: F)
    requires f.Valid()
    ensures f.mul(f.mul(a, b), f.mul(c, d)) == f.mul(f.mul(a, c), f.mul(b, d))
  {
    var x, y, z, w := f.rep(a), f.rep(b), f.rep(c), f.rep(d);
    assert (x * y) * (z * w) == (x * z) * (y * w);
  }

  // ----- powers -----

  ghost function Pow<F(!new)>(f: Field<F>, a: F, n: nat): F {
    if n == 0 then f.One() else f.mul(a, Pow(f, a, n - 1))
  }

  lemma {:induction false} PowAdd<F(!new)>(f: Field<F>, a: F, m: nat, n: nat)
    requires f.Valid()
    ensures Pow(f, a, m + n) == f.mul(Pow(f, a, m), Pow(f, a, n))
  {
    if m == 0 {
      MulOne(f, Pow(f, a, n));
    } else {
      PowAdd(f, a, m - 1, n);
      MulAssoc(f, a, Pow(f, a, m - 1), Pow(f, a, n));
    }
  }

  lemma {:induction false} PowNonZero<F(!new)>(f: Field<F>, a: F, n: nat)
    requires f.Valid() && a != f.Zero()
    ensures Pow(f, a, n) != f.Zero()
  {
    if n > 0 {
      PowNonZero(f, a, n - 1);
      NoZeroDivisors(f, a, Pow(f, a, n - 1));
    }
  }

  lemma {:induction false} PowMul<F(!new)>(f: Field<F>, a: F, m: nat, n: nat)
    requires f.Valid()
    ensures Pow(f, Pow(f, a, m), n) == Pow(f, a, m * n)
  {
    if n == 0 {
      assert m * n == 0;
    } else {
      PowMul(f, a, m, n - 1);
      assert m * n == m + m * (n - 1);
      PowAdd(f, a, m, m * (n - 1));
    }
  }

  lemma {:induction false} PowOfOne<F(!new)>(f: Field<F>, n: nat)
    requires f.Valid()
    ensures Pow(f, f.One(), n) == f.One()
  {
    if n > 0 {
      PowOfOne(f, n - 1);
      MulOne(f, f.One());
    }
  }

  lemma {:induction false} PowOfProduct<F(!new)>(f: Field<F>, a: F, b: F, n: nat)
    requires f.Valid()
    ensures Pow(f, f.mul(a, b), n) == f.mul(Pow(f, a, n), Pow(f, b, n))
  {
    if n == 0 {
      MulOne(f, f.One());
    } else {
      PowOfProduct(f, a, b, n - 1);
      SwapMiddle(f, a, b, Pow(f, a, n - 1), Pow(f, b, n - 1));
    }
  }

  // ----- sums and products of lists -----

  ghost function Sum<F(!new)>(f: Field<F>, s: seq<F>): F {
    if s == [] then f.Zero() else f.add(Sum(f, s[..|s| - 1]), s[|s| - 1])
  }

  ghost function Prod<F(!new)>(f: Field<F>, s: seq<F>): F {
    if s == [] then f.One() else f.mul(Prod(f, s[..|s| - 1]), s[|s| - 1])
  }

  lemma ProdSnoc<F(!new)>(f: Field<F>, s: seq<F>, a: F)
    ensures Prod(f, s + [a]) == f.mul(Prod(f, s), a)
  {
    assert (s + [a])[..|s|] == s;
  }

  lemma {:induction false} SumConcat<F(!new)>(f: Field<F>, s: seq<F>, t: seq<F>)
    requires f.Valid()
    ensures Sum(f, s + t) == f.add(Sum(f, s), Sum(f, t))
  {
    if t == [] {
      assert s + t == s;
      AddZero(f, Sum(f, s));
    } else {
      var t' := t[..|t| - 1];
      SumConcat(f, s, t');
      assert (s + t)[..|s + t| - 1] == s + t';
      AddAssoc(f, Sum(f, s), Sum(f, t'), t[|t| - 1]);
    }
  }

  lemma {:induction false} ProdConcat<F(!new)>(f: Field<F>, s: seq<F>, t: seq<F>)
    requires f.Valid()
    ensures Prod(f, s + t) == f.mul(Prod(f, s), Prod(f, t))
  {
    if t == [] {
      assert s + t == s;
      MulOne(f, Prod(f, s));
    } else {
      var t' := t[..|t| - 1];
      ProdConcat(f, s, t');
      assert (s + t)[..|s + t| - 1] == s + t';
      MulAssoc(f, Prod(f, s), Prod(f, t'), t[|t| - 1]);
    }
  }

  lemma {:induction false} SumScale<F(!new)>(f: Field<F>, s: seq<F>, c: F)
    requires f.Valid()
    ensures f.mul(c, Sum(f, s)) == Sum(f, seq(|s|, i requires 0 <= i < |s| => f.mul(c, s[i])))
  {
    var t := seq(|s|, i requires 0 <= i < |s| => f.mul(c, s[i]));
    if s == [] {
      MulZero(f, c);
    } else {
      var s' := s[..|s| - 1];
      SumScale(f, s', c);
      assert t[..|t| - 1] == seq(|s'|, i requires 0 <= i < |s'| => f.mul(c, s'[i]));
      Distribute(f, c, Sum(f, s'), s[|s| - 1]);
    }
  }

  /** A product is zero exactly when one of its factors is. */
  lemma {:induction false} ProdZero<F(!new)>(f: Field<F>, s: seq<F>)
    requires f.Valid()
    ensures Prod(f, s) == f.Zero() <==> f.Zero() in s
  {
    if s != [] {
      var s', x := s[..|s| - 1], s[|s| - 1];
      ProdZero(f, s');
      NoZeroDivisors(f, Prod(f, s'), x);
      assert s == s' + [x];
    }
  }
}
