/** Products of linear factors over point lists, and how the factor of a sub-list normalises. */
module Vanishing {
  import opened Fields
  import opened Polynomials

  /** The product of `x - p` over the points. */
  ghost function Vanish<F(!new)>(f: Field<F>, points: seq<F>, x: F): F {
    if points == [] then f.One()
    else f.mul(Vanish(f, points[..|points| - 1], x), f.Sub(x, points[|points| - 1]))
  }

  lemma VanishSnoc<F(!new)>(f: Field<F>, points: seq<F>, p: F, x: F)
    ensures Vanish(f, points + [p], x) == f.mul(Vanish(f, points, x), f.Sub(x, p))
  {
    assert (points + [p])[..|points|] == points;
  }

  lemma {:induction false} VanishZero<F(!new)>(f: Field<F>, points: seq<F>, x: F)
    requires f.Valid()
    ensures Vanish(f, points, x) == f.Zero() <==> x in points
  {
    hide Field.Valid;
    if points == [] {
      ZeroNotOne(f);
    } else {
      var init, p := points[..|points| - 1], points[|points| - 1];
      VanishZero(f, init, x);
      NoZeroDivisors(f, Vanish(f, init, x), f.Sub(x, p));
      SubIsZero(f, x, p);
      assert points == init + [p];
    }
  }

  lemma ZeroNotOne<F(!new)>(f: Field<F>)
    requires f.Valid()
    ensures f.Zero() != f.One()
  {
  }

  /** The points of `all` that are not in `points`, in order. */
  ghost function Diff<F(!new)>(all: seq<F>, points: seq<F>): (d: seq<F>)
    ensures forall x :: x in d <==> x in all && x !in points
  {
    if all == [] then []
    else
      var init, p := all[..|all| - 1], all[|all| - 1];
      assert all == init + [p];
      if p in points then Diff(init, points) else Diff(init, points) + [p]
  }

  lemma {:induction false} DiffIgnores<F(!new)>(all: seq<F>, a: seq<F>, b: seq<F>)
    requires forall x :: x in all ==> (x in a <==> x in b)
    ensures Diff(all, a) == Diff(all, b)
  {
    if all != [] {
      assert forall x :: x in all[..|all| - 1] ==> x in all;
      DiffIgnores(all[..|all| - 1], a, b);
    }
  }

  lemma HasElement<T(!new)>(s: seq<T>)
    requires s != []
    ensures exists x :: x in s
  {
    assert s[0] in s;
  }

  ghost function Without<F>(s: seq<F>, k: nat): (r: seq<F>)
    requires k < |s|
    ensures |r| == |s| - 1
  {
    s[..k] + s[k + 1..]
  }

  lemma WithoutElements<F>(s: seq<F>, k: nat)
    requires k < |s| && Distinct(s)
    ensures Distinct(Without(s, k)) && forall x :: x in Without(s, k) <==> x in s && x != s[k]
  {
    var r := Without(s, k);
    forall x | x in s && x != s[k] ensures x in r {
      var i :| 0 <= i < |s| && s[i] == x;
      assert r[if i < k then i else i - 1] == x;
    }
  }

  lemma {:induction false} VanishRemove<F(!new)>(f: Field<F>, points: seq<F>, k: nat, x: F)
    requires f.Valid() && k < |points|
    ensures Vanish(f, points, x) == f.mul(Vanish(f, Without(points, k), x), f.Sub(x, points[k]))
  {
    hide Field.Valid;
    var n := |points| - 1;
    if k == n {
      assert Without(points, k) == points[..n];
    } else {
      var init, p := points[..n], points[n];
      VanishRemove(f, init, k, x);
      assert Without(points, k) == Without(init, k) + [p];
      VanishSnoc(f, Without(init, k), p, x);
      SwapFactors(f, Vanish(f, Without(init, k), x), f.Sub(x, points[k]), f.Sub(x, p));
    }
  }

  lemma SwapFactors<F(!new)>(f: Field<F>, a: F, b: F, c: F)
    requires f.Valid()
    ensures f.mul(f.mul(a, b), c) == f.mul(f.mul(a, c), b)
  {
    var x, y, z := f.rep(a), f.rep(b), f.rep(c);
    assert (x * y) * z == (x * z) * y;
  }

  /** The factors of a list are those of a sub-list and those of the rest. */
  lemma {:induction false} VanishSplit<F(!new)>(f: Field<F>, all: seq<F>, points: seq<F>, x: F)
    requires f.Valid() && Distinct(all) && Distinct(points) && forall p :: p in points ==> p in all
    ensures Vanish(f, all, x) == f.mul(Vanish(f, Diff(all, points), x), Vanish(f, points, x))
    decreases |all|
  {
    hide Field.Valid;
    if all == [] {
      if points != [] {
        HasElement(points);
      }
      MulOne(f, f.One());
    } else {
      var init, p := all[..|all| - 1], all[|all| - 1];
      assert all == init + [p];
      if p in points {
        var k :| 0 <= k < |points| && points[k] == p;
        var rest := Without(points, k);
        WithoutElements(points, k);
        VanishSplit(f, init, rest, x);
        DiffIgnores(init, points, rest);
        VanishRemove(f, points, k, x);
        MulAssoc(f, Vanish(f, Diff(init, points), x), Vanish(f, rest, x), f.Sub(x, p));
      } else {
        VanishSplit(f, init, points, x);
        VanishSnoc(f, Diff(init, points), p, x);
        SwapFactors(f, Vanish(f, Diff(init, points), x), Vanish(f, points, x), f.Sub(x, p));
      }
    }
  }

  // ----- division by several linear factors -----

  ghost function DivideAll<F(!new)>(f: Field<F>, c: seq<F>, points: seq<F>): seq<F> {
    if points == [] then c
    else Quotient(f, DivideAll(f, c, points[..|points| - 1]), points[|points| - 1])
  }

  /** A polynomial that vanishes at distinct points is a multiple of their linear factors. */
  lemma {:induction false} ExactDivision<F(!new)>(f: Field<F>, c: seq<F>, points: seq<F>, x: F)
    requires f.Valid() && Distinct(points)
    requires forall p :: p in points ==> Eval(f, c, p) == f.Zero()
    ensures Eval(f, c, x) == f.mul(Eval(f, DivideAll(f, c, points), x), Vanish(f, points, x))
  {
    hide Field.Valid, Eval, Quotient;
    if points == [] {
      MulOne(f, Eval(f, c, x));
    } else {
      var init, p := points[..|points| - 1], points[|points| - 1];
      assert points == init + [p];
      var q := DivideAll(f, c, init);
      ExactDivision(f, c, init, x);
      ExactDivision(f, c, init, p);
      VanishZero(f, init, p);
      NoZeroDivisors(f, Eval(f, q, p), Vanish(f, init, p));
      Division(f, q, p, x);
      AddZero(f, f.mul(f.Sub(x, p), Eval(f, Quotient(f, q, p), x)));
      Rearrange(f, f.Sub(x, p), Eval(f, Quotient(f, q, p), x), Vanish(f, init, x));
    }
  }

  lemma Rearrange<F(!new)>(f: Field<F>, a: F, b: F, c: F)
    requires f.Valid()
    ensures f.mul(f.mul(a, b), c) == f.mul(b, f.mul(c, a))
  {
    var x, y, z := f.rep(a), f.rep(b), f.rep(c);
    assert (x * y) * z == y * (z * x);
  }

  // ----- linear combinations of polynomials of any length -----

  /** `a + s * b`. */
  ghost function Combine<F(!new)>(f: Field<F>, a: seq<F>, b: seq<F>, s: F): seq<F> {
    var n := if |a| < |b| then |b| else |a|;
    AddScaled(f, Padded(f, a, n), Padded(f, b, n), s)
  }

  lemma EvalCombine<F(!new)>(f: Field<F>, a: seq<F>, b: seq<F>, s: F, x: F)
    requires f.Valid()
    ensures Eval(f, Combine(f, a, b, s), x) == f.add(Eval(f, a, x), f.mul(Eval(f, b, x), s))
  {
    hide Field.Valid, Eval, AddScaled;
    var n := if |a| < |b| then |b| else |a|;
    EvalAddScaled(f, Padded(f, a, n), Padded(f, b, n), s, x);
    EvalPadded(f, a, n - |a|, x);
    EvalPadded(f, b, n - |b|, x);
  }

  ghost function Difference<F(!new)>(f: Field<F>, a: seq<F>, b: seq<F>): seq<F> {
    Combine(f, a, b, f.neg(f.One()))
  }

  lemma EvalDifference<F(!new)>(f: Field<F>, a: seq<F>, b: seq<F>, x: F)
    requires f.Valid()
    ensures Eval(f, Difference(f, a, b), x) == f.Sub(Eval(f, a, x), Eval(f, b, x))
  {
    hide Field.Valid, Eval, Combine;
    EvalCombine(f, a, b, f.neg(f.One()), x);
    TimesMinusOne(f, Eval(f, b, x));
  }

  lemma TimesMinusOne<F(!new)>(f: Field<F>, a: F)
    requires f.Valid()
    ensures f.mul(a, f.neg(f.One())) == f.neg(a)
  {
    var x := f.rep(a);
    assert x * -1 == -x;
  }
}
