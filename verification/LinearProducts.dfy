/** Products of linear factors as polynomials: a list of points is determined, up to order, by the value
    of the product of `x - p` at more x than there are points. */
module LinearProducts {
  import opened Fields
  import opened Polynomials
  import opened Interpolation
  import opened Vanishing

  /** A duplicate-free part of a list is not longer than the list. */
  lemma {:induction false} PartIsShorter<T(!new)>(part: seq<T>, all: seq<T>)
    requires Distinct(part) && Distinct(all) && forall x :: x in part ==> x in all
    ensures |part| <= |all|
  {
    if part != [] {
      var x := part[|part| - 1];
      assert x in part;
      var k :| 0 <= k < |all| && all[k] == x;
      WithoutElements(all, k);
      var init := part[..|part| - 1];
      forall z | z in init ensures z in Without(all, k) {
        assert z in part && z != x;
      }
      PartIsShorter(init, Without(all, k));
    }
  }

  // ----- multiplication by linear factors -----

  ghost function TimesAll<F(!new)>(f: Field<F>, c: seq<F>, points: seq<F>): (d: seq<F>)
    ensures |d| == |c| + |points|
  {
    if points == [] then c
    else TimesLinear(f, TimesAll(f, c, points[..|points| - 1]), points[|points| - 1], f.Zero())
  }

  lemma {:induction false} EvalTimesAll<F(!new)>(f: Field<F>, c: seq<F>, points: seq<F>, x: F)
    requires f.Valid()
    ensures Eval(f, TimesAll(f, c, points), x) == f.mul(Eval(f, c, x), Vanish(f, points, x))
  {
    hide Field.Valid, Eval, TimesLinear;
    if points == [] {
      MulOne(f, Eval(f, c, x));
    } else {
      var init, p := points[..|points| - 1], points[|points| - 1];
      EvalTimesAll(f, c, init, x);
      EvalTimesLinear(f, TimesAll(f, c, init), p, f.Zero(), x);
      AddZero(f, f.mul(f.mul(Eval(f, c, x), Vanish(f, init, x)), f.Sub(x, p)));
      MulAssoc(f, Eval(f, c, x), Vanish(f, init, x), f.Sub(x, p));
    }
  }

  // ----- the points are the roots -----

  lemma EvalOne<F(!new)>(f: Field<F>, x: F)
    requires f.Valid()
    ensures Eval(f, [f.One()], x) == f.One()
  {
    assert [f.One()][1..] == [];
    MulZero(f, x);
    AddZero(f, f.One());
  }

  /** Two products of as many factors that agree at more points than that agree everywhere. */
  lemma VanishAgrees<F(!new)>(f: Field<F>, a: seq<F>, b: seq<F>, xs: seq<F>, x: F)
    requires f.Valid() && |a| == |b| < |xs| && Distinct(xs)
    requires forall i :: 0 <= i < |xs| ==> Vanish(f, a, xs[i]) == Vanish(f, b, xs[i])
    ensures Vanish(f, a, x) == Vanish(f, b, x)
  {
    hide Field.Valid, Eval, Vanish, TimesAll;
    var p, q := TimesAll(f, [f.One()], a), TimesAll(f, [f.One()], b);
    forall i | 0 <= i < |xs| ensures Eval(f, p, xs[i]) == Eval(f, q, xs[i]) {
      ProductValue(f, a, xs[i]);
      ProductValue(f, b, xs[i]);
    }
    InterpolationUnique(f, p, q, xs);
    ProductValue(f, a, x);
    ProductValue(f, b, x);
  }

  lemma ProductValue<F(!new)>(f: Field<F>, a: seq<F>, x: F)
    requires f.Valid()
    ensures Eval(f, TimesAll(f, [f.One()], a), x) == Vanish(f, a, x)
  {
    hide Field.Valid, Eval, Vanish, TimesAll;
    EvalTimesAll(f, [f.One()], a, x);
    EvalOne(f, x);
    MulOne(f, Vanish(f, a, x));
  }

  /** A list that contains p, as p and the rest. */
  lemma TakeOut<T(!new)>(s: seq<T>, k: nat)
    requires k < |s|
    ensures multiset(s) == multiset(Without(s, k)) + multiset{s[k]}
  {
    assert s == s[..k] + [s[k]] + s[k + 1..];
  }

  /** xs without p: at most one point is lost. */
  lemma Avoid<F(!new)>(xs: seq<F>, p: F) returns (ys: seq<F>)
    requires Distinct(xs) && xs != []
    ensures Distinct(ys) && |ys| >= |xs| - 1 && p !in ys && forall y :: y in ys ==> y in xs
  {
    if i :| 0 <= i < |xs| && xs[i] == p {
      WithoutElements(xs, i);
      ys := Without(xs, i);
    } else {
      ys := xs;
    }
  }

  /** The products of two lists of as many points agree at more x than that exactly when the lists are
      permutations of each other. */
  lemma {:induction false} VanishDetermines<F(!new)>(f: Field<F>, a: seq<F>, b: seq<F>, xs: seq<F>)
    requires f.Valid() && |a| == |b| < |xs| && Distinct(xs)
    requires forall i :: 0 <= i < |xs| ==> Vanish(f, a, xs[i]) == Vanish(f, b, xs[i])
    ensures multiset(a) == multiset(b)
    decreases |a|
  {
    hide Field.Valid, Vanish;
    if a != [] {
      var n := |a| - 1;
      var init, p := a[..n], a[n];
      assert a == init + [p];
      assert p in a;
      VanishAgrees(f, a, b, xs, p);
      VanishZero(f, a, p);
      VanishZero(f, b, p);
      var k :| 0 <= k < |b| && b[k] == p;
      var ys := Avoid(xs, p);
      forall i | 0 <= i < |ys| ensures Vanish(f, init, ys[i]) == Vanish(f, Without(b, k), ys[i]) {
        assert ys[i] in ys;
        var j :| 0 <= j < |xs| && xs[j] == ys[i];
        VanishSnoc(f, init, p, ys[i]);
        VanishRemove(f, b, k, ys[i]);
        CancelFactor(f, Vanish(f, init, ys[i]), Vanish(f, Without(b, k), ys[i]), ys[i], p);
      }
      VanishDetermines(f, init, Without(b, k), ys);
      TakeOut(b, k);
    }
  }

  lemma CancelFactor<F(!new)>(f: Field<F>, u: F, v: F, x: F, p: F)
    requires f.Valid() && x != p && f.mul(u, f.Sub(x, p)) == f.mul(v, f.Sub(x, p))
    ensures u == v
  {
    hide Field.Valid;
    SubIsZero(f, x, p);
    MulInverseLeft(f, f.Sub(x, p), u);
    MulInverseLeft(f, f.Sub(x, p), v);
  }

  /** The order of the points does not matter. */
  lemma {:induction false} VanishPermuted<F(!new)>(f: Field<F>, a: seq<F>, b: seq<F>, x: F)
    requires f.Valid() && multiset(a) == multiset(b)
    ensures Vanish(f, a, x) == Vanish(f, b, x)
    decreases |a|
  {
    hide Field.Valid, Vanish;
    SameLength(a, b);
    if a == [] {
      assert b == [];
    } else {
      var n := |a| - 1;
      var init, p := a[..n], a[n];
      assert a == init + [p];
      assert p in multiset(b);
      var k :| 0 <= k < |b| && b[k] == p;
      TakeOut(b, k);
      assert multiset(init) == multiset(a) - multiset{p};
      VanishPermuted(f, init, Without(b, k), x);
      VanishSnoc(f, init, p, x);
      VanishRemove(f, b, k, x);
    }
  }

  lemma SameLength<T>(a: seq<T>, b: seq<T>)
    requires multiset(a) == multiset(b)
    ensures |a| == |b|
  {
    assert |multiset(a)| == |a| && |multiset(b)| == |b|;
  }

  // ----- permutations and maps -----

  ghost function Mapped<A, B>(s: seq<A>, m: A -> B): (t: seq<B>)
    ensures |t| == |s| && forall i :: 0 <= i < |s| ==> t[i] == m(s[i])
  {
    seq(|s|, i requires 0 <= i < |s| => m(s[i]))
  }

  lemma MappedWithout<A(!new), B(!new)>(s: seq<A>, k: nat, m: A -> B)
    requires k < |s|
    ensures Mapped(Without(s, k), m) == Without(Mapped(s, m), k)
    ensures multiset(Mapped(s, m)) == multiset(Mapped(Without(s, k), m)) + multiset{m(s[k])}
  {
    assert Mapped(Without(s, k), m) == Without(Mapped(s, m), k);
    TakeOut(Mapped(s, m), k);
  }

  lemma {:induction false} MappedPermuted<A(!new), B(!new)>(s: seq<A>, t: seq<A>, m: A -> B)
    requires multiset(s) == multiset(t)
    ensures multiset(Mapped(s, m)) == multiset(Mapped(t, m))
    decreases |s|
  {
    SameLength(s, t);
    if s != [] {
      var n := |s| - 1;
      assert s[n] in multiset(t);
      var k :| 0 <= k < |t| && t[k] == s[n];
      TakeOut(s, n);
      TakeOut(t, k);
      assert multiset(Without(s, n)) == multiset(s) - multiset{s[n]};
      assert multiset(Without(t, k)) == multiset(t) - multiset{s[n]};
      MappedPermuted(Without(s, n), Without(t, k), m);
      MappedWithout(s, n, m);
      MappedWithout(t, k, m);
    } else {
      assert t == [];
    }
  }

  /** Duplicate-free lists of the same length, one contained in the other, are permutations. */
  lemma {:induction false} SameElements<T(!new)>(a: seq<T>, b: seq<T>)
    requires Distinct(a) && Distinct(b) && |a| == |b| && forall x :: x in a ==> x in b
    ensures multiset(a) == multiset(b)
  {
    if a != [] {
      var n := |a| - 1;
      assert a[n] in a;
      var k :| 0 <= k < |b| && b[k] == a[n];
      WithoutElements(a, n);
      WithoutElements(b, k);
      SameElements(Without(a, n), Without(b, k));
      TakeOut(a, n);
      TakeOut(b, k);
    }
  }

  /** Among more values than slots two share a slot. */
  lemma Pigeonhole(ks: seq<nat>, n: nat) returns (i: nat, j: nat)
    requires |ks| > n && forall k :: 0 <= k < |ks| ==> ks[k] < n
    ensures i < j < |ks| && ks[i] == ks[j]
  {
    if Distinct(ks) {
      var slots: seq<nat> := seq(n, k => k);
      forall x | x in ks ensures x in slots {
        assert slots[x] == x;
      }
      PartIsShorter(ks, slots);
      assert false;
    }
    i, j :| 0 <= i < j < |ks| && ks[i] == ks[j];
  }
}
