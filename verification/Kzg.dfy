/**
 Opening claims and multi-scalar multiplication. A G1 point is represented by its discrete
 logarithm, so that scalar multiplication is multiplication, point addition is addition, the
 identity is zero, the generator is one and a pairing product is a sum.
 */
module Kzg {
  import opened Fields
  import opened Polynomials

  /** Commitment slot `commitId` opens to `eval` at `point`. */
  datatype VerifierQuery<F> = VerifierQuery(commitId: nat, commitment: F, point: F, eval: F)

  function PointOf<F>(q: VerifierQuery<F>): F {
    q.point
  }

  function IdOf<F>(q: VerifierQuery<F>): nat {
    q.commitId
  }

  /** The G1 sides of the two pairs `(left, [tau])` and `(right, [1])`. */
  datatype PairingInput<F> = PairingInput(left: F, right: F)

  /** The pairing product is one exactly when this is zero. */
  ghost function PairingValue<F(!new)>(f: Field<F>, p: PairingInput<F>, tau: F): F {
    f.add(f.mul(tau, p.left), p.right)
  }

  ghost function Dot<F(!new)>(f: Field<F>, terms: seq<(F, F)>): F {
    if terms == [] then f.Zero()
    else
      var last := terms[|terms| - 1];
      f.add(Dot(f, terms[..|terms| - 1]), f.mul(last.0, last.1))
  }

  lemma DotSnoc<F(!new)>(f: Field<F>, terms: seq<(F, F)>, s: F, p: F)
    ensures Dot(f, terms + [(s, p)]) == f.add(Dot(f, terms), f.mul(s, p))
  {
    assert (terms + [(s, p)])[..|terms|] == terms;
  }

  lemma ScaledStep<F(!new)>(f: Field<F>, base: F, s: F, e: F, c: F, p: F)
    requires f.Valid()
    ensures f.add(f.add(base, f.mul(s, e)), f.mul(f.mul(s, p), c)) == f.add(base, f.mul(s, f.add(e, f.mul(c, p))))
  {
    var i, j, k, l, m := f.rep(base), f.rep(s), f.rep(e), f.rep(c), f.rep(p);
    assert (i + j * k) + (j * m) * l == i + j * (k + l * m);
  }

  /** Multi-scalar multiplication; skipping zero scalars and identity points preserves the sum. */
  method MsmG1<F(!new,==)>(f: Field<F>, terms: seq<(F, F)>) returns (sum: F)
    requires f.Valid()
    ensures sum == Dot(f, terms)
  {
    hide Field.Valid;
    var started := false;
    sum := f.Zero();
    for i := 0 to |terms|
      invariant sum == Dot(f, terms[..i])
      invariant !started ==> sum == f.Zero()
    {
      var (scalar, point) := terms[i];
      assert terms[..i + 1] == terms[..i] + [(scalar, point)];
      DotSnoc(f, terms[..i], scalar, point);
      MulZero(f, scalar);
      MulZero(f, point);
      AddZero(f, Dot(f, terms[..i]));
      if scalar == f.Zero() || point == f.Zero() {
        continue;
      }
      var term := f.mul(scalar, point);
      AddZero(f, term);
      sum := if started then f.add(sum, term) else term;
      started := true;
    }
    assert terms[..|terms|] == terms;
  }

  /** Negation; the identity is its own negative. */
  method NegG1<F(!new,==)>(f: Field<F>, p: F) returns (r: F)
    requires f.Valid()
    ensures r == f.neg(p)
  {
    if p == f.Zero() {
      return f.Zero();
    }
    return f.neg(p);
  }
}
