/** Powers of two and halving. */
module PowersOfTwo {

  function Pow2(k: nat): (n: nat)
    ensures n > 0
  {
    if k == 0 then 1 else 2 * Pow2(k - 1)
  }

  /** n shifted right by l bits. */
  function Ancestor(n: nat, l: nat): (a: nat)
  {
    if l == 0 then n else Ancestor(n / 2, l - 1)
  }

  lemma {:induction false} NextAncestor(n: nat, l: nat)
    ensures Ancestor(n, l + 1) == Ancestor(n, l) / 2
  {
    if l > 0 {
      NextAncestor(n / 2, l - 1);
    }
  }

  lemma {:induction false} TopAncestor(n: nat, l: nat)
    requires n < Pow2(l)
    ensures Ancestor(n, l) == 0
  {
    if l > 0 {
      TopAncestor(n / 2, l - 1);
    }
  }

  /** Position of the highest set bit. */
  function Ilog2(n: nat): (l: nat)
    requires n > 0
    ensures Pow2(l) <= n < 2 * Pow2(l)
  {
    if n == 1 then 0 else 1 + Ilog2(n / 2)
  }

  lemma {:induction false} Pow2Grows(a: nat, b: nat)
    requires a < b
    ensures 2 * Pow2(a) <= Pow2(b)
  {
    if a + 1 < b {
      Pow2Grows(a, b - 1);
    }
  }

  lemma Ilog2Unique(n: nat, a: nat)
    requires Pow2(a) <= n < 2 * Pow2(a)
    ensures Ilog2(n) == a
  {
    var l := Ilog2(n);
    if l < a {
      Pow2Grows(l, a);
    } else if a < l {
      Pow2Grows(a, l);
    }
  }

  lemma Ilog2Bound(n: nat, k: nat)
    requires 1 <= n < 2 * Pow2(k)
    ensures Ilog2(n) <= k
  {
    if Ilog2(n) > k {
      Pow2Grows(k, Ilog2(n));
    }
  }
}
