/**
 Machine words as the scalar field code uses them: 64-bit limbs that wrap, split into
 32-bit half-limbs, and the integers that little-endian lists of half-limbs denote.
 Masking with 0xffff_ffff is `% B`, shifting right by 32 is `/ B`, and or-ing a half-limb
 with another one shifted left by 32 is `lo + hi * B`.
 */
module HalfLimbs {

  const B: nat := 0x1_0000_0000
  const W: nat := 0x1_0000_0000_0000_0000

  type u64 = x: nat | x < 0x1_0000_0000_0000_0000

  /** Four 64-bit limbs, least significant first. */
  type Limbs = s: seq<u64> | |s| == 4 witness [0, 0, 0, 0]

  function WrappingAdd(a: u64, b: u64): u64 {
    (a + b) % W
  }

  function WrappingMul(a: u64, b: u64): u64 {
    (a * b) % W
  }

  /** Wrapping subtraction, with the borrow it needed. */
  function OverflowingSub(a: u64, b: u64): (r: (u64, bool))
    ensures r.0 == a - b + (if r.1 then W else 0)
  {
    ((a - b) % W, a < b)
  }

  /** The 32-bit multiply-accumulate at the heart of the inner loops. */
  function MulAdd(t: u64, a: u64, b: u64, carry: u64): u64 {
    WrappingAdd(WrappingAdd(t, WrappingMul(a, b)), carry)
  }

  /** On half-limbs no step of the multiply-accumulate wraps, which is what makes the
      wrapping operations safe. */
  lemma MulAddDoesNotWrap(t: u64, a: u64, b: u64, carry: u64)
    requires t < B && a < B && b < B && carry < B
    ensures WrappingMul(a, b) == a * b
    ensures WrappingAdd(t, WrappingMul(a, b)) == t + a * b
    ensures MulAdd(t, a, b, carry) == t + a * b + carry
    ensures (t + a * b + carry) / B < B
  {
    ProductBound(a, b, B - 1);
  }

  lemma ProductBound(a: nat, b: nat, c: nat)
    requires a <= c && b <= c
    ensures 0 <= a * b <= c * c
  {
    assert a * b <= c * b <= c * c;
  }

  ghost predicate AllHalf(s: seq<nat>) {
    forall i :: 0 <= i < |s| ==> s[i] < B
  }

  /** The integer a little-endian list of half-limbs denotes. */
  ghost function Val(s: seq<nat>): nat {
    if s == [] then 0 else s[0] + B * Val(s[1..])
  }

  ghost function PowB(k: nat): nat {
    if k == 0 then 1 else B * PowB(k - 1)
  }

  lemma {:induction false} ValSnoc(s: seq<nat>, x: nat)
    ensures Val(s + [x]) == Val(s) + x * PowB(|s|)
  {
    if s == [] {
      assert Val([x]) == x + B * Val([]);
    } else {
      ValSnoc(s[1..], x);
      assert (s + [x])[1..] == s[1..] + [x];
      var p := PowB(|s| - 1);
      assert B * (Val(s[1..]) + x * p) == B * Val(s[1..]) + x * (B * p);
    }
  }

  /** Extending a prefix by one position. */
  lemma ValPrefix(s: seq<nat>, j: nat)
    requires j < |s|
    ensures Val(s[..j + 1]) == Val(s[..j]) + s[j] * PowB(j)
  {
    assert s[..j + 1] == s[..j] + [s[j]];
    ValSnoc(s[..j], s[j]);
  }

  lemma {:induction false} ValBound(s: seq<nat>)
    requires AllHalf(s)
    ensures Val(s) < PowB(|s|)
  {
    if s != [] {
      ValBound(s[1..]);
      assert Val(s[1..]) + 1 <= PowB(|s| - 1);
    }
  }

  lemma PowB8()
    ensures PowB(8) == W * W * W * W
  {
    assert PowB(2) == B * B;
    assert PowB(4) == B * B * B * B;
    assert PowB(6) == B * B * B * B * B * B;
  }

  /** The integer four 64-bit limbs denote. */
  function LimbsVal(l: Limbs): nat {
    l[0] + W * l[1] + W * W * l[2] + W * W * W * l[3]
  }

  ghost function Halves(l: Limbs): (h: seq<nat>)
    ensures |h| == 8 && AllHalf(h)
  {
    [l[0] % B, l[0] / B, l[1] % B, l[1] / B, l[2] % B, l[2] / B, l[3] % B, l[3] / B]
  }

  /** Splitting into half-limbs does not change the number. */
  lemma HalvesVal(h: seq<nat>)
    requires |h| == 8
    ensures Val(h) == h[0] + B * h[1] + W * (h[2] + B * h[3])
                      + W * W * (h[4] + B * h[5]) + W * W * W * (h[6] + B * h[7])
  {
    hide Val;
    TwoDigits(h);
    TwoDigits(h[2..]);
    TwoDigits(h[4..]);
    TwoDigits(h[6..]);
    assert h[2..][2..] == h[4..] && h[4..][2..] == h[6..] && h[6..][2..] == [];
    NoDigits();
  }

  lemma TwoDigits(h: seq<nat>)
    requires |h| >= 2
    ensures Val(h) == h[0] + B * (h[1] + B * Val(h[2..]))
  {
    assert h[1..][1..] == h[2..];
    assert Val(h) == h[0] + B * Val(h[1..]);
    assert Val(h[1..]) == h[1] + B * Val(h[1..][1..]);
  }

  lemma NoDigits()
    ensures Val([]) == 0
  {
  }

  lemma SplitKeepsValue(l: Limbs)
    ensures Val(Halves(l)) == LimbsVal(l)
  {
    HalvesVal(Halves(l));
  }

  method SplitIntoHalfLimbs(limbs: Limbs) returns (out: array<u64>)
    ensures fresh(out) && out.Length == 8
    ensures out[..] == Halves(limbs)
  {
    out := new u64[8](_ => 0);
    var i := 0;
    while i < 4
      invariant 0 <= i <= 4
      invariant forall k :: 0 <= k < i ==> out[2 * k] == limbs[k] % B && out[2 * k + 1] == limbs[k] / B
    {
      out[2 * i] := limbs[i] % B;
      out[2 * i + 1] := limbs[i] / B;
      i := i + 1;
    }
    assert out[0] == limbs[0] % B && out[1] == limbs[0] / B by { assert out[2 * 0] == limbs[0] % B; }
    assert out[2] == limbs[1] % B && out[3] == limbs[1] / B by { assert out[2 * 1] == limbs[1] % B; }
    assert out[4] == limbs[2] % B && out[5] == limbs[2] / B by { assert out[2 * 2] == limbs[2] % B; }
    assert out[6] == limbs[3] % B && out[7] == limbs[3] / B by { assert out[2 * 3] == limbs[3] % B; }
  }

  /** `left >= right` as integers, decided at the most significant differing limb. */
  method Ge(left: Limbs, right: Limbs) returns (r: bool)
    ensures r == (LimbsVal(left) >= LimbsVal(right))
  {
    var i := 4;
    while i > 0
      invariant 0 <= i <= 4
      invariant left[i..] == right[i..]
    {
      i := i - 1;
      if left[i] > right[i] {
        return true;
      }
      if left[i] < right[i] {
        return false;
      }
    }
    return true;
  }

  /** The lowest `i` limbs of a number. */
  ghost function Low(s: seq<u64>, i: nat): nat
    requires i <= |s| == 4
  {
    if i == 0 then 0 else Low(s, i - 1) + s[i - 1] * PowW(i - 1)
  }

  ghost function PowW(k: nat): nat {
    if k == 0 then 1 else W * PowW(k - 1)
  }

  lemma {:induction false} LowSame(s: seq<u64>, t: seq<u64>, i: nat)
    requires i <= |s| == |t| == 4 && s[..i] == t[..i]
    ensures Low(s, i) == Low(t, i)
  {
    if i > 0 {
      assert s[..i][i - 1] == t[..i][i - 1];
      assert s[..i - 1] == s[..i][..i - 1] == t[..i][..i - 1] == t[..i - 1];
      LowSame(s, t, i - 1);
    }
  }

  lemma LowAll(s: Limbs)
    ensures Low(s, 4) == LimbsVal(s) && PowW(4) == W * W * W * W
  {
    assert PowW(1) == W && PowW(2) == W * W && PowW(3) == W * W * W;
    assert Low(s, 1) == s[0];
    assert Low(s, 2) == s[0] + s[1] * W;
    assert Low(s, 3) == s[0] + s[1] * W + s[2] * (W * W);
  }

  lemma BorrowStep(p: nat, a: u64, b: u64, borrow: nat, d: u64, borrow': nat, x: int, y: int, z: int)
    requires d == a - b - borrow + W * borrow'
    requires x == y - z + p * borrow
    ensures x + d * p == y + a * p - (z + b * p) + W * p * borrow'
  {
    assert d * p == a * p - b * p - borrow * p + W * borrow' * p;
  }

  lemma LimbsBound(l: Limbs)
    ensures LimbsVal(l) < W * W * W * W
  {
  }

  lemma ModWhenInRange(r: nat, x: int, k: int)
    requires r < W * W * W * W && r == x + W * W * W * W * k
    ensures r == x % (W * W * W * W)
  {
  }

  /** In-place subtraction with borrow: exact modulo 2^256, whatever the operands. */
  method SubAssign(left: array<u64>, right: Limbs)
    requires left.Length == 4
    modifies left
    ensures LimbsVal(left[..]) == (old(LimbsVal(left[..])) - LimbsVal(right)) % (W * W * W * W)
  {
    ghost var was := left[..];
    var borrow: u64 := 0;
    var i := 0;
    hide OverflowingSub, LimbsVal;
    while i < 4
      invariant 0 <= i <= 4
      invariant borrow <= 1
      invariant left[i..] == was[i..]
      invariant Low(left[..], i) == Low(was, i) - Low(right, i) + PowW(i) * borrow
    {
      ghost var before := left[..];
      ghost var borrow0 := borrow;
      assert left[i..][0] == was[i..][0];
      var (tmp, borrow1) := OverflowingSub(left[i], right[i]);
      var (tmp2, borrow2) := OverflowingSub(tmp, borrow);
      left[i] := tmp2;
      borrow := if borrow1 || borrow2 then 1 else 0;
      LowSame(before, left[..], i);
      BorrowStep(PowW(i), was[i], right[i], borrow0, tmp2, borrow,
                 Low(before, i), Low(was, i), Low(right, i));
      i := i + 1;
    }
    LowAll(left[..]);
    LowAll(was);
    LowAll(right);
    LimbsBound(left[..]);
    ModWhenInRange(LimbsVal(left[..]), LimbsVal(was) - LimbsVal(right), borrow);
  }
}
