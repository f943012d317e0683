/**
 Montgomery multiplication over eight half-limbs, coarsely integrated operand scanning:
 each outer step adds one row `a[i] * right` to the accumulator and then divides it by 2^32,
 after adding the multiple of the modulus that makes the division exact.
 */
module Montgomery {
  import opened HalfLimbs

  /** The BN254 scalar field modulus, as limbs and as an integer. */
  const MODULUS_64: Limbs := [0x43e1f593f0000001, 0x2833e84879b97091, 0xb85045b68181585d, 0x30644e72e131a029]
  const MODULUS: nat := 0x30644e72e131a029b85045b68181585d2833e84879b9709143e1f593f0000001
  const MODULUS_32: seq<u64> :=
    [0xf0000001, 0x43e1f593, 0x79b97091, 0x2833e848, 0x8181585d, 0xb85045b6, 0xe131a029, 0x30644e72]

  /** -1/MODULUS modulo 2^32. */
  const MONT_INV_LOW_32_BITS: u64 := 0xefffffff

  /** The Montgomery radix. */
  const R: nat := W * W * W * W

  lemma ModulusForms()
    ensures LimbsVal(MODULUS_64) == MODULUS && Halves(MODULUS_64) == MODULUS_32
    ensures |MODULUS_32| == 8 && AllHalf(MODULUS_32) && Val(MODULUS_32) == MODULUS
    ensures 0 < 2 * MODULUS < R
  {
    SplitKeepsValue(MODULUS_64);
  }

  /** The quotient digit that makes the low half-limb vanish. */
  function QuotientDigit(t0: u64): (m: u64)
    ensures m < B
  {
    WrappingMul(t0, MONT_INV_LOW_32_BITS) % B
  }

  lemma QuotientDigitClears(t0: u64)
    requires t0 < B
    ensures (t0 + QuotientDigit(t0) * MODULUS_32[0]) % B == 0
  {
    ProductBound(t0, MONT_INV_LOW_32_BITS, B - 1);
    var full := t0 * MONT_INV_LOW_32_BITS;
    assert WrappingMul(t0, MONT_INV_LOW_32_BITS) == full;
    var m := full % B;
    var q := full / B;
    assert MONT_INV_LOW_32_BITS * MODULUS_32[0] == 0xE1000000 * B - 1;
    assert t0 + m * MODULUS_32[0] == B * (t0 * 0xE1000000 - q * MODULUS_32[0]);
  }

  /** Products and remainders of one position, as integers: splitting `tmp` into a digit and
      a carry loses nothing. */
  lemma SplitStep(p: nat, tmp: nat)
    ensures (tmp % B) * p + (tmp / B) * (B * p) == tmp * p
  {
    assert tmp == tmp % B + (tmp / B) * B;
  }

  lemma RowArithmetic(p: nat, x: nat, carry: nat, y: nat, ai: nat, z: nat, w: nat, bj: nat, tmp: nat)
    requires x + carry * p == y + ai * z
    requires tmp == w + ai * bj + carry
    ensures x + tmp * p == (y + w * p) + ai * (z + bj * p)
  {
    assert tmp * p == w * p + ai * (bj * p) + carry * p;
    assert ai * (z + bj * p) == ai * z + ai * (bj * p);
  }

  /** One position of the row `ai * b` added to `was`: digits below `j` and the carry hold the
      exact partial sum. */
  lemma RowStep(was: seq<nat>, b: seq<nat>, t: seq<nat>, t': seq<nat>, j: nat, ai: nat, carry: nat, tmp: nat)
    requires |was| == |b| == |t| == |t'| && j < |t|
    requires Val(t[..j]) + carry * PowB(j) == Val(was[..j]) + ai * Val(b[..j])
    requires tmp == was[j] + ai * b[j] + carry
    requires t'[..j] == t[..j] && t'[j] == tmp % B
    ensures Val(t'[..j + 1]) + (tmp / B) * PowB(j + 1) == Val(was[..j + 1]) + ai * Val(b[..j + 1])
  {
    ValPrefix(t', j);
    ValPrefix(was, j);
    ValPrefix(b, j);
    SplitStep(PowB(j), tmp);
    RowArithmetic(PowB(j), Val(t[..j]), carry, Val(was[..j]), ai, Val(b[..j]), was[j], b[j], tmp);
  }

  lemma EmptyPrefix(s: seq<nat>)
    ensures Val(s[..0]) == 0 && PowB(0) == 1
  {
  }

  /** The first inner loop: add `ai * b` to the accumulator, returning the carry out. */
  method AddRow(t: array<u64>, ai: u64, b: seq<u64>) returns (carry: u64)
    requires t.Length == |b| == 8
    requires AllHalf(t[..]) && AllHalf(b) && ai < B
    modifies t
    ensures AllHalf(t[..]) && carry < B
    ensures Val(t[..]) + carry * PowB(8) == old(Val(t[..])) + ai * Val(b)
  {
    hide MulAdd, WrappingMul, WrappingAdd, Val, PowB;
    ghost var was := t[..];
    carry := 0;
    var j := 0;
    EmptyPrefix(was);
    EmptyPrefix(b);
    assert t[..0] == was[..0];
    while j < 8
      invariant 0 <= j <= 8 && carry < B
      invariant AllHalf(t[..])
      invariant t[j..] == was[j..]
      invariant Val(t[..j]) + carry * PowB(j) == Val(was[..j]) + ai * Val(b[..j])
    {
      ghost var before := t[..];
      assert t[j] == t[j..][0] == was[j];
      MulAddDoesNotWrap(t[j], ai, b[j], carry);
      var tmp := MulAdd(t[j], ai, b[j], carry);
      t[j] := tmp % B;
      RowStep(was, b, before, t[..], j, ai, carry, tmp);
      carry := tmp / B;
      j := j + 1;
    }
    assert t[..8] == t[..] && was[..8] == was && b[..8] == b;
  }

  lemma Regroup(b: nat, v: nat, d: nat, p: nat)
    ensures b * (v + d * p) == b * v + d * (b * p)
  {
  }

  /** One position of `was + m * modulus`, written one position lower. */
  lemma ReduceStep(was: seq<nat>, t: seq<nat>, t': seq<nat>, j: nat, m: nat, carry: nat, tmp: nat)
    requires |was| == |t| == |t'| == 8 && 1 <= j < 8
    requires B * Val(t[..j - 1]) + carry * PowB(j) == Val(was[..j]) + m * Val(MODULUS_32[..j])
    requires tmp == was[j] + m * MODULUS_32[j] + carry
    requires t'[..j - 1] == t[..j - 1] && t'[j - 1] == tmp % B
    ensures B * Val(t'[..j]) + (tmp / B) * PowB(j + 1) == Val(was[..j + 1]) + m * Val(MODULUS_32[..j + 1])
  {
    ModulusForms();
    hide MODULUS_32, Val, PowB;
    PowStep(j);
    ValPrefix(t', j - 1);
    ValPrefix(was, j);
    ValPrefix(MODULUS_32, j);
    SplitStep(PowB(j), tmp);
    PowStep(j - 1);
    Regroup(B, Val(t[..j - 1]), tmp % B, PowB(j - 1));
    RowArithmetic(PowB(j), B * Val(t[..j - 1]), carry, Val(was[..j]), m, Val(MODULUS_32[..j]), was[j], MODULUS_32[j], tmp);
  }

  lemma ReduceStart(was: seq<nat>, m: nat)
    requires |was| == 8 && (was[0] + m * MODULUS_32[0]) % B == 0
    ensures B * Val([]) + ((was[0] + m * MODULUS_32[0]) / B) * PowB(1) == Val(was[..1]) + m * Val(MODULUS_32[..1])
  {
    ValPrefix(was, 0);
    ValPrefix(MODULUS_32, 0);
    assert PowB(0) == 1 && PowB(1) == B;
  }

  /** The second inner loop: add `m * modulus` and shift down by one half-limb. The position that
      falls off is zero because `m` was chosen to make it so. */
  method ReduceRow(t: array<u64>, m: u64) returns (carry: u64)
    requires t.Length == 8 && AllHalf(t[..]) && m < B
    requires (t[0] + m * MODULUS_32[0]) % B == 0
    modifies t
    ensures AllHalf(t[..]) && carry < B
    ensures B * Val(t[..7]) + carry * PowB(8) == old(Val(t[..])) + m * MODULUS
  {
    hide MulAdd, WrappingMul, WrappingAdd, MODULUS, Val, PowB;
    ModulusForms();
    ghost var was := t[..];
    ReduceStart(was, m);
    MulAddDoesNotWrap(t[0], m, MODULUS_32[0], 0);
    var tmp := WrappingAdd(t[0], WrappingMul(m, MODULUS_32[0]));
    carry := tmp / B;
    var j := 1;
    assert t[..0] == [];
    while j < 8
      invariant 1 <= j <= 8 && carry < B
      invariant AllHalf(t[..])
      invariant t[j..] == was[j..]
      invariant B * Val(t[..j - 1]) + carry * PowB(j) == Val(was[..j]) + m * Val(MODULUS_32[..j])
    {
      ghost var before := t[..];
      assert t[j] == t[j..][0] == was[j];
      assert MODULUS_32[j] < B;
      MulAddDoesNotWrap(t[j], m, MODULUS_32[j], carry);
      tmp := MulAdd(t[j], m, MODULUS_32[j], carry);
      t[j - 1] := tmp % B;
      assert t[j + 1..] == was[j + 1..] by { assert before[j + 1..] == before[j..][1..]; }
      ReduceStep(was, before, t[..], j, m, carry, tmp);
      carry := tmp / B;
      j := j + 1;
    }
    assert was[..8] == was && MODULUS_32[..8] == MODULUS_32;
  }

  ghost predicate Congruent(x: int, y: int) {
    x % MODULUS == y % MODULUS
  }

  lemma CongruentByMultiple(x: int, y: int, q: int)
    requires x == y + q * MODULUS
    ensures Congruent(x, y)
  {
  }

  /** What one outer iteration does to the accumulator `acc = t + tHi * 2^256`. */
  lemma OuterStep(acc: nat, row: nat, low: nat, p8: nat, ai: nat, b: nat, m: nat,
                  tHi: nat, c1: nat, c2: nat, v0: nat, digit: nat, tHi': nat, acc': nat)
    requires p8 == PowB(8)
    requires acc == v0 + tHi * p8
    requires row + c1 * p8 == v0 + ai * b
    requires B * low + c2 * p8 == row + m * MODULUS
    requires digit == ((tHi + c1) % B + c2) % B
    requires tHi' == (tHi + c1) / B + ((tHi + c1) % B + c2) / B
    requires acc' == low + digit * PowB(7) + tHi' * p8
    ensures B * acc' == acc + ai * b + m * MODULUS
  {
    hide MODULUS;
    var t1 := tHi + c1;
    var t2 := t1 % B + c2;
    assert B * (digit * PowB(7)) == digit * p8 by { assert p8 == B * PowB(7); }
    assert B * (tHi' * p8) == B * tHi' * p8;
    assert digit + B * tHi' == t1 + c2 by {
      assert t1 == t1 % B + B * (t1 / B);
      assert t2 == t2 % B + B * (t2 / B);
    }
    assert (digit + B * tHi') * p8 == digit * p8 + B * tHi' * p8;
    assert (t1 + c2) * p8 == tHi * p8 + c1 * p8 + c2 * p8;
  }

  lemma MulMono(x: nat, y: nat, z: nat)
    requires x <= y
    ensures x * z <= y * z
  {
  }

  /** The accumulator stays below `b + modulus`. */
  lemma AccumulatorBound(acc: nat, acc': nat, ai: nat, b: nat, m: nat, p: nat)
    requires acc < b + p && ai < B && m < B
    requires B * acc' == acc + ai * b + m * p
    ensures acc' < b + p
  {
    MulMono(ai, B - 1, b);
    MulMono(m, B - 1, p);
    assert B * acc' < B * (b + p);
  }

  /** The accumulator is the partial product divided by the radix so far, modulo the modulus. */
  lemma AccumulatorProduct(acc: nat, acc': nat, p: nat, low: nat, b: nat, ai: nat, m: nat, q: nat)
    requires acc * p == low * b + q * MODULUS
    requires B * acc' == acc + ai * b + m * MODULUS
    ensures acc' * (B * p) == (low + ai * p) * b + (q + m * p) * MODULUS
  {
    hide MODULUS;
    assert acc' * (B * p) == (acc + ai * b + m * MODULUS) * p == acc * p + ai * b * p + m * MODULUS * p;
  }

  /** Row `i` of the multiplication of `left` by `right`. */
  ghost predicate RowInvariant(left: Limbs, right: Limbs, i: nat, acc: nat)
    requires i <= 8
  {
    && acc < LimbsVal(right) + MODULUS
    && Congruent(acc * PowB(i), Val(Halves(left)[..i]) * LimbsVal(right))
  }

  /** After `i` rows the accumulator times 2^(32 i) is the partial product plus `q` moduli. */
  ghost predicate PartialProduct(left: Limbs, right: Limbs, i: nat, acc: nat, q: nat)
    requires i <= 8
  {
    acc * PowB(i) == Val(Halves(left)[..i]) * LimbsVal(right) + q * MODULUS
  }

  lemma PartialProductStep(left: Limbs, right: Limbs, i: nat, acc: nat, acc': nat, m: nat, q: nat)
    requires i < 8 && m < B && acc < LimbsVal(right) + MODULUS
    requires PartialProduct(left, right, i, acc, q)
    requires B * acc' == acc + Halves(left)[i] * LimbsVal(right) + m * MODULUS
    ensures acc' < LimbsVal(right) + MODULUS
    ensures PartialProduct(left, right, i + 1, acc', q + m * PowB(i))
    ensures RowInvariant(left, right, i + 1, acc')
  {
    hide MODULUS, LimbsVal, Halves, Val, PowB;
    var av := Halves(left);
    AccumulatorBound(acc, acc', av[i], LimbsVal(right), m, MODULUS);
    AccumulatorProduct(acc, acc', PowB(i), Val(av[..i]), LimbsVal(right), av[i], m, q);
    ValPrefix(av, i);
    PowStep(i);
    RowInvariantHolds(left, right, i + 1, acc', q + m * PowB(i));
  }

  lemma PartialProductStart(left: Limbs, right: Limbs)
    ensures PartialProduct(left, right, 0, 0, 0) && RowInvariant(left, right, 0, 0)
  {
    EmptyPrefix(Halves(left));
    RowInvariantHolds(left, right, 0, 0, 0);
  }

  lemma PartialProductEnd(left: Limbs, right: Limbs, acc: nat, q: nat)
    requires PartialProduct(left, right, 8, acc, q)
    ensures Congruent(acc * R, LimbsVal(left) * LimbsVal(right))
  {
    hide MODULUS, LimbsVal, Halves, Val, PowB;
    SplitKeepsValue(left);
    assert Halves(left)[..8] == Halves(left);
    PowB8();
    CongruentByMultiple(acc * R, LimbsVal(left) * LimbsVal(right), q);
  }

  lemma RowInvariantHolds(left: Limbs, right: Limbs, i: nat, acc: nat, q: int)
    requires i <= 8 && acc < LimbsVal(right) + MODULUS
    requires acc * PowB(i) == Val(Halves(left)[..i]) * LimbsVal(right) + q * MODULUS
    ensures RowInvariant(left, right, i, acc)
  {
    CongruentByMultiple(acc * PowB(i), Val(Halves(left)[..i]) * LimbsVal(right), q);
  }

  lemma SmallTop(v: nat, tHi: nat, b: nat)
    requires b < R && v + tHi * PowB(8) < b + MODULUS
    ensures tHi <= 1
  {
    PowB8();
    var p8 := PowB(8);
    assert tHi * p8 < 2 * p8;
  }

  /** The closing conditional subtraction. */
  lemma FinalReduction(v: nat, acc: nat, tHi: nat, b: nat, x: nat)
    requires v < R && b < R && tHi <= 1
    requires acc == v + tHi * R && acc < b + MODULUS
    requires x == if tHi != 0 || v >= MODULUS then (v - MODULUS) % R else v
    ensures x == if tHi != 0 || v >= MODULUS then acc - MODULUS else acc
    ensures x < MODULUS || x < b
  {
    if tHi != 0 {
      assert v - MODULUS + R == acc - MODULUS < R;
    }
  }

  lemma SameProduct(x: nat, acc: nat, y: nat)
    requires x == acc || x == acc - MODULUS
    requires Congruent(acc * R, y)
    ensures Congruent(x * R, y)
  {
    var k: int := if x == acc then 0 else -(R as int);
    CongruentByMultiple(x * R, acc * R, k);
  }

  /** Four limbs reassembled from eight half-limbs. */
  function Join(t: seq<u64>): (out: Limbs)
    requires |t| == 8 && forall i :: 0 <= i < 8 ==> t[i] < B
  {
    [t[0] + t[1] * B, t[2] + t[3] * B, t[4] + t[5] * B, t[6] + t[7] * B]
  }

  lemma JoinVal(t: seq<u64>)
    requires |t| == 8 && AllHalf(t)
    ensures LimbsVal(Join(t)) == Val(t)
  {
    HalvesVal(t);
  }

  /** The integer the accumulator registers hold. */
  ghost function Accumulator(t: seq<nat>, tHi: nat): nat {
    Val(t) + tHi * PowB(8)
  }

  /** One outer iteration: the accumulator becomes `(acc + ai * b + m * modulus) / 2^32`, exactly. */
  method OuterIteration(t: array<u64>, tHi: u64, ai: u64, b: seq<u64>) returns (tHi': u64, ghost m: nat)
    requires t.Length == |b| == 8 && AllHalf(t[..]) && AllHalf(b) && ai < B
    requires Val(b) < R && Accumulator(t[..], tHi) < Val(b) + MODULUS
    modifies t
    ensures AllHalf(t[..]) && m < B
    ensures B * Accumulator(t[..], tHi') == old(Accumulator(t[..], tHi)) + ai * Val(b) + m * MODULUS
  {
    hide MODULUS, MODULUS_32, QuotientDigit, WrappingAdd, WrappingMul, Val;
    ghost var v0 := Val(t[..]);
    SmallTop(v0, tHi, Val(b));
    var carry := AddRow(t, ai, b);
    ghost var c1 := carry;
    ghost var row := Val(t[..]);
    SmallSum(tHi, carry);
    var tmp := WrappingAdd(tHi, carry);
    var tMid := tmp % B;
    var tTop := tmp / B;

    QuotientDigitClears(t[0]);
    var digit := QuotientDigit(t[0]);
    m := digit;
    carry := ReduceRow(t, digit);
    ghost var low := Val(t[..7]);
    SmallSum(tMid, carry);
    tmp := WrappingAdd(tMid, carry);
    t[7] := tmp % B;
    SmallSum(tTop, tmp / B);
    tHi' := WrappingAdd(tTop, tmp / B);

    ValPrefix(t[..], 7);
    assert t[..][..7] == t[..7] && t[..][..8] == t[..];
    OuterStep(v0 + tHi * PowB(8), row, low, PowB(8), ai, Val(b), m, tHi, c1, carry, v0, tmp % B, tHi',
              Accumulator(t[..], tHi'));
  }

  /** Reassemble the limbs and subtract the modulus once if the accumulator reached it. */
  method Finish(t: array<u64>, tHi: u64, ghost b: nat) returns (out: Limbs)
    requires t.Length == 8 && AllHalf(t[..])
    requires b < R && Accumulator(t[..], tHi) < b + MODULUS
    ensures LimbsVal(out) == Accumulator(t[..], tHi) || LimbsVal(out) == Accumulator(t[..], tHi) - MODULUS
    ensures LimbsVal(out) < MODULUS || LimbsVal(out) < b
  {
    hide MODULUS, MODULUS_32, MODULUS_64, LimbsVal, Halves, Val;
    ModulusForms();
    SmallTop(Val(t[..]), tHi, b);
    PowB8();
    var joined := Join(t[..]);
    JoinVal(t[..]);
    LimbsBound(joined);
    var reduced := new u64[4](k requires 0 <= k < 4 => joined[k]);
    assert reduced[..] == joined;
    var over := Ge(joined, MODULUS_64);
    if tHi != 0 || over {
      SubAssign(reduced, MODULUS_64);
    }
    out := reduced[..];
    FinalReduction(LimbsVal(joined), Accumulator(t[..], tHi), tHi, b, LimbsVal(out));
  }

  /**
   The product of two numbers divided by the radix, modulo the modulus, for ANY two operands of
   four limbs. With a right operand below the modulus the result is fully reduced.
   `rows[i]` is the accumulator after `i` outer iterations.
   */
  method MontMul(left: Limbs, right: Limbs) returns (out: Limbs, ghost rows: seq<nat>)
    ensures Congruent(LimbsVal(out) * R, LimbsVal(left) * LimbsVal(right))
    ensures LimbsVal(out) < MODULUS || LimbsVal(out) < LimbsVal(right)
    ensures |rows| == 9 && forall i :: 0 <= i <= 8 ==> RowInvariant(left, right, i, rows[i])
  {
    hide MODULUS, LimbsVal, Halves, Val, PowB, Accumulator, Congruent, RowInvariant, PartialProduct;
    var a := SplitIntoHalfLimbs(left);
    var b := SplitIntoHalfLimbs(right);
    SplitKeepsValue(right);
    ModulusForms();
    LimbsBound(right);

    var t := new u64[8](_ => 0);
    var tHi: u64 := 0;
    ghost var q: nat := 0;
    ZeroAccumulator(t[..]);
    PartialProductStart(left, right);
    rows := [0];
    var i := 0;
    while i < 8
      invariant 0 <= i <= 8
      invariant AllHalf(t[..])
      invariant a[..] == Halves(left) && b[..] == Halves(right)
      invariant |rows| == i + 1 && rows[i] == Accumulator(t[..], tHi)
      invariant rows[i] < LimbsVal(right) + MODULUS
      invariant PartialProduct(left, right, i, rows[i], q)
      invariant forall k :: 0 <= k <= i ==> RowInvariant(left, right, k, rows[k])
    {
      ghost var m;
      assert a[i] == Halves(left)[i] < B;
      tHi, m := OuterIteration(t, tHi, a[i], b[..]);
      ghost var acc := Accumulator(t[..], tHi);
      PartialProductStep(left, right, i, rows[i], acc, m, q);
      q := q + m * PowB(i);
      rows := rows + [acc];
      i := i + 1;
    }
    PartialProductEnd(left, right, rows[8], q);
    out := Finish(t, tHi, LimbsVal(right));
    SameProduct(LimbsVal(out), rows[8], LimbsVal(left) * LimbsVal(right));
  }

  lemma PowStep(i: nat)
    ensures PowB(i + 1) == B * PowB(i)
  {
  }

  lemma ZeroAccumulator(s: seq<nat>)
    requires |s| == 8 && forall i :: 0 <= i < 8 ==> s[i] == 0
    ensures Accumulator(s, 0) == 0
  {
    HalvesVal(s);
  }

  lemma SmallSum(x: u64, y: u64)
    requires x < B && y < B
    ensures WrappingAdd(x, y) == x + y
  {
  }
}
