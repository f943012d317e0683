/** The executable operations on scalars, each proved equal to its meaning on residues. */
module ScalarFieldOps {
  import opened Wrappers
  import opened Bytes
  import opened HalfLimbs
  import opened Montgomery
  import opened ScalarField

  /** The product of two elements. */
  function Product(a: Fr, b: Fr): Fr {
    Encode(Decode(a) * Decode(b))
  }

  lemma RemoveR(out: nat, x: nat)
    requires Congruent(out * R, x)
    ensures Congruent(out, x * R_INV)
  {
    hide MODULUS, R, R_INV;
    CancelR(out);
    CongruentMul(out * R, x, R_INV);
  }

  lemma ProductOfDecodings(l: nat, r: nat, dl: nat, dr: nat)
    requires Congruent(l, dl * R) && Congruent(r * R_INV, dr)
    ensures Congruent(l * r * R_INV, dl * dr * R)
  {
    hide MODULUS, R, R_INV;
    CongruentMul(l, dl * R, r * R_INV);
    assert l * (r * R_INV) == l * r * R_INV;
    CongruentMul(r * R_INV, dr, dl * R);
    assert r * R_INV * (dl * R) == dl * R * (r * R_INV);
    assert dr * (dl * R) == dl * dr * R;
  }

  lemma ResiduesMultiply(l: nat, r: nat, out: nat)
    requires Congruent(out * R, l * r)
    ensures Congruent(out, ((l * R_INV) % MODULUS) * ((r * R_INV) % MODULUS) * R)
  {
    ModulusForms();
    RemoveR(out, l * r);
    DecodeTimesR(l);
    hide R, R_INV;
    ProductOfDecodings(l, r, (l * R_INV) % MODULUS, (r * R_INV) % MODULUS);
  }

  lemma DecodeProduct(a: Fr, b: Fr)
    ensures Decode(Product(a, b)) == (Decode(a) * Decode(b)) % MODULUS
  {
    DecodeEncode(Decode(a) * Decode(b));
  }

  method FrMul(left: Fr, right: Fr) returns (out: Fr)
    ensures out == Product(left, right)
  {
    hide LimbsVal, Encode, MODULUS, R, R_INV;
    ghost var rows;
    var limbs;
    limbs, rows := MontMul(left, right);
    ResiduesMultiply(LimbsVal(left), LimbsVal(right), LimbsVal(limbs));
    EncodedBy(limbs, Decode(left) * Decode(right));
    out := limbs;
  }

  method FrSquare(value: Fr) returns (out: Fr)
    ensures out == Product(value, value)
  {
    out := FrMul(value, value);
  }

  /** Into Montgomery form: multiplication by R^2 leaves one factor R. */
  lemma IntoMontgomery(l: nat, r2: nat, out: nat)
    requires Congruent(out * R, l * r2) && Congruent(r2, R * R)
    ensures Congruent(out, l * R)
  {
    hide MODULUS, R, R_INV;
    RemoveR(out, l * r2);
    SquareOfR(l * R_INV, r2);
    Reorder(l, r2, R_INV, R);
    CancelR(l * R);
  }

  lemma Reorder(l: int, r2: int, i: int, r: int)
    ensures r2 * (l * i) == l * r2 * i && l * i * r * r == l * r * i * r
  {
  }

  lemma SquareOfR(x: int, r2: nat)
    requires Congruent(r2, R * R)
    ensures Congruent(r2 * x, x * R * R)
  {
    hide MODULUS, R;
    CongruentMul(r2, R * R, x);
    assert R * R * x == x * R * R;
  }

  method FrFromReducedLimbs(limbs: Limbs) returns (out: Fr)
    ensures out == Encode(LimbsVal(limbs))
  {
    hide LimbsVal, Encode, MODULUS, R, R_INV, R2_64;
    LimbConstants();
    ghost var rows;
    var o;
    o, rows := MontMul(limbs, R2_64);
    IntoMontgomery(LimbsVal(limbs), LimbsVal(R2_64), LimbsVal(o));
    EncodedBy(o, LimbsVal(limbs));
    out := o;
  }

  /** Decoding accepts exactly the strings below the modulus. */
  method FrFromBytesBe(bytes: Bytes32) returns (r: Result<Fr, Error>)
    ensures r == match FromBytes(bytes) case Some(v) => Ok(v) case None => Err(PublicInputOutOfRange)
  {
    hide LimbsVal, Encode, MODULUS, MODULUS_BE, BeVal;
    ModulusBytes();
    var less := IsStrictlyLess(bytes, MODULUS_BE);
    if !less {
      return Err(PublicInputOutOfRange);
    }
    var limbs := LimbsFromBe(bytes);
    var v := FrFromReducedLimbs(limbs[..]);
    return Ok(v);
  }

  lemma OneSubtraction(v: nat, w: nat, n: nat)
    requires MODULUS <= v < R && w == (v - MODULUS) % R
    ensures w == v - MODULUS
    ensures w + (n + 1) * MODULUS == v + n * MODULUS
  {
  }

  lemma AtMostFive(v: nat, n: nat, start: nat)
    requires start < R && v + n * MODULUS == start && v < MODULUS
    ensures n <= 5 && v == start % MODULUS
  {
    assert n * MODULUS < 6 * MODULUS;
  }

  method SubtractModulus(limbs: array<u64>)
    requires limbs.Length == 4 && LimbsVal(limbs[..]) >= MODULUS
    modifies limbs
    ensures LimbsVal(limbs[..]) == old(LimbsVal(limbs[..])) - MODULUS
  {
    hide LimbsVal, MODULUS, MODULUS_64;
    ModulusForms();
    ghost var v := LimbsVal(limbs[..]);
    LimbsBound(limbs[..]);
    SubAssign(limbs, MODULUS_64);
    OneSubtraction(v, LimbsVal(limbs[..]), 0);
  }

  /** Reduction of any 32-byte integer, by at most five subtractions. */
  method FrFromBytesBeModOrder(bytes: Bytes32) returns (out: Fr, ghost subtractions: nat)
    ensures Decode(out) == BeVal(bytes) % MODULUS
    ensures subtractions <= 5
  {
    hide LimbsVal, Encode, Decode, MODULUS_64, BeVal;
    ModulusForms();
    var limbs := LimbsFromBe(bytes);
    subtractions := 0;
    var more := Ge(limbs[..], MODULUS_64);
    LimbsBound(limbs[..]);
    ghost var start := LimbsVal(limbs[..]);
    while more
      invariant limbs.Length == 4
      invariant more == (LimbsVal(limbs[..]) >= MODULUS)
      invariant LimbsVal(limbs[..]) + subtractions * MODULUS == start
      decreases LimbsVal(limbs[..])
    {
      SubtractModulus(limbs);
      subtractions := subtractions + 1;
      more := Ge(limbs[..], MODULUS_64);
    }
    AtMostFive(LimbsVal(limbs[..]), subtractions, start);
    out := FrFromReducedLimbs(limbs[..]);
    DecodeEncode(LimbsVal(limbs[..]));
  }

  /** Out of Montgomery form: multiplication by one removes the factor R. */
  lemma OutOfMontgomery(l: nat, out: nat)
    requires out < MODULUS && Congruent(out * R, l * 1)
    ensures out == (l * R_INV) % MODULUS
  {
    hide R, R_INV;
    CancelR(out);
    CongruentMul(out * R, l, R_INV);
  }

  lemma LimbBytes(l: Limbs)
    ensures BeBytes(l[3], 8) + BeBytes(l[2], 8) + BeBytes(l[1], 8) + BeBytes(l[0], 8) == BeBytes(LimbsVal(l), 32)
  {
    hide BeVal, Pow256, BeBytes, LimbsVal;
    Pow256Values();
    LimbsBound(l);
    var b := BeBytes(l[3], 8) + BeBytes(l[2], 8) + BeBytes(l[1], 8) + BeBytes(l[0], 8);
    BeLimbs(b);
    assert b[24..32] == BeBytes(l[0], 8) && b[16..24] == BeBytes(l[1], 8);
    assert b[8..16] == BeBytes(l[2], 8) && b[0..8] == BeBytes(l[3], 8);
    forall i | 0 <= i < 4 ensures BeLimb(b, i) == l[i] {
      BeReadWrite(l[i], 8);
    }
    assert BeVal(b) == LimbsVal(l) by { LimbsValIs(l); }
    BeReadWrite(LimbsVal(l), 32);
    BeInjective(b, BeBytes(LimbsVal(l), 32));
  }

  lemma LimbsValIs(l: Limbs)
    ensures LimbsVal(l) == l[0] + W * l[1] + W * W * l[2] + W * W * W * l[3]
  {
  }

  method FrToBytesBe(value: Fr) returns (out: array<byte>)
    ensures fresh(out) && out.Length == 32 && out[..] == ToBytes(value)
  {
    hide LimbsVal, Encode, MODULUS, R, R_INV, BeBytes;
    LimbConstants();
    ghost var rows;
    var limbs;
    limbs, rows := MontMul(value, ONE_64);
    assert LimbsVal(limbs) < MODULUS by { ModulusForms(); }
    OutOfMontgomery(LimbsVal(value), LimbsVal(limbs));
    LimbBytes(limbs);
    ghost var want := BeBytes(LimbsVal(limbs), 32);
    out := new byte[32](_ => 0);
    var i := 0;
    while i < 4
      invariant 0 <= i <= 4
      invariant forall k :: 32 - 8 * i <= k < 32 ==> out[k] == want[k]
    {
      var offset := (3 - i) * 8;
      var limb := BeBytes(limbs[i], 8);
      assert want[offset..offset + 8] == limb;
      forall k | 0 <= k < 8 {
        out[offset + k] := limb[k];
      }
      assert forall k :: offset <= k < offset + 8 ==> out[k] == limb[k - offset] == want[k];
      i := i + 1;
    }
  }

  // ----- exponentiation -----

  ghost function Power(x: int, n: nat): int {
    if n == 0 then 1 else x * Power(x, n - 1)
  }

  lemma {:induction false} PowerAdd(x: int, m: nat, n: nat)
    ensures Power(x, m + n) == Power(x, m) * Power(x, n)
  {
    if m > 0 {
      PowerAdd(x, m - 1, n);
    }
  }

  /** Squaring the base halves the exponent. */
  lemma {:induction false} PowerSquare(x: int, n: nat)
    ensures Power(x * x, n) == Power(x, 2 * n)
  {
    if n > 0 {
      PowerSquare(x, n - 1);
      assert Power(x, 2 * n) == x * (x * Power(x, 2 * (n - 1)));
    }
  }

  lemma CongruentToItself(x: int)
    ensures Congruent(x, x)
  {
  }

  lemma CongruentChain(x: int, y: int, z: int)
    requires Congruent(x, y) && Congruent(y, z)
    ensures Congruent(x, z)
  {
  }

  lemma Swapped(x: int, y: int)
    ensures x * y == y * x
  {
  }

  lemma {:induction false} PowerResidue(x: int, y: int, n: nat)
    requires Congruent(x, y)
    ensures Congruent(Power(x, n), Power(y, n))
  {
    hide MODULUS, Congruent;
    if n == 0 {
      CongruentToItself(1);
    } else {
      PowerResidue(x, y, n - 1);
      CongruentMul(x, y, Power(x, n - 1));
      CongruentMul(Power(x, n - 1), Power(y, n - 1), y);
      Swapped(Power(x, n - 1), y);
      Swapped(Power(y, n - 1), y);
      CongruentChain(x * Power(x, n - 1), y * Power(x, n - 1), y * Power(y, n - 1));
    }
  }

  lemma PowerZero(x: int)
    ensures Power(x, 0) == 1
  {
  }

  /** One bit of the exponent: what is still to be multiplied in is unchanged. */
  lemma PowerStep(acc: int, power: int, e: nat, acc': int, power': int)
    requires e > 0
    requires acc' == if e % 2 == 1 then (acc * power) % MODULUS else acc
    requires e / 2 != 0 ==> power' == (power * power) % MODULUS
    ensures Congruent(acc' * Power(power', e / 2), acc * Power(power, e))
  {
    hide MODULUS;
    var h := e / 2;
    if h != 0 {
      ModMul(power * power, 1);
      PowerResidue(power', power * power, h);
      CongruentMul(Power(power', h), Power(power * power, h), acc');
      assert acc' * Power(power', h) == Power(power', h) * acc';
    } else {
      assert Power(power', h) == 1 == Power(power * power, h);
    }
    PowerSquare(power, h);
    assert Congruent(acc' * Power(power', h), acc' * Power(power, 2 * h)) by {
      assert acc' * Power(power, 2 * h) == Power(power * power, h) * acc';
    }
    if e % 2 == 1 {
      assert e == 1 + 2 * h;
      ModMul(acc * power, Power(power, 2 * h));
      assert acc * power * Power(power, 2 * h) == acc * Power(power, e);
    }
  }

  lemma SmallResidue(x: nat, y: int)
    requires x < MODULUS && Congruent(x * 1, y)
    ensures x == y % MODULUS
  {
  }

  /** Square and multiply computes the power, for every exponent. */
  method FrPowU64(base: Fr, e0: u64) returns (acc: Fr)
    ensures Decode(acc) == Power(Decode(base), e0) % MODULUS
  {
    hide Encode, Decode, MODULUS, Power, Product;
    var exponent := e0;
    acc := Encode(1);
    DecodeEncode(1);
    var power := base;
    ghost var want := Power(Decode(base), e0);
    assert Congruent(Decode(acc) * Power(Decode(power), exponent), want) by { ModMul(1, want); }
    while exponent != 0
      invariant Congruent(Decode(acc) * Power(Decode(power), exponent), want)
    {
      ghost var a0, p0, e := Decode(acc), Decode(power), exponent;
      DecodeProduct(acc, power);
      DecodeProduct(power, power);
      if exponent % 2 == 1 {
        acc := FrMul(acc, power);
      }
      exponent := exponent / 2;
      if exponent != 0 {
        power := FrSquare(power);
      }
      PowerStep(a0, p0, e, Decode(acc), Decode(power));
    }
    PowerZero(Decode(power));
    SmallResidue(Decode(acc), want);
  }
}
