/**
 The operations on Montgomery limbs are the operations of a field, given that the modulus is
 prime: the record below satisfies every law the algebraic parts of the verifier rely on.
 */
module ScalarFieldLaws {
  import opened HalfLimbs
  import opened Montgomery
  import opened ScalarField
  import opened ScalarFieldOps
  import opened Fields

  ghost predicate IsPrime(p: nat) {
    p > 1 && forall d :: 1 < d < p ==> p % d != 0
  }

  datatype Bezout = Bezout(g: nat, x: int, y: int)

  /** Extended Euclid: a greatest common divisor as an integer combination. */
  function Euclid(a: nat, b: nat): (e: Bezout)
    requires a > 0
    ensures e.g > 0 && a * e.x + b * e.y == e.g
    decreases b
  {
    if b == 0 then Bezout(a, 1, 0)
    else
      var e := Euclid(b, a % b);
      EuclidStep(a, b, e.x, e.y);
      Bezout(e.g, e.y, e.x - (a / b) * e.y)
  }

  lemma EuclidStep(a: nat, b: nat, x: int, y: int)
    requires b > 0
    ensures b * x + (a % b) * y == a * y + b * (x - (a / b) * y)
  {
    assert a == b * (a / b) + a % b;
    assert a * y == b * ((a / b) * y) + (a % b) * y;
  }

  lemma MultipleMod(k: int, d: nat)
    requires d > 0
    ensures (k * d) % d == 0
  {
    var q, r := k * d / d, k * d % d;
    assert (k - q) * d == r;
    assert k - q >= 1 ==> (k - q) * d >= d;
    assert k - q <= -1 ==> (k - q) * d <= -(d as int);
  }

  function Multiple(k: nat, g: nat): nat {
    k * g
  }

  ghost predicate Divides(g: nat, a: nat) {
    exists k: nat :: a == Multiple(k, g)
  }

  lemma Recombine(a: nat, b: nat, g: nat)
    requires b > 0 && Divides(g, b) && Divides(g, a % b)
    ensures Divides(g, a)
  {
    var k: nat :| b == Multiple(k, g);
    var l: nat :| a % b == Multiple(l, g);
    var q := a / b;
    assert a == q * b + a % b;
    assert q * (k * g) == q * k * g;
    assert a == Multiple(q * k + l, g);
  }

  lemma {:induction false} EuclidDivides(a: nat, b: nat)
    requires a > 0
    ensures Divides(Euclid(a, b).g, a) && Divides(Euclid(a, b).g, b)
    decreases b
  {
    hide Divides;
    var g := Euclid(a, b).g;
    if b == 0 {
      DividesItself(a);
    } else {
      EuclidDivides(b, a % b);
      Recombine(a, b, g);
    }
  }

  lemma DividesItself(a: nat)
    ensures Divides(a, a) && Divides(a, 0)
  {
    assert a == Multiple(1, a) && 0 == Multiple(0, a);
  }

  /** A prime and a smaller number have no common divisor but one. */
  lemma CommonDivisor(g: nat, v: nat, p: nat)
    requires IsPrime(p) && 0 < v < p && Divides(g, v) && Divides(g, p)
    ensures g == 1
  {
    var k: nat :| v == Multiple(k, g);
    var l: nat :| p == Multiple(l, g);
    assert g > 0 && k >= 1;
    assert k * g >= g;
    MultipleMod(l, g);
  }

  function ModInverse(v: nat): int {
    if v == 0 then 0 else Euclid(v, MODULUS).x
  }

  lemma OneIsReduced()
    ensures 0 < MODULUS && 1 % MODULUS == 1
  {
  }

  lemma ModInverseInverts(v: nat)
    requires IsPrime(MODULUS) && 0 < v < MODULUS
    ensures (v * ModInverse(v)) % MODULUS == 1
  {
    var e := Euclid(v, MODULUS);
    OneIsReduced();
    hide MODULUS, Divides, IsPrime, Euclid;
    EuclidDivides(v, MODULUS);
    CommonDivisor(e.g, v, MODULUS);
    assert v * e.x == 1 + (-e.y) * MODULUS;
    ModShift(1, -e.y);
  }

  function FrAdd(a: Fr, b: Fr): Fr {
    Encode(Decode(a) + Decode(b))
  }

  function FrNeg(a: Fr): Fr {
    Encode(-(Decode(a) as int))
  }

  function FrInv(a: Fr): Fr {
    Encode(ModInverse(Decode(a)))
  }

  /** The record of the scalar field operations. */
  function Scalars(): Field<Fr> {
    Field(MODULUS,
          (x: int) => Encode(x),
          (a: Fr) => Decode(a) as int,
          (a: Fr, b: Fr) => FrAdd(a, b),
          (a: Fr, b: Fr) => Product(a, b),
          (a: Fr) => FrNeg(a),
          (a: Fr) => FrInv(a))
  }

  lemma EncodeResidue(x: int, y: int)
    requires Congruent(x, y)
    ensures Encode(x) == Encode(y)
  {
    CongruentMul(x, y, R);
  }

  lemma AddLaw(x: int, y: int)
    ensures FrAdd(Encode(x), Encode(y)) == Encode(x + y)
  {
    hide Encode, Decode, LimbsVal;
    DecodeEncode(x);
    DecodeEncode(y);
    var k := -(x / MODULUS) - (y / MODULUS);
    assert x % MODULUS + y % MODULUS == x + y + k * MODULUS;
    ModShift(x + y, k);
    EncodeResidue(x % MODULUS + y % MODULUS, x + y);
  }

  lemma MulLaw(x: int, y: int)
    ensures Product(Encode(x), Encode(y)) == Encode(x * y)
  {
    ModulusForms();
    hide Encode, Decode, MODULUS, LimbsVal;
    DecodeEncode(x);
    DecodeEncode(y);
    ModMul(x % MODULUS, y);
    ModMul(x, y);
    EncodeResidue((x % MODULUS) * (y % MODULUS), x * y);
  }

  lemma NegLaw(x: int)
    ensures FrNeg(Encode(x)) == Encode(-x)
  {
    hide Encode, Decode, LimbsVal;
    DecodeEncode(x);
    ModShift(-x, x / MODULUS);
    EncodeResidue(-(x % MODULUS), -x);
  }

  lemma InverseLaw(a: Fr)
    requires IsPrime(MODULUS)
    ensures a != Encode(0) ==> Product(a, FrInv(a)) == Encode(1)
  {
    hide Encode, Decode, Product, LimbsVal;
    EncodeDecode(a);
    if a != Encode(0) {
      var v := Decode(a);
      ModInverseInverts(v);
      MulLaw(v, ModInverse(v));
      EncodeResidue(v * ModInverse(v), 1);
    }
  }

  lemma RepresentationLaws()
    ensures Scalars().Represents() && Scalars().of(0) != Scalars().of(1)
  {
    hide Encode, Decode, LimbsVal;
    forall a: Fr ensures Encode(Decode(a)) == a { EncodeDecode(a); }
    DecodeEncode(0);
    DecodeEncode(1);
  }

  lemma AdditionLaws()
    ensures Scalars().AddsAsIntegers() && Scalars().NegatesAsIntegers()
  {
    hide Encode, Decode, FrAdd, FrNeg, LimbsVal;
    forall x: int, y: int ensures FrAdd(Encode(x), Encode(y)) == Encode(x + y) { AddLaw(x, y); }
    forall x: int ensures FrNeg(Encode(x)) == Encode(-x) { NegLaw(x); }
  }

  lemma MultiplicationLaws()
    ensures Scalars().MultipliesAsIntegers()
  {
    hide Encode, Decode, Product, LimbsVal;
    forall x: int, y: int ensures Product(Encode(x), Encode(y)) == Encode(x * y) { MulLaw(x, y); }
  }

  lemma InverseLaws()
    requires IsPrime(MODULUS)
    ensures Scalars().Inverts()
  {
    hide Encode, Decode, Product, FrInv, LimbsVal;
    forall a: Fr ensures a != Encode(0) ==> Product(a, FrInv(a)) == Encode(1) { InverseLaw(a); }
  }

  /** The scalar field is a field. */
  lemma ScalarsAreAField()
    requires IsPrime(MODULUS)
    ensures Scalars().Valid()
  {
    hide Scalars;
    RepresentationLaws();
    AdditionLaws();
    MultiplicationLaws();
    InverseLaws();
  }

  /** Its representatives are the integers below the modulus. */
  lemma ScalarsAreCanonical()
    ensures Scalars().Canonical()
  {
    hide Encode, Decode, LimbsVal;
    forall x: int ensures Decode(Encode(x)) == x % MODULUS { DecodeEncode(x); }
  }

  /** Exponentiation on residues is exponentiation in the field. */
  lemma {:induction false} FieldPower(a: Fr, n: nat)
    ensures Pow(Scalars(), a, n) == Encode(Power(Decode(a), n))
  {
    if n == 0 {
      PowerZero(Decode(a));
    } else {
      FieldPower(a, n - 1);
      FieldPowerStep(a, Power(Decode(a), n - 1));
    }
  }

  lemma FieldPowerStep(a: Fr, y: int)
    ensures Product(a, Encode(y)) == Encode(Decode(a) * y)
  {
    hide Encode, Decode, Product, LimbsVal;
    EncodeDecode(a);
    MulLaw(Decode(a), y);
  }
}
