/**
 The scalar field: elements stored as Montgomery limbs, their conversion from and to 32-byte
 big-endian strings, multiplication and exponentiation, and the proof that these operations are
 the operations of a field.
 */
module ScalarField {
  import opened Wrappers
  import opened Bytes
  import opened HalfLimbs
  import opened Montgomery
  import Fields

  const MODULUS_BE: Bytes32 := [
    0x30, 0x64, 0x4e, 0x72, 0xe1, 0x31, 0xa0, 0x29, 0xb8, 0x50, 0x45, 0xb6, 0x81, 0x81, 0x58, 0x5d,
    0x28, 0x33, 0xe8, 0x48, 0x79, 0xb9, 0x70, 0x91, 0x43, 0xe1, 0xf5, 0x93, 0xf0, 0x00, 0x00, 0x01]

  /** R^2 modulo the modulus, and R^-1 modulo the modulus. */
  const R2_64: Limbs := [0x1bb8e645ae216da7, 0x53fe3ab1e35c59e3, 0x8c49833d53bb8085, 0x216d0b17f4e44a5]
  const ONE_64: Limbs := [1, 0, 0, 0]
  const R_INV: nat := 0x15ebf95182c5551cc8260de4aeb85d5d090ef5a9e111ec87dc5ba0056db1194e

  /** A reduced element, stored as its value times R. */
  type Fr = l: Limbs | LimbsVal(l) < MODULUS witness [0, 0, 0, 0]

  type Bytes32 = b: seq<byte> | |b| == 32 witness seq(32, _ => 0)

  /** The residue an element stands for. */
  function Decode(a: Fr): (v: nat)
    ensures v < MODULUS
  {
    (LimbsVal(a) * R_INV) % MODULUS
  }

  function LimbsOf(v: nat): (l: Limbs)
    requires v < R
    ensures LimbsVal(l) == v
  {
    var h1 := v / W;
    var h2 := h1 / W;
    assert v == v % W + W * h1;
    assert h1 == h1 % W + W * h2;
    assert h2 == h2 % W + W * (h2 / W);
    assert h2 / W < W;
    [v % W, h1 % W, h2 % W, h2 / W]
  }

  /** The element standing for the residue of `x`. */
  function Encode(x: int): Fr {
    LimbsOf((x * R) % MODULUS)
  }

  lemma LowLimb(x: u64, h: nat, y: u64, k: nat)
    requires x + W * h == y + W * k
    ensures x == y && h == k
  {
  }

  lemma LimbsInjective(a: Limbs, b: Limbs)
    requires LimbsVal(a) == LimbsVal(b)
    ensures a == b
  {
    LowLimb(a[0], a[1] + W * a[2] + W * W * a[3], b[0], b[1] + W * b[2] + W * W * b[3]);
    LowLimb(a[1], a[2] + W * a[3], b[1], b[2] + W * b[3]);
    LowLimb(a[2], a[3], b[2], b[3]);
  }

  // ----- residues -----

  lemma ModShift(a: int, k: int)
    ensures (a + k * MODULUS) % MODULUS == a % MODULUS
  {
  }

  lemma ModMul(x: int, y: int)
    ensures ((x % MODULUS) * y) % MODULUS == (x * y) % MODULUS
    ensures (x * (y % MODULUS)) % MODULUS == (x * y) % MODULUS
  {
    var q1, r1, q2, r2 := x / MODULUS, x % MODULUS, y / MODULUS, y % MODULUS;
    assert x == r1 + q1 * MODULUS && y == r2 + q2 * MODULUS;
    assert x * y == r1 * y + (q1 * y) * MODULUS;
    assert x * y == x * r2 + (x * q2) * MODULUS;
    ModShift(r1 * y, q1 * y);
    ModShift(x * r2, x * q2);
  }

  lemma CongruentMul(x: int, y: int, z: int)
    requires Congruent(x, y)
    ensures Congruent(x * z, y * z)
  {
    ModMul(x, z);
    ModMul(y, z);
  }

  /** R * R_INV is 1 modulo the modulus. */
  lemma CancelR(x: int)
    ensures Congruent(x * R * R_INV, x) && Congruent(x * R_INV * R, x)
  {
    var k := 0x73f82f1d0d8341b2e39a9828990623916586864b4c6911b3c2e1f593efffffff;
    assert R * R_INV == 1 + k * MODULUS;
    assert x * R * R_INV == x + (x * k) * MODULUS;
    assert x * R_INV * R == x * R * R_INV;
    ModShift(x, x * k);
  }

  lemma DecodeEncode(x: int)
    ensures Decode(Encode(x)) == x % MODULUS
  {
    ModMul(x * R, R_INV);
    CancelR(x);
  }

  /** A reduced number congruent to `v * R` is the element standing for `v`. */
  lemma EncodedBy(out: Limbs, v: int)
    requires LimbsVal(out) < MODULUS && Congruent(LimbsVal(out), v * R)
    ensures out == Encode(v)
  {
    LimbsInjective(out, Encode(v));
  }

  lemma EncodeDecode(a: Fr)
    ensures Encode(Decode(a)) == a
  {
    hide LimbsVal, Encode, MODULUS, R, R_INV;
    var v := LimbsVal(a);
    DecodeTimesR(v);
    EncodedBy(a, Decode(a));
  }

  lemma DecodeTimesR(v: nat)
    ensures Congruent(v, ((v * R_INV) % MODULUS) * R)
  {
    ModMul(v * R_INV, R);
    CancelR(v);
  }

  // ----- the codec -----

  /** The codec as functions of the byte string: exactly the strings below the modulus decode. */
  function FromBytes(b: Bytes32): Option<Fr> {
    if BeVal(b) < MODULUS then Some(Encode(BeVal(b))) else None
  }

  function ToBytes(a: Fr): Bytes32 {
    BeBytes(Decode(a), 32)
  }

  lemma Pow256Values()
    ensures Pow256(8) == W && Pow256(32) == R
  {
    assert Pow256(4) == 256 * 256 * 256 * 256;
    PowAdd(4, 4);
    PowAdd(8, 8);
    PowAdd(16, 16);
  }

  /** The codec is a bijection between the strings below the modulus and the field. */
  lemma DecodedBytesEncodeBack(b: Bytes32)
    ensures FromBytes(b).Some? <==> BeVal(b) < MODULUS
    ensures FromBytes(b).Some? ==> ToBytes(FromBytes(b).value) == b
  {
    hide Encode, Decode, BeVal, BeBytes;
    DecodeEncode(BeVal(b));
    BeWriteRead(b);
  }

  lemma EncodedElementDecodesBack(a: Fr)
    ensures FromBytes(ToBytes(a)) == Some(a)
  {
    hide Encode, Decode, BeVal, BeBytes;
    Pow256Values();
    BeReadWrite(Decode(a), 32);
    EncodeDecode(a);
  }

  ghost function BeLimb(b: Bytes32, i: nat): nat
    requires i < 4
  {
    BeVal(b[(3 - i) * 8..(3 - i) * 8 + 8])
  }

  lemma BeLimbs(b: Bytes32)
    ensures BeVal(b) == BeLimb(b, 0) + W * BeLimb(b, 1) + W * W * BeLimb(b, 2) + W * W * W * BeLimb(b, 3)
    ensures forall i :: 0 <= i < 4 ==> BeLimb(b, i) < W
  {
    hide BeVal, Pow256;
    Pow256Values();
    forall i | 0 <= i < 4 ensures BeLimb(b, i) < W { BeBound(b[(3 - i) * 8..(3 - i) * 8 + 8]); }
    assert b == b[..24] + b[24..];
    BeConcat(b[..24], b[24..]);
    assert b[..24] == b[..16] + b[16..24];
    BeConcat(b[..16], b[16..24]);
    assert b[..16] == b[..8] + b[8..16];
    BeConcat(b[..8], b[8..16]);
    assert b[0..8] == b[..8] && b[24..32] == b[24..];
  }

  method LimbsFromBe(bytes: Bytes32) returns (out: array<u64>)
    ensures fresh(out) && out.Length == 4 && LimbsVal(out[..]) == BeVal(bytes)
  {
    hide BeVal;
    BeLimbs(bytes);
    out := new u64[4](_ => 0);
    var i := 0;
    while i < 4
      invariant 0 <= i <= 4
      invariant forall k :: 0 <= k < i ==> out[k] == BeLimb(bytes, k)
    {
      var offset := (3 - i) * 8;
      assert BeVal(bytes[offset..offset + 8]) == BeLimb(bytes, i);
      out[i] := BeVal(bytes[offset..offset + 8]);
      i := i + 1;
    }
  }

  /** Byte-wise comparison from the most significant end. */
  method IsStrictlyLess(a: Bytes32, b: Bytes32) returns (r: bool)
    ensures r == (BeVal(a) < BeVal(b))
  {
    for i := 0 to 32
      invariant a[..i] == b[..i]
    {
      if a[i] < b[i] {
        FirstDifference(a, b, i);
        return true;
      }
      if a[i] > b[i] {
        FirstDifference(b, a, i);
        return false;
      }
    }
    assert a == b;
    return false;
  }

  lemma BeFour(a: seq<byte>, b0: byte, b1: byte, b2: byte, b3: byte)
    ensures BeVal(a + [b0, b1, b2, b3]) == BeVal(a) * 0x1_0000_0000 + b0 * 0x100_0000 + b1 * 0x1_0000 + b2 * 0x100 + b3
  {
    hide BeVal;
    BeSnoc(a, b0);
    BeSnoc(a + [b0], b1);
    BeSnoc(a + [b0] + [b1], b2);
    BeSnoc(a + [b0] + [b1] + [b2], b3);
    assert a + [b0, b1, b2, b3] == a + [b0] + [b1] + [b2] + [b3];
  }

  lemma BeQuad(m: seq<byte>, i: nat, b0: byte, b1: byte, b2: byte, b3: byte)
    requires i + 4 <= |m| && m[i] == b0 && m[i + 1] == b1 && m[i + 2] == b2 && m[i + 3] == b3
    ensures BeVal(m[..i + 4]) == BeVal(m[..i]) * 0x1_0000_0000 + b0 * 0x100_0000 + b1 * 0x1_0000 + b2 * 0x100 + b3
  {
    hide BeVal;
    assert m[..i + 4] == m[..i] + [b0, b1, b2, b3];
    BeFour(m[..i], b0, b1, b2, b3);
  }

  lemma ModulusHighBytes()
    ensures BeVal(MODULUS_BE[..16]) == 0x30644e72e131a029b85045b68181585d
  {
    var m := MODULUS_BE;
    assert BeVal(m[..0]) == 0;
    hide BeVal;
    BeQuad(m, 0, 0x30, 0x64, 0x4e, 0x72);
    BeQuad(m, 4, 0xe1, 0x31, 0xa0, 0x29);
    BeQuad(m, 8, 0xb8, 0x50, 0x45, 0xb6);
    BeQuad(m, 12, 0x81, 0x81, 0x58, 0x5d);
  }

  lemma ModulusLowBytes()
    ensures BeVal(MODULUS_BE) == BeVal(MODULUS_BE[..16]) * W * W + 0x2833e84879b9709143e1f593f0000001
  {
    var m := MODULUS_BE;
    hide BeVal;
    BeQuad(m, 16, 0x28, 0x33, 0xe8, 0x48);
    BeQuad(m, 20, 0x79, 0xb9, 0x70, 0x91);
    BeQuad(m, 24, 0x43, 0xe1, 0xf5, 0x93);
    BeQuad(m, 28, 0xf0, 0x00, 0x00, 0x01);
    assert m[..32] == m;
  }

  /** The modulus written as bytes is the modulus written as limbs. */
  lemma ModulusBytes()
    ensures BeVal(MODULUS_BE) == MODULUS
  {
    hide BeVal, MODULUS_BE;
    ModulusHighBytes();
    ModulusLowBytes();
  }

  lemma LimbConstants()
    ensures LimbsVal(ONE_64) == 1
    ensures LimbsVal(R2_64) < MODULUS && Congruent(LimbsVal(R2_64), R * R)
  {
    var k := 0x54a47462623a04a7ab074a58680730147144852009e880ae620703a6be1de9259;
    assert LimbsVal(R2_64) == R * R - k * MODULUS;
  }
}
