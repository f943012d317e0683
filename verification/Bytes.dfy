/** Byte strings and the integers they denote, in both byte orders. */
module Bytes {

  type byte = x: nat | x < 256

  ghost function Pow256(n: nat): (p: nat)
    ensures p > 0
  {
    if n == 0 then 1 else 256 * Pow256(n - 1)
  }

  function BeVal(b: seq<byte>): nat {
    if b == [] then 0 else BeVal(b[..|b| - 1]) * 256 + b[|b| - 1]
  }

  /** The low `n` bytes of `x`, most significant first. */
  function BeBytes(x: nat, n: nat): (b: seq<byte>)
    ensures |b| == n
  {
    if n == 0 then [] else BeBytes(x / 256, n - 1) + [x % 256]
  }

  lemma {:induction false} PowAdd(m: nat, n: nat)
    ensures Pow256(m + n) == Pow256(m) * Pow256(n)
  {
    if m > 0 {
      PowAdd(m - 1, n);
    }
  }

  lemma {:induction false} BeConcat(a: seq<byte>, b: seq<byte>)
    ensures BeVal(a + b) == BeVal(a) * Pow256(|b|) + BeVal(b)
  {
    if b == [] {
      assert a + b == a;
    } else {
      var b', x := b[..|b| - 1], b[|b| - 1];
      assert (a + b)[..|a + b| - 1] == a + b';
      BeConcat(a, b');
      assert (BeVal(a) * Pow256(|b'|) + BeVal(b')) * 256 + x == BeVal(a) * (256 * Pow256(|b'|)) + (BeVal(b') * 256 + x);
    }
  }

  lemma {:induction false} BeBound(b: seq<byte>)
    ensures BeVal(b) < Pow256(|b|)
  {
    if b != [] {
      BeBound(b[..|b| - 1]);
    }
  }

  /** Reading back written bytes gives the number modulo 256^n. */
  lemma {:induction false} BeReadWrite(x: nat, n: nat)
    requires x < Pow256(n)
    ensures BeVal(BeBytes(x, n)) == x
  {
    if n > 0 {
      BeReadWrite(x / 256, n - 1);
      assert BeBytes(x, n)[..n - 1] == BeBytes(x / 256, n - 1);
    }
  }

  /** Writing back the number read gives the same bytes. */
  lemma {:induction false} BeWriteRead(b: seq<byte>)
    ensures BeBytes(BeVal(b), |b|) == b
  {
    if b != [] {
      BeWriteRead(b[..|b| - 1]);
    }
  }

  lemma BeInjective(a: seq<byte>, b: seq<byte>)
    requires |a| == |b| && BeVal(a) == BeVal(b)
    ensures a == b
  {
    BeWriteRead(a);
    BeWriteRead(b);
  }

  lemma BeSnoc(b: seq<byte>, x: byte)
    ensures BeVal(b + [x]) == BeVal(b) * 256 + x
  {
    assert (b + [x])[..|b|] == b;
  }

  lemma HighPartDecides(h1: nat, h2: nat, p: nat, l1: nat, l2: nat)
    requires h1 < h2 && l1 < p
    ensures h1 * p + l1 < h2 * p + l2
  {
    assert (h1 + 1) * p <= h2 * p;
  }

  /** The first differing byte decides which of two equally long strings is smaller. */
  lemma FirstDifference(a: seq<byte>, b: seq<byte>, i: nat)
    requires |a| == |b| && i < |a|
    requires a[..i] == b[..i] && a[i] < b[i]
    ensures BeVal(a) < BeVal(b)
  {
    hide BeVal, Pow256;
    var ha, hb := a[..i] + [a[i]], b[..i] + [b[i]];
    assert a == ha + a[i + 1..] && b == hb + b[i + 1..];
    BeConcat(ha, a[i + 1..]);
    BeConcat(hb, b[i + 1..]);
    BeSnoc(a[..i], a[i]);
    BeSnoc(b[..i], b[i]);
    BeBound(a[i + 1..]);
    HighPartDecides(BeVal(ha), BeVal(hb), Pow256(|a| - i - 1), BeVal(a[i + 1..]), BeVal(b[i + 1..]));
  }

  // ----- least significant byte first -----

  function LeVal(b: seq<byte>): nat {
    if b == [] then 0 else b[0] + 256 * LeVal(b[1..])
  }

  function LeBytes(x: nat, n: nat): (b: seq<byte>)
    ensures |b| == n
  {
    if n == 0 then [] else [x % 256] + LeBytes(x / 256, n - 1)
  }

  lemma {:induction false} LeBound(b: seq<byte>)
    ensures LeVal(b) < Pow256(|b|)
  {
    if b != [] {
      LeBound(b[1..]);
    }
  }

  lemma {:induction false} LeReadWrite(x: nat, n: nat)
    requires x < Pow256(n)
    ensures LeVal(LeBytes(x, n)) == x
  {
    if n > 0 {
      LeReadWrite(x / 256, n - 1);
      assert LeBytes(x, n)[1..] == LeBytes(x / 256, n - 1);
    }
  }

  lemma LowestDigit(d: byte, v: nat)
    ensures (d + 256 * v) % 256 == d && (d + 256 * v) / 256 == v
  {
  }

  lemma {:induction false} LeWriteRead(b: seq<byte>)
    ensures LeBytes(LeVal(b), |b|) == b
  {
    if b != [] {
      LeWriteRead(b[1..]);
      LowestDigit(b[0], LeVal(b[1..]));
      assert [b[0]] + b[1..] == b;
    }
  }

  lemma U32Bound(b: seq<byte>)
    requires |b| == 4
    ensures LeVal(b) < 0x1_0000_0000
  {
    LeBound(b);
    U32Range();
  }

  lemma U32Range()
    ensures Pow256(4) == 0x1_0000_0000
  {
    assert Pow256(2) == 65536 && Pow256(3) == 16777216;
  }

  /** Equal concatenations of equally long parts have equal parts. */
  lemma SplitEqual<T>(a: seq<T>, x: seq<T>, b: seq<T>, y: seq<T>)
    requires a + x == b + y && (|a| == |b| || |x| == |y|)
    ensures a == b && x == y
  {
    assert |a| == |b| && |x| == |y|;
    assert a == (a + x)[..|a|] && b == (b + y)[..|b|];
    assert x == (a + x)[|a|..] && y == (b + y)[|b|..];
  }

  lemma DivideTwice(x: nat, b: nat)
    requires b > 0
    ensures x / 256 / b == x / (256 * b)
  {
    var q, r := x / 256, x % 256;
    var p, s := q / b, q % b;
    assert q == b * p + s;
    assert (256 * b) * p == 256 * (b * p);
    QuotientIs(x, 256 * b, p, 256 * s + r);
  }

  lemma QuotientIs(x: nat, d: nat, q: nat, r: nat)
    requires x == d * q + r && r < d
    ensures x / d == q
  {
    var other := x / d;
    assert x == d * other + x % d;
    assert d * (other - q) == r - x % d;
    assert other - q >= 1 ==> d * (other - q) >= d;
    assert other - q <= -1 ==> d * (other - q) <= -(d as int);
  }

  /** The i-th lowest byte is the i-th digit to base 256: last but i in one order, i-th in the other. */
  lemma {:induction false} ByteOrders(x: nat, n: nat, i: nat)
    requires i < n
    ensures BeBytes(x, n)[n - 1 - i] == x / Pow256(i) % 256 == LeBytes(x, n)[i]
  {
    if i > 0 {
      ByteOrders(x / 256, n - 1, i - 1);
      DivideTwice(x, Pow256(i - 1));
    }
  }
}
