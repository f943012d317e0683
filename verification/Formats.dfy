/**
 Byte formats: how a value is written, how it is read off the front of a byte string, and the law
 that the two are inverse to each other.
 */
module Formats {
  import opened Wrappers
  import opened Bytes
  import opened Plonk

  /** Reading takes a value off the front, or fails. */
  type Parse<!V> = seq<byte> -> Result<(V, seq<byte>), Error>

  /** Written values are read back whatever follows. */
  ghost predicate ReadsBack<V(!new)>(p: Parse<V>, w: V -> seq<byte>, ok: V -> bool) {
    forall v, rest :: ok(v) ==> p(w(v) + rest) == Ok((v, rest))
  }

  /** Only written values are read. */
  ghost predicate OnlyWritten<V(!new)>(p: Parse<V>, w: V -> seq<byte>, ok: V -> bool) {
    forall b :: p(b).Ok? ==> ok(p(b).value.0) && b == w(p(b).value.0) + p(b).value.1
  }

  ghost predicate Lawful<V(!new)>(p: Parse<V>, w: V -> seq<byte>, ok: V -> bool) {
    ReadsBack(p, w, ok) && OnlyWritten(p, w, ok)
  }

  lemma Reads<V(!new)>(p: Parse<V>, w: V -> seq<byte>, ok: V -> bool, v: V, rest: seq<byte>)
    requires Lawful(p, w, ok) && ok(v)
    ensures p(w(v) + rest) == Ok((v, rest))
  {
  }

  lemma ReadsOnly<V(!new)>(p: Parse<V>, w: V -> seq<byte>, ok: V -> bool, b: seq<byte>)
    requires Lawful(p, w, ok) && p(b).Ok?
    ensures ok(p(b).value.0) && b == w(p(b).value.0) + p(b).value.1
  {
  }

  // ----- a fixed number of values -----

  ghost function Many<V>(p: Parse<V>, n: nat, b: seq<byte>): Result<(seq<V>, seq<byte>), Error> {
    if n == 0 then Ok(([], b))
    else
      var first := p(b);
      if first.Err? then Err(first.error) else Prepend([first.value.0], Many(p, n - 1, first.value.1))
  }

  ghost function Prepend<V>(vs: seq<V>, r: Result<(seq<V>, seq<byte>), Error>): Result<(seq<V>, seq<byte>), Error> {
    if r.Err? then r else Ok((vs + r.value.0, r.value.1))
  }

  lemma PrependTwice<V>(a: seq<V>, b: seq<V>, r: Result<(seq<V>, seq<byte>), Error>)
    ensures Prepend(a, Prepend(b, r)) == Prepend(a + b, r)
    ensures Prepend([], r) == r
  {
    if r.Ok? {
      assert a + (b + r.value.0) == a + b + r.value.0;
      assert [] + r.value.0 == r.value.0;
    }
  }

  /** One more value of a counted loop. */
  lemma ManyStep<V>(p: Parse<V>, n: nat, out: seq<V>, b: seq<byte>)
    requires n > 0
    ensures Prepend(out, Many(p, n, b)) ==
            if p(b).Err? then Err(p(b).error) else Prepend(out + [p(b).value.0], Many(p, n - 1, p(b).value.1))
  {
    if p(b).Ok? {
      PrependTwice(out, [p(b).value.0], Many(p, n - 1, p(b).value.1));
    }
  }

  lemma ManyDone<V>(p: Parse<V>, out: seq<V>, b: seq<byte>)
    ensures Prepend(out, Many(p, 0, b)) == Ok((out, b))
  {
    assert out + [] == out;
  }

  lemma ManyStart<V>(p: Parse<V>, n: nat, b: seq<byte>)
    ensures Prepend([], Many(p, n, b)) == Many(p, n, b)
  {
    PrependTwice([], [], Many(p, n, b));
  }

  ghost function WriteAll<V>(w: V -> seq<byte>, vs: seq<V>): seq<byte> {
    if vs == [] then [] else w(vs[0]) + WriteAll(w, vs[1..])
  }

  lemma {:induction false} WriteAllSnoc<V>(w: V -> seq<byte>, vs: seq<V>, v: V)
    ensures WriteAll(w, vs + [v]) == WriteAll(w, vs) + w(v)
  {
    if vs == [] {
      assert WriteAll(w, []) == [];
      assert (vs + [v])[1..] == [];
      assert w(v) + [] == w(v) == [] + w(v);
    } else {
      assert (vs + [v])[1..] == vs[1..] + [v];
      WriteAllSnoc(w, vs[1..], v);
      assert w(vs[0]) + (WriteAll(w, vs[1..]) + w(v)) == w(vs[0]) + WriteAll(w, vs[1..]) + w(v);
    }
  }

  ghost predicate AllOk<V(!new)>(ok: V -> bool, vs: seq<V>) {
    forall v :: v in vs ==> ok(v)
  }

  lemma {:induction false} ManyReadsBack<V(!new)>(p: Parse<V>, w: V -> seq<byte>, ok: V -> bool, vs: seq<V>, rest: seq<byte>)
    requires ReadsBack(p, w, ok) && AllOk(ok, vs)
    ensures Many(p, |vs|, WriteAll(w, vs) + rest) == Ok((vs, rest))
  {
    if vs == [] {
      assert [] + rest == rest;
    } else {
      assert WriteAll(w, vs) + rest == w(vs[0]) + (WriteAll(w, vs[1..]) + rest);
      assert p(w(vs[0]) + (WriteAll(w, vs[1..]) + rest)) == Ok((vs[0], WriteAll(w, vs[1..]) + rest));
      ManyReadsBack(p, w, ok, vs[1..], rest);
      assert [vs[0]] + vs[1..] == vs;
    }
  }

  lemma ManyReads<V(!new)>(p: Parse<V>, w: V -> seq<byte>, ok: V -> bool, vs: seq<V>, rest: seq<byte>)
    requires Lawful(p, w, ok) && AllOk(ok, vs)
    ensures Many(p, |vs|, WriteAll(w, vs) + rest) == Ok((vs, rest))
  {
    hide Many, WriteAll;
    ManyReadsBack(p, w, ok, vs, rest);
  }

  lemma {:induction false} ManyOnlyWritten<V(!new)>(p: Parse<V>, w: V -> seq<byte>, ok: V -> bool, n: nat, b: seq<byte>)
    requires OnlyWritten(p, w, ok) && Many(p, n, b).Ok?
    ensures var r := Many(p, n, b).value;
      |r.0| == n && AllOk(ok, r.0) && b == WriteAll(w, r.0) + r.1
  {
    if n == 0 {
      assert [] + b == b;
    } else {
      var v, rest := p(b).value.0, p(b).value.1;
      assert ok(v) && b == w(v) + rest;
      ManyOnlyWritten(p, w, ok, n - 1, rest);
      var vs, tail := Many(p, n - 1, rest).value.0, Many(p, n - 1, rest).value.1;
      assert ([v] + vs)[1..] == vs;
      assert w(v) + (WriteAll(w, vs) + tail) == w(v) + WriteAll(w, vs) + tail;
    }
  }

  lemma ManyReadsOnly<V(!new)>(p: Parse<V>, w: V -> seq<byte>, ok: V -> bool, n: nat, b: seq<byte>)
    requires Lawful(p, w, ok) && Many(p, n, b).Ok?
    ensures var r := Many(p, n, b).value;
      |r.0| == n && AllOk(ok, r.0) && b == WriteAll(w, r.0) + r.1
  {
    hide Many, WriteAll;
    ManyOnlyWritten(p, w, ok, n, b);
  }

  // ----- bytes and integers -----

  ghost function ParseBytes(n: nat, b: seq<byte>): Result<(seq<byte>, seq<byte>), Error> {
    if |b| < n then Err(InvalidVkEncoding) else Ok((b[..n], b[n..]))
  }

  ghost function ParseU32(b: seq<byte>): Result<(u32, seq<byte>), Error> {
    if |b| < 4 then Err(InvalidVkEncoding)
    else
      U32Bound(b[..4]);
      Ok((LeVal(b[..4]), b[4..]))
  }

  ghost function WriteU32(x: u32): seq<byte> {
    LeBytes(x, 4)
  }

  lemma U32Reads(x: u32, rest: seq<byte>)
    ensures ParseU32(WriteU32(x) + rest) == Ok((x, rest))
  {
    hide LeBytes, LeVal, Pow256;
    U32Range();
    LeReadWrite(x, 4);
    assert (LeBytes(x, 4) + rest)[..4] == LeBytes(x, 4) && (LeBytes(x, 4) + rest)[4..] == rest;
  }

  lemma U32ReadsOnly(b: seq<byte>)
    requires ParseU32(b).Ok?
    ensures b == WriteU32(ParseU32(b).value.0) + ParseU32(b).value.1
  {
    hide LeBytes, LeVal;
    LeWriteRead(b[..4]);
    assert b == b[..4] + b[4..];
  }

  /** Two's complement. */
  function SignedOf(u: u32): i32 {
    if u < 0x8000_0000 then u else u - 0x1_0000_0000
  }

  function UnsignedOf(i: i32): u32 {
    if i >= 0 then i else i + 0x1_0000_0000
  }

  lemma BytesRead(v: seq<byte>, rest: seq<byte>)
    ensures ParseBytes(|v|, v + rest) == Ok((v, rest))
  {
    assert (v + rest)[..|v|] == v && (v + rest)[|v|..] == rest;
  }

  lemma BytesReadOnly(n: nat, b: seq<byte>)
    requires ParseBytes(n, b).Ok?
    ensures b == ParseBytes(n, b).value.0 + ParseBytes(n, b).value.1 && |ParseBytes(n, b).value.0| == n
  {
  }

  // ----- length-prefixed values -----

  ghost function ParseBlob(b: seq<byte>): Result<(seq<byte>, seq<byte>), Error> {
    var n := ParseU32(b);
    if n.Err? then Err(n.error) else ParseBytes(n.value.0, n.value.1)
  }

  ghost predicate FitsU32(n: nat) {
    n < 0x1_0000_0000
  }

  ghost predicate BlobOk(v: seq<byte>) {
    FitsU32(|v|)
  }

  ghost function WriteBlob(v: seq<byte>): seq<byte> {
    (if FitsU32(|v|) then WriteU32(|v|) else []) + v
  }

  lemma BlobLawful()
    ensures Lawful(ParseBlob, WriteBlob, BlobOk)
  {
    hide ParseU32, WriteU32, ParseBytes;
    forall v: seq<byte>, rest: seq<byte> | BlobOk(v) ensures ParseBlob(WriteBlob(v) + rest) == Ok((v, rest)) {
      assert WriteBlob(v) + rest == WriteU32(|v|) + (v + rest);
      U32Reads(|v|, v + rest);
      BytesRead(v, rest);
    }
    forall b: seq<byte> | ParseBlob(b).Ok?
      ensures BlobOk(ParseBlob(b).value.0) && b == WriteBlob(ParseBlob(b).value.0) + ParseBlob(b).value.1
    {
      U32ReadsOnly(b);
      BytesReadOnly(ParseU32(b).value.0, ParseU32(b).value.1);
    }
  }

  ghost function ParseCounted<V>(p: Parse<V>, b: seq<byte>): Result<(seq<V>, seq<byte>), Error> {
    var n := ParseU32(b);
    if n.Err? then Err(n.error) else Many(p, n.value.0, n.value.1)
  }

  ghost function WriteCounted<V>(w: V -> seq<byte>, vs: seq<V>): seq<byte> {
    (if FitsU32(|vs|) then WriteU32(|vs|) else []) + WriteAll(w, vs)
  }

  lemma CountedReads<V(!new)>(p: Parse<V>, w: V -> seq<byte>, ok: V -> bool, vs: seq<V>, rest: seq<byte>)
    requires Lawful(p, w, ok) && AllOk(ok, vs) && FitsU32(|vs|)
    ensures ParseCounted(p, WriteCounted(w, vs) + rest) == Ok((vs, rest))
  {
    hide ParseU32, WriteU32, Lawful, Many, WriteAll, AllOk;
    assert WriteCounted(w, vs) + rest == WriteU32(|vs|) + (WriteAll(w, vs) + rest);
    U32Reads(|vs|, WriteAll(w, vs) + rest);
    ManyReads(p, w, ok, vs, rest);
  }

  lemma CountedReadsOnly<V(!new)>(p: Parse<V>, w: V -> seq<byte>, ok: V -> bool, b: seq<byte>)
    requires Lawful(p, w, ok) && ParseCounted(p, b).Ok?
    ensures var r := ParseCounted(p, b).value;
      FitsU32(|r.0|) && AllOk(ok, r.0) && b == WriteCounted(w, r.0) + r.1
  {
    hide ParseU32, WriteU32, Lawful, Many, WriteAll, AllOk;
    U32ReadsOnly(b);
    var n, rest := ParseU32(b).value.0, ParseU32(b).value.1;
    ManyReadsOnly(p, w, ok, n, rest);
    var r := ParseCounted(p, b).value;
    assert WriteU32(n) + (WriteAll(w, r.0) + r.1) == WriteU32(n) + WriteAll(w, r.0) + r.1;
  }
}
