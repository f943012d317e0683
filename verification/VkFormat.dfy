/**
 The byte format of a verifying key: what is written for each part, how each part is read, and the
 proof that reading and writing are inverse bijections between well-formed keys and accepted bytes.
 */
module VkFormat {
  import opened Wrappers
  import opened Bytes
  import opened Fields
  import opened Plonk
  import opened Expression
  import opened Formats

  type VerifyingKey<F> = PlonkProtocol<F, seq<byte>>

  // ----- queries, gates, points, permuted columns -----

  ghost function ParseQuery(b: seq<byte>): Result<((u32, i32), seq<byte>), Error> {
    var col := ParseU32(b);
    if col.Err? then Err(col.error)
    else
      var rot := ParseU32(col.value.1);
      if rot.Err? then Err(rot.error) else Ok(((col.value.0, SignedOf(rot.value.0)), rot.value.1))
  }

  ghost function WriteQuery(q: (u32, i32)): seq<byte> {
    WriteU32(q.0) + WriteU32(UnsignedOf(q.1))
  }

  ghost predicate Any<V>(v: V) {
    true
  }

  lemma QueryLawful()
    ensures Lawful(ParseQuery, WriteQuery, Any)
  {
    hide ParseU32, WriteU32;
    forall q: (u32, i32), rest: seq<byte> ensures ParseQuery(WriteQuery(q) + rest) == Ok((q, rest)) {
      assert WriteQuery(q) + rest == WriteU32(q.0) + (WriteU32(UnsignedOf(q.1)) + rest);
      U32Reads(q.0, WriteU32(UnsignedOf(q.1)) + rest);
      U32Reads(UnsignedOf(q.1), rest);
    }
    forall b: seq<byte> | ParseQuery(b).Ok? ensures b == WriteQuery(ParseQuery(b).value.0) + ParseQuery(b).value.1 {
      U32ReadsOnly(b);
      U32ReadsOnly(ParseU32(b).value.1);
    }
  }

  ghost function ParseGate(b: seq<byte>): Result<(seq<seq<byte>>, seq<byte>), Error> {
    ParseCounted(ParseBlob, b)
  }

  ghost function WriteGate(polys: seq<seq<byte>>): seq<byte> {
    WriteCounted(WriteBlob, polys)
  }

  ghost predicate GateOk(polys: seq<seq<byte>>) {
    FitsU32(|polys|) && AllOk(BlobOk, polys)
  }

  lemma GateLawful()
    ensures Lawful(ParseGate, WriteGate, GateOk)
  {
    hide ParseCounted, WriteCounted, AllOk;
    BlobLawful();
    forall v: seq<seq<byte>>, rest: seq<byte> | GateOk(v) ensures ParseGate(WriteGate(v) + rest) == Ok((v, rest)) {
      CountedReads(ParseBlob, WriteBlob, BlobOk, v, rest);
    }
    forall b: seq<byte> | ParseGate(b).Ok? ensures GateOk(ParseGate(b).value.0) && b == WriteGate(ParseGate(b).value.0) + ParseGate(b).value.1 {
      CountedReadsOnly(ParseBlob, WriteBlob, BlobOk, b);
    }
  }

  /** An uncompressed point. */
  ghost function ParsePoint(b: seq<byte>): Result<(seq<byte>, seq<byte>), Error> {
    ParseBytes(64, b)
  }

  ghost function WritePoint(p: seq<byte>): seq<byte> {
    p
  }

  ghost predicate PointOk(p: seq<byte>) {
    |p| == 64
  }

  lemma PointLawful()
    ensures Lawful(ParsePoint, WritePoint, PointOk)
  {
    forall p: seq<byte>, rest: seq<byte> | PointOk(p) ensures ParsePoint(WritePoint(p) + rest) == Ok((p, rest)) {
      BytesRead(p, rest);
    }
  }

  ghost function ParseColumn(b: seq<byte>): Result<((byte, u32), seq<byte>), Error> {
    if b == [] || b[0] > 2 then Err(InvalidVkEncoding)
    else
      var i := ParseU32(b[1..]);
      if i.Err? then Err(i.error) else Ok(((b[0], i.value.0), i.value.1))
  }

  ghost function WriteColumn(c: (byte, u32)): seq<byte> {
    [c.0] + WriteU32(c.1)
  }

  ghost predicate ColumnOk(c: (byte, u32)) {
    c.0 <= 2
  }

  lemma ColumnLawful()
    ensures Lawful(ParseColumn, WriteColumn, ColumnOk)
  {
    hide ParseU32, WriteU32;
    forall c: (byte, u32), rest: seq<byte> | ColumnOk(c) ensures ParseColumn(WriteColumn(c) + rest) == Ok((c, rest)) {
      assert (WriteColumn(c) + rest)[1..] == WriteU32(c.1) + rest;
      U32Reads(c.1, rest);
    }
    forall b: seq<byte> | ParseColumn(b).Ok?
      ensures ColumnOk(ParseColumn(b).value.0) && b == WriteColumn(ParseColumn(b).value.0) + ParseColumn(b).value.1
    {
      U32ReadsOnly(b[1..]);
    }
  }

  // ----- lookups and shuffles: two equally long lists of bytecodes -----

  ghost function ParsePair(b: seq<byte>): Result<((seq<seq<byte>>, seq<seq<byte>>), seq<byte>), Error> {
    var inputs := ParseCounted(ParseBlob, b);
    if inputs.Err? then Err(inputs.error)
    else
      var n := ParseU32(inputs.value.1);
      if n.Err? then Err(n.error)
      else if n.value.0 != |inputs.value.0| then Err(InvalidVkEncoding)
      else
        var others := Many(ParseBlob, n.value.0, n.value.1);
        if others.Err? then Err(others.error) else Ok(((inputs.value.0, others.value.0), others.value.1))
  }

  ghost function WritePair(p: (seq<seq<byte>>, seq<seq<byte>>)): seq<byte> {
    WriteGate(p.0) + WriteGate(p.1)
  }

  ghost predicate PairOk(p: (seq<seq<byte>>, seq<seq<byte>>)) {
    GateOk(p.0) && GateOk(p.1) && |p.0| == |p.1|
  }

  lemma PairLawful()
    ensures Lawful(ParsePair, WritePair, PairOk)
  {
    hide ParseU32, WriteU32, Many, WriteAll, AllOk, ParseBlob, WriteBlob, Lawful;
    assert Lawful(ParsePair, WritePair, PairOk) by {
      forall v: (seq<seq<byte>>, seq<seq<byte>>), rest: seq<byte> | PairOk(v) ensures ParsePair(WritePair(v) + rest) == Ok((v, rest)) {
        PairReads(v, rest);
      }
      forall b: seq<byte> | ParsePair(b).Ok? ensures PairOk(ParsePair(b).value.0) && b == WritePair(ParsePair(b).value.0) + ParsePair(b).value.1 {
        PairReadsOnly(b);
      }
      LawfulIntro(ParsePair, WritePair, PairOk);
    }
  }

  lemma LawfulIntro<V(!new)>(p: Parse<V>, w: V -> seq<byte>, ok: V -> bool)
    requires forall v, rest :: ok(v) ==> p(w(v) + rest) == Ok((v, rest))
    requires forall b :: p(b).Ok? ==> ok(p(b).value.0) && b == w(p(b).value.0) + p(b).value.1
    ensures Lawful(p, w, ok)
  {
  }

  lemma PairReads(v: (seq<seq<byte>>, seq<seq<byte>>), rest: seq<byte>)
    requires PairOk(v)
    ensures ParsePair(WritePair(v) + rest) == Ok((v, rest))
  {
    hide ParseU32, WriteU32, Many, WriteAll, AllOk, ParseBlob, WriteBlob, Lawful, ParseCounted;
    BlobLawful();
    var n := |v.1|;
    assert WritePair(v) + rest == WriteGate(v.0) + (WriteU32(n) + (WriteAll(WriteBlob, v.1) + rest));
    CountedReads(ParseBlob, WriteBlob, BlobOk, v.0, WriteU32(n) + (WriteAll(WriteBlob, v.1) + rest));
    U32Reads(n, WriteAll(WriteBlob, v.1) + rest);
    ManyReads(ParseBlob, WriteBlob, BlobOk, v.1, rest);
  }

  lemma PairReadsOnly(b: seq<byte>)
    requires ParsePair(b).Ok?
    ensures PairOk(ParsePair(b).value.0) && b == WritePair(ParsePair(b).value.0) + ParsePair(b).value.1
  {
    hide ParseU32, WriteU32, Many, WriteAll, AllOk, ParseBlob, WriteBlob, Lawful, ParseCounted;
    BlobLawful();
    CountedReadsOnly(ParseBlob, WriteBlob, BlobOk, b);
    var inputs := ParseCounted(ParseBlob, b).value;
    U32ReadsOnly(inputs.1);
    var n := ParseU32(inputs.1).value;
    ManyReadsOnly(ParseBlob, WriteBlob, BlobOk, n.0, n.1);
    var r := ParsePair(b).value;
    assert WriteGate(r.0.0) + (WriteU32(n.0) + (WriteAll(WriteBlob, r.0.1) + r.1)) == WritePair(r.0) + r.1;
  }

  ghost function ParseLookup(b: seq<byte>): Result<(LookupArgument, seq<byte>), Error> {
    var r := ParsePair(b);
    if r.Err? then Err(r.error) else Ok((LookupArgument(r.value.0.0, r.value.0.1), r.value.1))
  }

  ghost function WriteLookup(l: LookupArgument): seq<byte> {
    WritePair((l.inputExpressions, l.tableExpressions))
  }

  ghost predicate LookupOk(l: LookupArgument) {
    PairOk((l.inputExpressions, l.tableExpressions))
  }

  lemma LookupLawful()
    ensures Lawful(ParseLookup, WriteLookup, LookupOk)
  {
    hide ParsePair, WritePair, PairOk;
    PairLawful();
    forall b: seq<byte> | ParseLookup(b).Ok? ensures LookupOk(ParseLookup(b).value.0) && b == WriteLookup(ParseLookup(b).value.0) + ParseLookup(b).value.1 {
      ReadsOnly(ParsePair, WritePair, PairOk, b);
    }
  }

  ghost function ParseShuffle(b: seq<byte>): Result<(ShuffleArgument, seq<byte>), Error> {
    var r := ParsePair(b);
    if r.Err? then Err(r.error) else Ok((ShuffleArgument(r.value.0.0, r.value.0.1), r.value.1))
  }

  ghost function WriteShuffle(s: ShuffleArgument): seq<byte> {
    WritePair((s.inputExpressions, s.shuffleExpressions))
  }

  ghost predicate ShuffleOk(s: ShuffleArgument) {
    PairOk((s.inputExpressions, s.shuffleExpressions))
  }

  lemma ShuffleLawful()
    ensures Lawful(ParseShuffle, WriteShuffle, ShuffleOk)
  {
    hide ParsePair, WritePair, PairOk;
    PairLawful();
    forall b: seq<byte> | ParseShuffle(b).Ok? ensures ShuffleOk(ParseShuffle(b).value.0) && b == WriteShuffle(ParseShuffle(b).value.0) + ParseShuffle(b).value.1 {
      ReadsOnly(ParsePair, WritePair, PairOk, b);
    }
  }

  // ----- the head: magic, version, metadata, omega, transcript digest -----

  const VK_MAGIC: seq<byte> := [0x48, 0x32, 0x53, 0x56, 0x30, 0x30, 0x30, 0x33]
  const VK_VERSION: u32 := 3

  datatype Metadata = Metadata(k: u32, numInstance: u32, numAdvice: u32, numFixed: u32, csDegree: u32, numAdviceQueries: u32, numFixedQueries: u32, numInstanceQueries: u32, numChallenges: u32, blindingFactors: u32, numPermChunks: u32)

  ghost function Words(m: Metadata): (s: seq<u32>)
    ensures |s| == 11
  {
    [m.k, m.numInstance, m.numAdvice, m.numFixed, m.csDegree, m.numAdviceQueries, m.numFixedQueries, m.numInstanceQueries, m.numChallenges, m.blindingFactors, m.numPermChunks]
  }

  ghost function FromWords(s: seq<u32>): Metadata
    requires |s| == 11
  {
    Metadata(s[0], s[1], s[2], s[3], s[4], s[5], s[6], s[7], s[8], s[9], s[10])
  }

  lemma U32Lawful()
    ensures Lawful(ParseU32, WriteU32, Any)
  {
    hide ParseU32, WriteU32;
    forall x: u32, rest: seq<byte> ensures ParseU32(WriteU32(x) + rest) == Ok((x, rest)) {
      U32Reads(x, rest);
    }
    forall b: seq<byte> | ParseU32(b).Ok? ensures b == WriteU32(ParseU32(b).value.0) + ParseU32(b).value.1 {
      U32ReadsOnly(b);
    }
  }

  datatype Head<F> = Head(metadata: Metadata, omega: F, transcriptRepr: seq<byte>)

  ghost function ParseMagic(b: seq<byte>): Result<((), seq<byte>), Error> {
    var magic := ParseBytes(8, b);
    if magic.Err? then Err(magic.error)
    else if magic.value.0 != VK_MAGIC then Err(InvalidVkEncoding)
    else
      var version := ParseU32(magic.value.1);
      if version.Err? then Err(version.error)
      else if version.value.0 != VK_VERSION then Err(InvalidVkEncoding)
      else Ok(((), version.value.1))
  }

  ghost function ParseScalar<F(!new)>(f: Field<F>, b: seq<byte>): Result<(F, seq<byte>), Error> {
    var bytes := ParseBytes(32, b);
    if bytes.Err? then Err(bytes.error)
    else
      var a := ScalarFromBytes(f, bytes.value.0);
      if a.None? then Err(PublicInputOutOfRange) else Ok((a.value, bytes.value.1))
  }

  ghost function ParseHead<F(!new)>(f: Field<F>, b: seq<byte>): (r: Result<(Head<F>, seq<byte>), Error>)
  {
    var magic := ParseMagic(b);
    if magic.Err? then Err(magic.error)
    else
      var fields := Many(ParseU32, 11, magic.value.1);
      if fields.Err? then Err(fields.error)
      else
        ManyLength(ParseU32, 11, magic.value.1);
        var omega := ParseScalar(f, fields.value.1);
        if omega.Err? then Err(omega.error)
        else
          var repr := ParseBytes(32, omega.value.1);
          if repr.Err? then Err(repr.error)
          else Ok((Head(FromWords(fields.value.0), omega.value.0, repr.value.0), repr.value.1))
  }

  lemma {:induction false} ManyLength<V>(p: Parse<V>, n: nat, b: seq<byte>)
    ensures Many(p, n, b).Ok? ==> |Many(p, n, b).value.0| == n
  {
    if n > 0 && p(b).Ok? {
      ManyLength(p, n - 1, p(b).value.1);
    }
  }

  ghost function WriteMagic(): seq<byte> {
    VK_MAGIC + WriteU32(VK_VERSION)
  }

  ghost function WriteHead<F(!new)>(f: Field<F>, h: Head<F>): seq<byte> {
    WriteMagic() + (WriteAll(WriteU32, Words(h.metadata)) + (ScalarBytes(f, h.omega) + h.transcriptRepr))
  }

  lemma MagicReads(rest: seq<byte>)
    ensures ParseMagic(WriteMagic() + rest) == Ok(((), rest))
  {
    hide ParseU32, WriteU32, ParseBytes;
    assert WriteMagic() + rest == VK_MAGIC + (WriteU32(VK_VERSION) + rest);
    BytesRead(VK_MAGIC, WriteU32(VK_VERSION) + rest);
    U32Reads(VK_VERSION, rest);
  }

  lemma MagicReadsOnly(b: seq<byte>)
    requires ParseMagic(b).Ok?
    ensures b == WriteMagic() + ParseMagic(b).value.1
  {
    hide ParseU32, WriteU32;
    BytesReadOnly(8, b);
    U32ReadsOnly(b[8..]);
    var rest := ParseMagic(b).value.1;
    assert VK_MAGIC + (WriteU32(VK_VERSION) + rest) == WriteMagic() + rest;
  }

  lemma ScalarReads<F(!new)>(f: Field<F>, a: F, rest: seq<byte>)
    requires Encodable(f)
    ensures ParseScalar(f, ScalarBytes(f, a) + rest) == Ok((a, rest))
  {
    hide ScalarBytes, ScalarFromBytes, ParseBytes;
    BytesRead(ScalarBytes(f, a), rest);
    ScalarRoundTrip(f, a);
  }

  lemma ScalarReadsOnly<F(!new)>(f: Field<F>, b: seq<byte>)
    requires Encodable(f) && ParseScalar(f, b).Ok?
    ensures b == ScalarBytes(f, ParseScalar(f, b).value.0) + ParseScalar(f, b).value.1
  {
    hide ScalarBytes, ScalarFromBytes;
    BytesReadOnly(32, b);
    BytesRoundTrip(f, b[..32]);
  }

  ghost predicate HeadOk<F>(h: Head<F>) {
    |h.transcriptRepr| == 32
  }

  lemma HeadReads<F(!new)>(f: Field<F>, h: Head<F>, rest: seq<byte>)
    requires Encodable(f) && HeadOk(h)
    ensures ParseHead(f, WriteHead(f, h) + rest) == Ok((h, rest))
  {
    hide ParseMagic, WriteMagic, ParseU32, WriteU32, Many, WriteAll, ParseScalar, ScalarBytes, ParseBytes, Lawful, Encodable, Any;
    var fields := Words(h.metadata);
    var r3 := h.transcriptRepr + rest;
    var r2 := ScalarBytes(f, h.omega) + r3;
    var r1 := WriteAll(WriteU32, fields) + r2;
    assert WriteHead(f, h) + rest == WriteMagic() + r1;
    MagicReads(r1);
    U32Lawful();
    AnythingOk(fields);
    ManyReads(ParseU32, WriteU32, Any, fields, r2);
    ScalarReads(f, h.omega, r3);
    BytesRead(h.transcriptRepr, rest);
  }

  lemma AnythingOk<V(!new)>(vs: seq<V>)
    ensures AllOk(Any, vs)
  {
  }

  lemma HeadReadsOnly<F(!new)>(f: Field<F>, b: seq<byte>)
    requires Encodable(f) && ParseHead(f, b).Ok?
    ensures var r := ParseHead(f, b).value; HeadOk(r.0) && b == WriteHead(f, r.0) + r.1
  {
    hide ParseMagic, WriteMagic, ParseU32, WriteU32, Many, WriteAll, ParseScalar, ScalarBytes, Lawful, Encodable, Any;
    var r := ParseHead(f, b).value;
    MagicReadsOnly(b);
    var b1 := ParseMagic(b).value.1;
    U32Lawful();
    ManyReadsOnly(ParseU32, WriteU32, Any, 11, b1);
    var fields := Many(ParseU32, 11, b1).value;
    assert Words(r.0.metadata) == fields.0;
    ScalarReadsOnly(f, fields.1);
    BytesReadOnly(32, ParseScalar(f, fields.1).value.1);
    assert WriteMagic() + (WriteAll(WriteU32, fields.0) + (ScalarBytes(f, r.0.omega) + (r.0.transcriptRepr + r.1))) == WriteHead(f, r.0) + r.1;
  }

  // ----- the query tables -----

  type QueryTable = seq<(u32, i32)>

  datatype QueryTables = QueryTables(advice: QueryTable, fixed: QueryTable, instance: QueryTable)

  ghost function ParseQueries(m: Metadata, b: seq<byte>): Result<(QueryTables, seq<byte>), Error> {
    var advice := Many(ParseQuery, m.numAdviceQueries, b);
    if advice.Err? then Err(advice.error)
    else
      var fixed := Many(ParseQuery, m.numFixedQueries, advice.value.1);
      if fixed.Err? then Err(fixed.error)
      else
        var instance := Many(ParseQuery, m.numInstanceQueries, fixed.value.1);
        if instance.Err? then Err(instance.error)
        else Ok((QueryTables(advice.value.0, fixed.value.0, instance.value.0), instance.value.1))
  }

  ghost function WriteQueries(q: QueryTables): seq<byte> {
    WriteAll(WriteQuery, q.advice) + (WriteAll(WriteQuery, q.fixed) + WriteAll(WriteQuery, q.instance))
  }

  ghost predicate QueriesOk(m: Metadata, q: QueryTables) {
    |q.advice| == m.numAdviceQueries && |q.fixed| == m.numFixedQueries && |q.instance| == m.numInstanceQueries
  }

  lemma QueriesRead(m: Metadata, q: QueryTables, rest: seq<byte>)
    requires QueriesOk(m, q)
    ensures ParseQueries(m, WriteQueries(q) + rest) == Ok((q, rest))
  {
    hide ParseQuery, WriteQuery, Many, WriteAll, Lawful, Any, AllOk;
    QueryLawful();
    AnythingOk(q.advice);
    AnythingOk(q.fixed);
    AnythingOk(q.instance);
    var r2 := WriteAll(WriteQuery, q.instance) + rest;
    var r1 := WriteAll(WriteQuery, q.fixed) + r2;
    assert WriteQueries(q) + rest == WriteAll(WriteQuery, q.advice) + r1;
    ManyReads(ParseQuery, WriteQuery, Any, q.advice, r1);
    ManyReads(ParseQuery, WriteQuery, Any, q.fixed, r2);
    ManyReads(ParseQuery, WriteQuery, Any, q.instance, rest);
  }

  lemma QueriesReadOnly(m: Metadata, b: seq<byte>)
    requires ParseQueries(m, b).Ok?
    ensures var r := ParseQueries(m, b).value; QueriesOk(m, r.0) && b == WriteQueries(r.0) + r.1
  {
    hide ParseQuery, WriteQuery, Many, WriteAll, Lawful, Any, AllOk;
    QueryLawful();
    ManyReadsOnly(ParseQuery, WriteQuery, Any, m.numAdviceQueries, b);
    var b1 := Many(ParseQuery, m.numAdviceQueries, b).value.1;
    ManyReadsOnly(ParseQuery, WriteQuery, Any, m.numFixedQueries, b1);
    var b2 := Many(ParseQuery, m.numFixedQueries, b1).value.1;
    ManyReadsOnly(ParseQuery, WriteQuery, Any, m.numInstanceQueries, b2);
    var r := ParseQueries(m, b).value;
    assert WriteAll(WriteQuery, r.0.advice) + (WriteAll(WriteQuery, r.0.fixed) + (WriteAll(WriteQuery, r.0.instance) + r.1)) == WriteQueries(r.0) + r.1;
  }

  // ----- gates, commitments, permuted columns, lookups, shuffles -----

  datatype Body = Body(gates: seq<seq<seq<byte>>>, fixed: seq<seq<byte>>, perm: seq<seq<byte>>, columns: seq<(byte, u32)>,
                       lookups: seq<LookupArgument>, shuffles: seq<ShuffleArgument>)

  ghost function ParseColumns(count: nat, b: seq<byte>): Result<(seq<(byte, u32)>, seq<byte>), Error> {
    var n := ParseU32(b);
    if n.Err? then Err(n.error)
    else if n.value.0 != count then Err(InvalidVkEncoding)
    else Many(ParseColumn, n.value.0, n.value.1)
  }

  ghost function ParseBody(b: seq<byte>): Result<(Body, seq<byte>), Error> {
    var gates := ParseCounted(ParseGate, b);
    if gates.Err? then Err(gates.error)
    else
      var fixed := ParseCounted(ParsePoint, gates.value.1);
      if fixed.Err? then Err(fixed.error)
      else
        var perm := ParseCounted(ParsePoint, fixed.value.1);
        if perm.Err? then Err(perm.error)
        else
          var columns := ParseColumns(|perm.value.0|, perm.value.1);
          if columns.Err? then Err(columns.error)
          else
            var lookups := ParseCounted(ParseLookup, columns.value.1);
            if lookups.Err? then Err(lookups.error)
            else
              var shuffles := ParseCounted(ParseShuffle, lookups.value.1);
              if shuffles.Err? then Err(shuffles.error)
              else Ok((Body(gates.value.0, fixed.value.0, perm.value.0, columns.value.0, lookups.value.0, shuffles.value.0), shuffles.value.1))
  }

  ghost function WriteBody(y: Body): seq<byte> {
    WriteCounted(WriteGate, y.gates) + (WriteCounted(WritePoint, y.fixed) + (WriteCounted(WritePoint, y.perm)
    + (WriteCounted(WriteColumn, y.columns) + (WriteCounted(WriteLookup, y.lookups) + WriteCounted(WriteShuffle, y.shuffles)))))
  }

  ghost predicate BodyOk(y: Body) {
    && FitsU32(|y.gates|) && AllOk(GateOk, y.gates)
    && FitsU32(|y.fixed|) && AllOk(PointOk, y.fixed)
    && FitsU32(|y.perm|) && AllOk(PointOk, y.perm)
    && |y.columns| == |y.perm| && AllOk(ColumnOk, y.columns)
    && FitsU32(|y.lookups|) && AllOk(LookupOk, y.lookups)
    && FitsU32(|y.shuffles|) && AllOk(ShuffleOk, y.shuffles)
  }

  lemma ColumnsRead(columns: seq<(byte, u32)>, rest: seq<byte>)
    requires FitsU32(|columns|) && AllOk(ColumnOk, columns)
    ensures ParseColumns(|columns|, WriteCounted(WriteColumn, columns) + rest) == Ok((columns, rest))
  {
    hide ParseU32, WriteU32, Many, WriteAll, AllOk, Lawful, ParseColumn, WriteColumn;
    ColumnLawful();
    assert WriteCounted(WriteColumn, columns) + rest == WriteU32(|columns|) + (WriteAll(WriteColumn, columns) + rest);
    U32Reads(|columns|, WriteAll(WriteColumn, columns) + rest);
    ManyReads(ParseColumn, WriteColumn, ColumnOk, columns, rest);
  }

  lemma ColumnsReadOnly(count: nat, b: seq<byte>)
    requires ParseColumns(count, b).Ok?
    ensures var r := ParseColumns(count, b).value;
      |r.0| == count && FitsU32(count) && AllOk(ColumnOk, r.0) && b == WriteCounted(WriteColumn, r.0) + r.1
  {
    hide ParseU32, WriteU32, Many, WriteAll, AllOk, Lawful, ParseColumn, WriteColumn;
    ColumnLawful();
    U32ReadsOnly(b);
    var n := ParseU32(b).value;
    ManyReadsOnly(ParseColumn, WriteColumn, ColumnOk, n.0, n.1);
    var r := ParseColumns(count, b).value;
    assert WriteU32(n.0) + (WriteAll(WriteColumn, r.0) + r.1) == WriteU32(n.0) + WriteAll(WriteColumn, r.0) + r.1;
  }

  lemma BodyReads(y: Body, rest: seq<byte>)
    requires BodyOk(y)
    ensures ParseBody(WriteBody(y) + rest) == Ok((y, rest))
  {
    hide ParseGate, WriteGate, ParsePoint, WritePoint, ParseColumn, WriteColumn, ParseLookup, WriteLookup, ParseShuffle, WriteShuffle,
         ParseCounted, WriteCounted, ParseColumns, AllOk, Lawful;
    GateLawful();
    PointLawful();
    LookupLawful();
    ShuffleLawful();
    var r5 := WriteCounted(WriteShuffle, y.shuffles) + rest;
    var r4 := WriteCounted(WriteLookup, y.lookups) + r5;
    var r3 := WriteCounted(WriteColumn, y.columns) + r4;
    var r2 := WriteCounted(WritePoint, y.perm) + r3;
    var r1 := WriteCounted(WritePoint, y.fixed) + r2;
    BodyRegroup(WriteCounted(WriteGate, y.gates), WriteCounted(WritePoint, y.fixed), WriteCounted(WritePoint, y.perm),
                WriteCounted(WriteColumn, y.columns), WriteCounted(WriteLookup, y.lookups), WriteCounted(WriteShuffle, y.shuffles), rest);
    CountedReads(ParseGate, WriteGate, GateOk, y.gates, r1);
    CountedReads(ParsePoint, WritePoint, PointOk, y.fixed, r2);
    CountedReads(ParsePoint, WritePoint, PointOk, y.perm, r3);
    ColumnsRead(y.columns, r4);
    CountedReads(ParseLookup, WriteLookup, LookupOk, y.lookups, r5);
    CountedReads(ParseShuffle, WriteShuffle, ShuffleOk, y.shuffles, rest);
  }

  lemma BodyRegroup(a: seq<byte>, b: seq<byte>, c: seq<byte>, d: seq<byte>, e: seq<byte>, g: seq<byte>, rest: seq<byte>)
    ensures (a + (b + (c + (d + (e + g))))) + rest == a + (b + (c + (d + (e + (g + rest)))))
  {
    assert e + g + rest == e + (g + rest);
    assert d + (e + g) + rest == d + (e + g + rest);
    assert c + (d + (e + g)) + rest == c + (d + (e + g) + rest);
    assert b + (c + (d + (e + g))) + rest == b + (c + (d + (e + g)) + rest);
  }

  lemma BodyReadsOnly(b: seq<byte>)
    requires ParseBody(b).Ok?
    ensures var r := ParseBody(b).value; BodyOk(r.0) && b == WriteBody(r.0) + r.1
  {
    hide ParseGate, WriteGate, ParsePoint, WritePoint, ParseColumn, WriteColumn, ParseLookup, WriteLookup, ParseShuffle, WriteShuffle,
         ParseCounted, WriteCounted, ParseColumns, AllOk, Lawful;
    GateLawful();
    PointLawful();
    LookupLawful();
    ShuffleLawful();
    var y, rest := ParseBody(b).value.0, ParseBody(b).value.1;
    CountedReadsOnly(ParseGate, WriteGate, GateOk, b);
    var b1 := ParseCounted(ParseGate, b).value.1;
    CountedReadsOnly(ParsePoint, WritePoint, PointOk, b1);
    var b2 := ParseCounted(ParsePoint, b1).value.1;
    CountedReadsOnly(ParsePoint, WritePoint, PointOk, b2);
    var b3 := ParseCounted(ParsePoint, b2).value.1;
    ColumnsReadOnly(|y.perm|, b3);
    var b4 := ParseColumns(|y.perm|, b3).value.1;
    CountedReadsOnly(ParseLookup, WriteLookup, LookupOk, b4);
    var b5 := ParseCounted(ParseLookup, b4).value.1;
    CountedReadsOnly(ParseShuffle, WriteShuffle, ShuffleOk, b5);
    BodyRegroup(WriteCounted(WriteGate, y.gates), WriteCounted(WritePoint, y.fixed), WriteCounted(WritePoint, y.perm),
                WriteCounted(WriteColumn, y.columns), WriteCounted(WriteLookup, y.lookups), WriteCounted(WriteShuffle, y.shuffles), rest);
  }

  // ----- the optional phase appendix -----

  datatype Phases = Phases(count: byte, advice: seq<byte>, challenges: seq<byte>)

  ghost predicate ZeroByte(b: byte) {
    b == 0
  }

  ghost function ParsePhase(count: byte): Parse<byte> {
    (b: seq<byte>) => if b == [] || b[0] >= count then Err(InvalidVkEncoding) else Ok((b[0], b[1..]))
  }

  ghost function WriteByte(b: byte): seq<byte> {
    [b]
  }

  ghost function PhaseOk(count: byte): byte -> bool {
    (b: byte) => b < count
  }

  lemma PhaseLawful(count: byte)
    ensures Lawful(ParsePhase(count), WriteByte, PhaseOk(count))
  {
    forall v: byte, rest: seq<byte> | PhaseOk(count)(v) ensures ParsePhase(count)(WriteByte(v) + rest) == Ok((v, rest)) {
      assert (WriteByte(v) + rest)[1..] == rest;
    }
  }

  lemma {:induction false} WriteBytesIsItself(b: seq<byte>)
    ensures WriteAll(WriteByte, b) == b
  {
    if b != [] {
      WriteBytesIsItself(b[1..]);
    }
  }

  ghost function ZeroBytes(n: nat): (b: seq<byte>)
    ensures |b| == n
  {
    seq(n, _ => 0)
  }

  /** Absent, everything is in phase zero; present, it must use more than phase zero. */
  ghost function ParsePhases(numAdvice: nat, numChallenges: nat, b: seq<byte>): Result<(Phases, seq<byte>), Error> {
    if b == [] then Ok((Phases(1, ZeroBytes(numAdvice), ZeroBytes(numChallenges)), []))
    else if numAdvice == 0 && numChallenges == 0 then Err(InvalidVkEncoding)
    else if b[0] < 2 then Err(InvalidVkEncoding)
    else
      var advice := Many(ParsePhase(b[0]), numAdvice, b[1..]);
      if advice.Err? then Err(advice.error)
      else
        var challenges := Many(ParsePhase(b[0]), numChallenges, advice.value.1);
        if challenges.Err? then Err(challenges.error)
        else if AllOk(ZeroByte, advice.value.0) && AllOk(ZeroByte, challenges.value.0) then Err(InvalidVkEncoding)
        else Ok((Phases(b[0], advice.value.0, challenges.value.0), challenges.value.1))
  }

  ghost function WritePhases(p: Phases): seq<byte> {
    if p.count > 1 then [p.count] + (p.advice + p.challenges) else []
  }

  /** Every phase is below the count, which is one exactly when all phases are zero. */
  ghost predicate PhasesOk(numAdvice: nat, numChallenges: nat, p: Phases) {
    && |p.advice| == numAdvice && |p.challenges| == numChallenges && p.count >= 1
    && AllOk(PhaseOk(p.count), p.advice) && AllOk(PhaseOk(p.count), p.challenges)
    && (p.count == 1 <==> AllOk(ZeroByte, p.advice) && AllOk(ZeroByte, p.challenges))
  }

  lemma PhasesRead(numAdvice: nat, numChallenges: nat, p: Phases)
    requires PhasesOk(numAdvice, numChallenges, p)
    ensures ParsePhases(numAdvice, numChallenges, WritePhases(p)) == Ok((p, []))
  {
    hide Many, Lawful;
    if p.count == 1 {
      AllZeroBytes(p.advice);
      AllZeroBytes(p.challenges);
    } else {
      PhaseLawful(p.count);
      WriteBytesIsItself(p.advice);
      WriteBytesIsItself(p.challenges);
      assert WritePhases(p)[1..] == p.advice + (p.challenges + []);
      ManyReads(ParsePhase(p.count), WriteByte, PhaseOk(p.count), p.advice, p.challenges + []);
      ManyReads(ParsePhase(p.count), WriteByte, PhaseOk(p.count), p.challenges, []);
      NothingPhased(p);
    }
  }

  lemma AllZeroBytes(b: seq<byte>)
    requires AllOk(ZeroByte, b)
    ensures b == ZeroBytes(|b|)
  {
    forall i | 0 <= i < |b| ensures b[i] == 0 {
      assert b[i] in b;
    }
  }

  lemma NothingPhased(p: Phases)
    ensures p.advice == [] && p.challenges == [] ==> AllOk(ZeroByte, p.advice) && AllOk(ZeroByte, p.challenges)
  {
  }

  /** One byte for the count and one per phase. */
  lemma PhasesLength(numAdvice: nat, numChallenges: nat, b: seq<byte>)
    requires b != [] && ParsePhases(numAdvice, numChallenges, b).Ok?
    ensures |b| == 1 + numAdvice + numChallenges + |ParsePhases(numAdvice, numChallenges, b).value.1|
  {
    hide Many, Lawful;
    var count := b[0];
    PhaseLawful(count);
    ManyReadsOnly(ParsePhase(count), WriteByte, PhaseOk(count), numAdvice, b[1..]);
    var advice := Many(ParsePhase(count), numAdvice, b[1..]).value;
    ManyReadsOnly(ParsePhase(count), WriteByte, PhaseOk(count), numChallenges, advice.1);
    var challenges := Many(ParsePhase(count), numChallenges, advice.1).value;
    WriteBytesIsItself(advice.0);
    WriteBytesIsItself(challenges.0);
  }

  lemma PhasesReadOnly(numAdvice: nat, numChallenges: nat, b: seq<byte>)
    requires ParsePhases(numAdvice, numChallenges, b).Ok? && ParsePhases(numAdvice, numChallenges, b).value.1 == []
    ensures var p := ParsePhases(numAdvice, numChallenges, b).value.0;
      PhasesOk(numAdvice, numChallenges, p) && b == WritePhases(p)
  {
    hide Many, Lawful;
    if b != [] {
      var count := b[0];
      PhaseLawful(count);
      ManyReadsOnly(ParsePhase(count), WriteByte, PhaseOk(count), numAdvice, b[1..]);
      var advice := Many(ParsePhase(count), numAdvice, b[1..]).value;
      ManyReadsOnly(ParsePhase(count), WriteByte, PhaseOk(count), numChallenges, advice.1);
      var challenges := Many(ParsePhase(count), numChallenges, advice.1).value;
      WriteBytesIsItself(advice.0);
      WriteBytesIsItself(challenges.0);
      assert b == [count] + (advice.0 + (challenges.0 + []));
    }
  }

  // ----- the whole key -----

  ghost function Assemble<F>(h: Head<F>, q: QueryTables, y: Body, p: Phases): VerifyingKey<F> {
    var m := h.metadata;
    PlonkProtocol(m.k, h.omega, m.numInstance, m.numAdvice, m.numFixed, m.csDegree, m.numAdviceQueries, m.numFixedQueries,
                  m.numInstanceQueries, m.numChallenges, m.blindingFactors, m.numPermChunks, y.fixed, y.perm, q.advice, q.fixed,
                  q.instance, y.gates, y.columns, y.lookups, y.shuffles, p.count, p.advice, p.challenges, h.transcriptRepr)
  }

  ghost function HeadOf<F>(vk: VerifyingKey<F>): Head<F> {
    Head(Metadata(vk.k, vk.numInstance, vk.numAdvice, vk.numFixed, vk.csDegree, vk.numAdviceQueries, vk.numFixedQueries,
                  vk.numInstanceQueries, vk.numChallenges, vk.blindingFactors, vk.numPermChunks), vk.omega, vk.transcriptRepr)
  }

  ghost function TablesOf<F>(vk: VerifyingKey<F>): QueryTables {
    QueryTables(vk.adviceQueries, vk.fixedQueries, vk.instanceQueries)
  }

  ghost function BodyOf<F>(vk: VerifyingKey<F>): Body {
    Body(vk.gates, vk.fixedCommitments, vk.permutationCommitments, vk.permutedColumns, vk.lookups, vk.shuffles)
  }

  ghost function PhasesOf<F>(vk: VerifyingKey<F>): Phases {
    Phases(vk.numPhases, vk.adviceColumnPhase, vk.challengePhase)
  }

  ghost function VkBytes<F(!new)>(f: Field<F>, vk: VerifyingKey<F>): seq<byte> {
    WriteHead(f, HeadOf(vk)) + (WriteQueries(TablesOf(vk)) + (WriteBody(BodyOf(vk)) + WritePhases(PhasesOf(vk))))
  }

  /** Counts agree with the lists, lengths fit in 32 bits, points are 64 and the digest 32 bytes long,
      column tags are 0, 1 or 2, lookups and shuffles are paired, and phases are tabulated. */
  ghost predicate WellFormed<F>(vk: VerifyingKey<F>) {
    && HeadOk(HeadOf(vk)) && QueriesOk(HeadOf(vk).metadata, TablesOf(vk)) && BodyOk(BodyOf(vk))
    && PhasesOk(vk.numAdvice, vk.numChallenges, PhasesOf(vk))
  }

  ghost function ParseVkBytes<F(!new)>(f: Field<F>, b: seq<byte>): Result<VerifyingKey<F>, Error> {
    var head := ParseHead(f, b);
    if head.Err? then Err(head.error)
    else
      var m := head.value.0.metadata;
      var tables := ParseQueries(m, head.value.1);
      if tables.Err? then Err(tables.error)
      else
        var body := ParseBody(tables.value.1);
        if body.Err? then Err(body.error)
        else
          var phases := ParsePhases(m.numAdvice, m.numChallenges, body.value.1);
          if phases.Err? then Err(phases.error)
          else if phases.value.1 != [] then Err(InvalidVkEncoding)
          else Ok(Assemble(head.value.0, tables.value.0, body.value.0, phases.value.0))
  }

  /** Every well-formed key is read back from its bytes. */
  lemma WrittenKeysParse<F(!new)>(f: Field<F>, vk: VerifyingKey<F>)
    requires Encodable(f) && WellFormed(vk)
    ensures ParseVkBytes(f, VkBytes(f, vk)) == Ok(vk)
  {
    hide Encodable, ParseHead, WriteHead, ParseQueries, WriteQueries, ParseBody, WriteBody, ParsePhases, WritePhases,
         HeadOk, QueriesOk, BodyOk, PhasesOk;
    var w4 := WritePhases(PhasesOf(vk));
    var w3 := WriteBody(BodyOf(vk)) + w4;
    var w2 := WriteQueries(TablesOf(vk)) + w3;
    HeadReads(f, HeadOf(vk), w2);
    QueriesRead(HeadOf(vk).metadata, TablesOf(vk), w3);
    BodyReads(BodyOf(vk), w4);
    PhasesRead(vk.numAdvice, vk.numChallenges, PhasesOf(vk));
  }

  /** Every accepted byte string is the bytes of the well-formed key it is read as, to the last byte. */
  lemma ParsedBytesAreWritten<F(!new)>(f: Field<F>, b: seq<byte>)
    requires Encodable(f) && ParseVkBytes(f, b).Ok?
    ensures WellFormed(ParseVkBytes(f, b).value) && VkBytes(f, ParseVkBytes(f, b).value) == b
  {
    hide Encodable, ParseHead, WriteHead, ParseQueries, WriteQueries, ParseBody, WriteBody, ParsePhases, WritePhases,
         HeadOk, QueriesOk, BodyOk, PhasesOk;
    HeadReadsOnly(f, b);
    var head := ParseHead(f, b).value;
    var m := head.0.metadata;
    QueriesReadOnly(m, head.1);
    var tables := ParseQueries(m, head.1).value;
    BodyReadsOnly(tables.1);
    var body := ParseBody(tables.1).value;
    PhasesReadOnly(m.numAdvice, m.numChallenges, body.1);
    assert HeadOf(ParseVkBytes(f, b).value) == head.0;
  }

  /** Two well-formed keys with the same bytes are the same key. */
  lemma VkBytesInjective<F(!new)>(f: Field<F>, v: VerifyingKey<F>, w: VerifyingKey<F>)
    requires Encodable(f) && WellFormed(v) && WellFormed(w) && VkBytes(f, v) == VkBytes(f, w)
    ensures v == w
  {
    hide Encodable, WellFormed, VkBytes, ParseVkBytes;
    WrittenKeysParse(f, v);
    WrittenKeysParse(f, w);
  }

  // ----- the layout, outright -----

  /** The fixed part: magic, version, eleven little-endian words, omega big-endian, the transcript digest. */
  lemma HeadLayout<F(!new)>(f: Field<F>, vk: VerifyingKey<F>)
    requires |vk.transcriptRepr| == 32
    ensures var b := VkBytes(f, vk);
      && |b| >= 120 && b[..12] == [0x48, 0x32, 0x53, 0x56, 0x30, 0x30, 0x30, 0x33, 0x03, 0x00, 0x00, 0x00]
      && b[12..16] == LeBytes(vk.k, 4) && b[16..20] == LeBytes(vk.numInstance, 4) && b[20..24] == LeBytes(vk.numAdvice, 4)
      && b[24..28] == LeBytes(vk.numFixed, 4) && b[28..32] == LeBytes(vk.csDegree, 4) && b[32..36] == LeBytes(vk.numAdviceQueries, 4)
      && b[36..40] == LeBytes(vk.numFixedQueries, 4) && b[40..44] == LeBytes(vk.numInstanceQueries, 4)
      && b[44..48] == LeBytes(vk.numChallenges, 4) && b[48..52] == LeBytes(vk.blindingFactors, 4) && b[52..56] == LeBytes(vk.numPermChunks, 4)
      && b[56..88] == BeBytes(if f.rep(vk.omega) < 0 then 0 else f.rep(vk.omega), 32) && b[88..120] == vk.transcriptRepr
  {
    hide LeBytes, BeBytes, WriteAll, WriteQueries, WriteBody, WritePhases, Words;
    var words := Words(HeadOf(vk).metadata);
    MagicBytes();
    ElevenWords(words);
    WordsAre(HeadOf(vk).metadata);
    var w, o := WriteAll(WriteU32, words), ScalarBytes(f, vk.omega);
    var tail := WriteQueries(TablesOf(vk)) + (WriteBody(BodyOf(vk)) + WritePhases(PhasesOf(vk)));
    var b := VkBytes(f, vk);
    assert b == WriteMagic() + (w + (o + vk.transcriptRepr)) + tail;
    forall i: nat | i < 11 ensures b[12 + 4 * i..16 + 4 * i] == LeBytes(words[i], 4) {
      assert w[4 * i..4 * i + 4] == LeBytes(words[i], 4);
      assert b[12 + 4 * i..16 + 4 * i] == w[4 * i..4 * i + 4];
    }
    assert b[12 + 4 * 0..16 + 4 * 0] == LeBytes(words[0], 4) && b[12 + 4 * 1..16 + 4 * 1] == LeBytes(words[1], 4)
        && b[12 + 4 * 2..16 + 4 * 2] == LeBytes(words[2], 4) && b[12 + 4 * 3..16 + 4 * 3] == LeBytes(words[3], 4)
        && b[12 + 4 * 4..16 + 4 * 4] == LeBytes(words[4], 4) && b[12 + 4 * 5..16 + 4 * 5] == LeBytes(words[5], 4)
        && b[12 + 4 * 6..16 + 4 * 6] == LeBytes(words[6], 4) && b[12 + 4 * 7..16 + 4 * 7] == LeBytes(words[7], 4)
        && b[12 + 4 * 8..16 + 4 * 8] == LeBytes(words[8], 4) && b[12 + 4 * 9..16 + 4 * 9] == LeBytes(words[9], 4)
        && b[12 + 4 * 10..16 + 4 * 10] == LeBytes(words[10], 4);
    assert b[56..88] == o && b[88..120] == vk.transcriptRepr;
  }

  lemma WordsAre(m: Metadata)
    ensures Words(m) == [m.k, m.numInstance, m.numAdvice, m.numFixed, m.csDegree, m.numAdviceQueries, m.numFixedQueries,
                         m.numInstanceQueries, m.numChallenges, m.blindingFactors, m.numPermChunks]
  {
  }

  lemma MagicBytes()
    ensures WriteMagic() == [0x48, 0x32, 0x53, 0x56, 0x30, 0x30, 0x30, 0x33, 0x03, 0x00, 0x00, 0x00]
  {
    assert LeBytes(0, 1) == [0] && LeBytes(0, 2) == [0, 0] && LeBytes(0, 3) == [0, 0, 0] && LeBytes(3, 4) == [3, 0, 0, 0];
  }

  lemma {:induction false} ElevenWords(words: seq<u32>)
    ensures |WriteAll(WriteU32, words)| == 4 * |words|
    ensures forall i: nat :: i < |words| ==> WriteAll(WriteU32, words)[4 * i..4 * i + 4] == LeBytes(words[i], 4)
  {
    hide LeBytes;
    if words != [] {
      ElevenWords(words[1..]);
      var w, tail := WriteAll(WriteU32, words), WriteAll(WriteU32, words[1..]);
      forall i: nat | i < |words| ensures w[4 * i..4 * i + 4] == LeBytes(words[i], 4) {
        if i == 0 {
          assert w[0..4] == WriteU32(words[0]);
        } else {
          assert tail[4 * (i - 1)..4 * (i - 1) + 4] == LeBytes(words[1..][i - 1], 4);
          assert w[4 * i..4 * i + 4] == tail[4 * (i - 1)..4 * (i - 1) + 4];
        }
      }
    }
  }

  /** The lists after it, in order. */
  lemma BodyLayout<F(!new)>(f: Field<F>, vk: VerifyingKey<F>)
    requires |vk.transcriptRepr| == 32
    ensures |VkBytes(f, vk)| >= 120
    ensures VkBytes(f, vk)[120..] ==
      WriteAll(WriteQuery, vk.adviceQueries) + WriteAll(WriteQuery, vk.fixedQueries) + WriteAll(WriteQuery, vk.instanceQueries)
      + WriteCounted(WriteGate, vk.gates) + WriteCounted(WritePoint, vk.fixedCommitments) + WriteCounted(WritePoint, vk.permutationCommitments)
      + WriteCounted(WriteColumn, vk.permutedColumns) + WriteCounted(WriteLookup, vk.lookups) + WriteCounted(WriteShuffle, vk.shuffles)
      + (if vk.numPhases > 1 then [vk.numPhases] + (vk.adviceColumnPhase + vk.challengePhase) else [])
  {
    hide LeBytes, BeBytes, WriteAll, WriteCounted, WriteHead;
    HeadLength(f, HeadOf(vk));
    BodyJoins(WriteQueries(TablesOf(vk)), WriteBody(BodyOf(vk)), WritePhases(PhasesOf(vk)), WriteHead(f, HeadOf(vk)));
    QueriesJoin(WriteAll(WriteQuery, vk.adviceQueries), WriteAll(WriteQuery, vk.fixedQueries), WriteAll(WriteQuery, vk.instanceQueries),
                WriteCounted(WriteGate, vk.gates), WriteCounted(WritePoint, vk.fixedCommitments), WriteCounted(WritePoint, vk.permutationCommitments),
                WriteCounted(WriteColumn, vk.permutedColumns), WriteCounted(WriteLookup, vk.lookups), WriteCounted(WriteShuffle, vk.shuffles));
  }

  lemma HeadLength<F(!new)>(f: Field<F>, h: Head<F>)
    requires |h.transcriptRepr| == 32
    ensures |WriteHead(f, h)| == 120
  {
    hide LeBytes, BeBytes, WriteAll, WriteMagic, Words;
    MagicBytes();
    ElevenWords(Words(h.metadata));
  }

  /** The form of the entries: counts and words are little-endian, rotations two's complement, column tags
      one byte. */
  lemma EntryLayout(q: (u32, i32), c: (byte, u32), blob: seq<byte>, blobs: seq<seq<byte>>, l: LookupArgument, s: ShuffleArgument)
    ensures WriteQuery(q) == LeBytes(q.0, 4) + LeBytes(if q.1 < 0 then q.1 + 0x1_0000_0000 else q.1, 4)
    ensures WriteColumn(c) == [c.0] + LeBytes(c.1, 4)
    ensures |blob| < 0x1_0000_0000 ==> WriteBlob(blob) == LeBytes(|blob|, 4) + blob
    ensures |blobs| < 0x1_0000_0000 ==> WriteGate(blobs) == LeBytes(|blobs|, 4) + WriteAll(WriteBlob, blobs)
    ensures WriteLookup(l) == WriteGate(l.inputExpressions) + WriteGate(l.tableExpressions)
    ensures WriteShuffle(s) == WriteGate(s.inputExpressions) + WriteGate(s.shuffleExpressions)
  {
    hide LeBytes, WriteAll;
  }

  lemma BodyJoins(a: seq<byte>, b: seq<byte>, c: seq<byte>, head: seq<byte>)
    ensures (head + (a + (b + c)))[|head|..] == a + b + c
  {
  }

  lemma QueriesJoin(a: seq<byte>, b: seq<byte>, c: seq<byte>, d: seq<byte>, e: seq<byte>, g: seq<byte>, h: seq<byte>, i: seq<byte>, j: seq<byte>)
    ensures a + (b + c) + (d + (e + (g + (h + (i + j))))) == a + b + c + d + e + g + h + i + j
  {
    assert e + (g + (h + (i + j))) == e + g + h + i + j;
    assert d + (e + g + h + i + j) == d + e + g + h + i + j;
  }
}
