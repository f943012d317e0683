/**
 The verifying-key codec as it runs: a reader with a position over the bytes, counted loops on top
 of it, and the byte writer of the host compiler.
 */
module VkCodec {
  import opened Wrappers
  import opened Bytes
  import opened Fields
  import opened Plonk
  import opened Expression
  import opened Formats
  import opened VkFormat

  /** A reading method returned what the format says, and left the rest of the input. */
  ghost predicate Did<V>(parsed: Result<(V, seq<byte>), Error>, r: Result<V, Error>, rest: seq<byte>) {
    if parsed.Err? then r == Err(parsed.error) else r == Ok(parsed.value.0) && rest == parsed.value.1
  }

  class Reader {
    const buf: seq<byte>
    var pos: nat

    ghost predicate Valid()
      reads this
    {
      pos <= |buf|
    }

    ghost function Rest(): seq<byte>
      requires Valid()
      reads this
    {
      buf[pos..]
    }

    constructor (buf: seq<byte>)
      ensures Valid() && Rest() == buf
    {
      this.buf, pos := buf, 0;
    }

    predicate IsEmpty()
      requires Valid()
      reads this
      ensures IsEmpty() <==> Rest() == []
    {
      pos == |buf|
    }

    // ----- primitives -----

    method ReadBytes(n: nat) returns (r: Result<seq<byte>, Error>)
      requires Valid()
      modifies this
      ensures Valid() && Did(ParseBytes(n, old(Rest())), r, Rest())
    {
      if pos + n > |buf| {
        return Err(InvalidVkEncoding);
      }
      assert Rest()[..n] == buf[pos..pos + n] && Rest()[n..] == buf[pos + n..];
      r := Ok(buf[pos..pos + n]);
      pos := pos + n;
    }

    method ReadU32Le() returns (r: Result<u32, Error>)
      requires Valid()
      modifies this
      ensures Valid() && Did(ParseU32(old(Rest())), r, Rest())
    {
      hide LeVal;
      var bytes :- ReadBytes(4);
      U32Bound(bytes);
      return Ok(LeVal(bytes));
    }

    method ReadByte() returns (r: Result<byte, Error>)
      requires Valid()
      modifies this
      ensures Valid() && (r.Err? <==> old(Rest()) == []) && (r.Err? ==> r.error == InvalidVkEncoding)
      ensures r.Ok? ==> r.value == old(Rest())[0] && Rest() == old(Rest())[1..]
    {
      var bytes :- ReadBytes(1);
      return Ok(bytes[0]);
    }

    // ----- queries -----

    method ReadQuery() returns (r: Result<(u32, i32), Error>)
      requires Valid()
      modifies this
      ensures Valid() && Did(ParseQuery(old(Rest())), r, Rest())
    {
      hide ParseU32;
      var col :- ReadU32Le();
      var rot :- ReadU32Le();
      return Ok((col, SignedOf(rot)));
    }

    method ReadQueries(count: nat) returns (r: Result<seq<(u32, i32)>, Error>)
      requires Valid()
      modifies this
      ensures Valid() && Did(Many(ParseQuery, count, old(Rest())), r, Rest())
    {
      hide ParseQuery, Many, Prepend;
      var out: seq<(u32, i32)> := [];
      ManyStart(ParseQuery, count, Rest());
      for i := 0 to count
        invariant Valid() && Prepend(out, Many(ParseQuery, count - i, Rest())) == Many(ParseQuery, count, old(Rest()))
      {
        ManyStep(ParseQuery, count - i, out, Rest());
        var q :- ReadQuery();
        out := out + [q];
      }
      ManyDone(ParseQuery, out, Rest());
      return Ok(out);
    }

    // ----- bytecodes and gates -----

    method ReadBlob() returns (r: Result<seq<byte>, Error>)
      requires Valid()
      modifies this
      ensures Valid() && Did(ParseBlob(old(Rest())), r, Rest())
    {
      hide ParseU32, ParseBytes;
      var n :- ReadU32Le();
      var blob :- ReadBytes(n);
      return Ok(blob);
    }

    method ReadBlobs(count: nat) returns (r: Result<seq<seq<byte>>, Error>)
      requires Valid()
      modifies this
      ensures Valid() && Did(Many(ParseBlob, count, old(Rest())), r, Rest())
    {
      hide ParseBlob, Many, Prepend;
      var out: seq<seq<byte>> := [];
      ManyStart(ParseBlob, count, Rest());
      for i := 0 to count
        invariant Valid() && Prepend(out, Many(ParseBlob, count - i, Rest())) == Many(ParseBlob, count, old(Rest()))
      {
        ManyStep(ParseBlob, count - i, out, Rest());
        var blob :- ReadBlob();
        out := out + [blob];
      }
      ManyDone(ParseBlob, out, Rest());
      return Ok(out);
    }

    method ReadGate() returns (r: Result<seq<seq<byte>>, Error>)
      requires Valid()
      modifies this
      ensures Valid() && Did(ParseGate(old(Rest())), r, Rest())
    {
      hide ParseU32, ParseBlob, Many;
      var n :- ReadU32Le();
      var polys :- ReadBlobs(n);
      return Ok(polys);
    }

    method ReadGates() returns (r: Result<seq<seq<seq<byte>>>, Error>)
      requires Valid()
      modifies this
      ensures Valid() && Did(ParseCounted(ParseGate, old(Rest())), r, Rest())
    {
      hide ParseU32, ParseGate, Many, Prepend;
      var count :- ReadU32Le();
      var out: seq<seq<seq<byte>>> := [];
      ghost var start := Rest();
      ManyStart(ParseGate, count, start);
      for i := 0 to count
        invariant Valid() && Prepend(out, Many(ParseGate, count - i, Rest())) == Many(ParseGate, count, start)
      {
        ManyStep(ParseGate, count - i, out, Rest());
        var gate :- ReadGate();
        out := out + [gate];
      }
      ManyDone(ParseGate, out, Rest());
      return Ok(out);
    }

    // ----- commitments and permuted columns -----

    method ReadPoints() returns (r: Result<seq<seq<byte>>, Error>)
      requires Valid()
      modifies this
      ensures Valid() && Did(ParseCounted(ParsePoint, old(Rest())), r, Rest())
    {
      hide ParseU32, ParseBytes, Many, Prepend;
      var count :- ReadU32Le();
      var out: seq<seq<byte>> := [];
      ghost var start := Rest();
      ManyStart(ParsePoint, count, start);
      for i := 0 to count
        invariant Valid() && Prepend(out, Many(ParsePoint, count - i, Rest())) == Many(ParsePoint, count, start)
      {
        ManyStep(ParsePoint, count - i, out, Rest());
        var point :- ReadBytes(64);
        out := out + [point];
      }
      ManyDone(ParsePoint, out, Rest());
      return Ok(out);
    }

    method ReadColumn() returns (r: Result<(byte, u32), Error>)
      requires Valid()
      modifies this
      ensures Valid() && Did(ParseColumn(old(Rest())), r, Rest())
    {
      hide ParseU32;
      var colType :- ReadByte();
      if colType > 2 {
        return Err(InvalidVkEncoding);
      }
      var queryIndex :- ReadU32Le();
      return Ok((colType, queryIndex));
    }

    method ReadColumns(expected: nat) returns (r: Result<seq<(byte, u32)>, Error>)
      requires Valid()
      modifies this
      ensures Valid() && Did(ParseColumns(expected, old(Rest())), r, Rest())
    {
      hide ParseU32, ParseColumn, Many, Prepend;
      var count :- ReadU32Le();
      if count != expected {
        return Err(InvalidVkEncoding);
      }
      var out: seq<(byte, u32)> := [];
      ghost var start := Rest();
      ManyStart(ParseColumn, count, start);
      for i := 0 to count
        invariant Valid() && Prepend(out, Many(ParseColumn, count - i, Rest())) == Many(ParseColumn, count, start)
      {
        ManyStep(ParseColumn, count - i, out, Rest());
        var column :- ReadColumn();
        out := out + [column];
      }
      ManyDone(ParseColumn, out, Rest());
      return Ok(out);
    }

    // ----- lookups and shuffles -----

    method ReadPair() returns (r: Result<(seq<seq<byte>>, seq<seq<byte>>), Error>)
      requires Valid()
      modifies this
      ensures Valid() && Did(ParsePair(old(Rest())), r, Rest())
    {
      hide ParseU32, ParseBlob, Many;
      var inputCount :- ReadU32Le();
      var inputs :- ReadBlobs(inputCount);
      var otherCount :- ReadU32Le();
      ManyLength(ParseBlob, inputCount, ParseU32(old(Rest())).value.1);
      if otherCount != inputCount {
        return Err(InvalidVkEncoding);
      }
      var others :- ReadBlobs(otherCount);
      return Ok((inputs, others));
    }

    method ReadLookups() returns (r: Result<seq<LookupArgument>, Error>)
      requires Valid()
      modifies this
      ensures Valid() && Did(ParseCounted(ParseLookup, old(Rest())), r, Rest())
    {
      hide ParseU32, ParsePair, Many, Prepend;
      var count :- ReadU32Le();
      var out: seq<LookupArgument> := [];
      ghost var start := Rest();
      ManyStart(ParseLookup, count, start);
      for i := 0 to count
        invariant Valid() && Prepend(out, Many(ParseLookup, count - i, Rest())) == Many(ParseLookup, count, start)
      {
        ManyStep(ParseLookup, count - i, out, Rest());
        var pair :- ReadPair();
        out := out + [LookupArgument(pair.0, pair.1)];
      }
      ManyDone(ParseLookup, out, Rest());
      return Ok(out);
    }

    method ReadShuffles() returns (r: Result<seq<ShuffleArgument>, Error>)
      requires Valid()
      modifies this
      ensures Valid() && Did(ParseCounted(ParseShuffle, old(Rest())), r, Rest())
    {
      hide ParseU32, ParsePair, Many, Prepend;
      var count :- ReadU32Le();
      var out: seq<ShuffleArgument> := [];
      ghost var start := Rest();
      ManyStart(ParseShuffle, count, start);
      for i := 0 to count
        invariant Valid() && Prepend(out, Many(ParseShuffle, count - i, Rest())) == Many(ParseShuffle, count, start)
      {
        ManyStep(ParseShuffle, count - i, out, Rest());
        var pair :- ReadPair();
        out := out + [ShuffleArgument(pair.0, pair.1)];
      }
      ManyDone(ParseShuffle, out, Rest());
      return Ok(out);
    }

    // ----- the phase appendix -----

    method ReadPhaseTable(numPhases: byte, count: nat) returns (r: Result<seq<byte>, Error>)
      requires Valid()
      modifies this
      ensures Valid() && Did(Many(ParsePhase(numPhases), count, old(Rest())), r, Rest())
    {
      hide Many, Prepend;
      var out: seq<byte> := [];
      ManyStart(ParsePhase(numPhases), count, Rest());
      for i := 0 to count
        invariant Valid() && Prepend(out, Many(ParsePhase(numPhases), count - i, Rest())) == Many(ParsePhase(numPhases), count, old(Rest()))
      {
        ManyStep(ParsePhase(numPhases), count - i, out, Rest());
        var p :- ReadByte();
        if p >= numPhases {
          return Err(InvalidVkEncoding);
        }
        out := out + [p];
      }
      ManyDone(ParsePhase(numPhases), out, Rest());
      return Ok(out);
    }

    method ReadPhases(numAdvice: nat, numChallenges: nat) returns (r: Result<(byte, seq<byte>, seq<byte>), Error>)
      requires Valid()
      modifies this
      ensures Valid()
      ensures var p := ParsePhases(numAdvice, numChallenges, old(Rest()));
        if p.Err? then r == Err(p.error)
        else r == Ok((p.value.0.count, p.value.0.advice, p.value.0.challenges)) && Rest() == p.value.1
    {
      hide Many;
      if IsEmpty() {
        return Ok((1, seq(numAdvice, _ => 0), seq(numChallenges, _ => 0)));
      }
      if numAdvice == 0 && numChallenges == 0 {
        return Err(InvalidVkEncoding);
      }
      var first := ReadByte();
      if first.Err? {
        return Err(InvalidVkEncoding);
      }
      var numPhases := first.value;
      if numPhases < 2 {
        return Err(InvalidVkEncoding);
      }
      var advice :- ReadPhaseTable(numPhases, numAdvice);
      var challenges :- ReadPhaseTable(numPhases, numChallenges);
      var adviceNonZero := AnyNonZero(advice);
      var challengeNonZero := AnyNonZero(challenges);
      if !(adviceNonZero || challengeNonZero) {
        return Err(InvalidVkEncoding);
      }
      return Ok((numPhases, advice, challenges));
    }

    // ----- the head -----

    /** The next metadata word. */
    method NextWord(ghost start: seq<byte>, ghost before: seq<u32>, ghost left: nat) returns (r: Result<u32, Error>)
      requires Valid() && left > 0
      requires Many(ParseU32, 11, start) == Prepend(before, Many(ParseU32, left, Rest()))
      modifies this
      ensures Valid()
      ensures if r.Err? then Many(ParseU32, 11, start) == Err(r.error)
              else Many(ParseU32, 11, start) == Prepend(before + [r.value], Many(ParseU32, left - 1, Rest()))
    {
      hide ParseU32, Many, Prepend;
      ManyStep(ParseU32, left, before, Rest());
      r := ReadU32Le();
    }

    method ReadMetadata() returns (r: Result<Metadata, Error>)
      requires Valid()
      modifies this
      ensures Valid()
      ensures var words := Many(ParseU32, 11, old(Rest()));
        if words.Err? then r == Err(words.error) else |words.value.0| == 11 && r == Ok(FromWords(words.value.0)) && Rest() == words.value.1
    {
      hide ParseU32, Many, Prepend;
      ghost var start := Rest();
      ManyStart(ParseU32, 11, start);
      var k :- NextWord(start, [], 11);
      var numInstance :- NextWord(start, [] + [k], 10);
      ghost var w2 := [k, numInstance];
      assert [] + [k] + [numInstance] == w2;
      var numAdvice :- NextWord(start, w2, 9);
      var numFixed :- NextWord(start, w2 + [numAdvice], 8);
      ghost var w4 := w2 + [numAdvice, numFixed];
      assert w2 + [numAdvice] + [numFixed] == w4;
      var csDegree :- NextWord(start, w4, 7);
      var numAdviceQueries :- NextWord(start, w4 + [csDegree], 6);
      ghost var w6 := w4 + [csDegree, numAdviceQueries];
      assert w4 + [csDegree] + [numAdviceQueries] == w6;
      var numFixedQueries :- NextWord(start, w6, 5);
      var numInstanceQueries :- NextWord(start, w6 + [numFixedQueries], 4);
      ghost var w8 := w6 + [numFixedQueries, numInstanceQueries];
      assert w6 + [numFixedQueries] + [numInstanceQueries] == w8;
      var numChallenges :- NextWord(start, w8, 3);
      var blindingFactors :- NextWord(start, w8 + [numChallenges], 2);
      var numPermChunks :- NextWord(start, w8 + [numChallenges] + [blindingFactors], 1);
      ghost var words := [k, numInstance, numAdvice, numFixed, csDegree, numAdviceQueries, numFixedQueries,
                          numInstanceQueries, numChallenges, blindingFactors, numPermChunks];
      assert w8 + [numChallenges] + [blindingFactors] + [numPermChunks] == words;
      ManyDone(ParseU32, words, Rest());
      return Ok(Metadata(k, numInstance, numAdvice, numFixed, csDegree, numAdviceQueries, numFixedQueries,
                         numInstanceQueries, numChallenges, blindingFactors, numPermChunks));
    }

    method ReadMagic() returns (r: Result<(), Error>)
      requires Valid()
      modifies this
      ensures Valid() && Did(ParseMagic(old(Rest())), r, Rest())
    {
      hide ParseU32, ParseBytes;
      var magic :- ReadBytes(8);
      if magic != VK_MAGIC {
        return Err(InvalidVkEncoding);
      }
      var version :- ReadU32Le();
      if version != VK_VERSION {
        return Err(InvalidVkEncoding);
      }
      return Ok(());
    }

    method ReadScalar<F(!new)>(f: Field<F>) returns (r: Result<F, Error>)
      requires Valid()
      modifies this
      ensures Valid() && Did(ParseScalar(f, old(Rest())), r, Rest())
    {
      hide ParseBytes;
      var bytes :- ReadBytes(32);
      var a := ScalarFromBytes(f, bytes);
      if a.None? {
        return Err(PublicInputOutOfRange);
      }
      return Ok(a.value);
    }

    method ReadHead<F(!new)>(f: Field<F>) returns (r: Result<Head<F>, Error>)
      requires Valid()
      modifies this
      ensures Valid() && Did(ParseHead(f, old(Rest())), r, Rest())
    {
      hide ParseBytes, ParseScalar, ParseMagic, ParseU32, Many;
      var magic :- ReadMagic();
      var metadata :- ReadMetadata();
      var omega :- ReadScalar(f);
      var transcriptRepr :- ReadBytes(32);
      return Ok(Head(metadata, omega, transcriptRepr));
    }

    method ReadTables(m: Metadata) returns (r: Result<QueryTables, Error>)
      requires Valid()
      modifies this
      ensures Valid() && Did(ParseQueries(m, old(Rest())), r, Rest())
    {
      hide Many, ParseQuery;
      var advice :- ReadQueries(m.numAdviceQueries);
      var fixed :- ReadQueries(m.numFixedQueries);
      var instance :- ReadQueries(m.numInstanceQueries);
      return Ok(QueryTables(advice, fixed, instance));
    }

    method ReadBody() returns (r: Result<Body, Error>)
      requires Valid()
      modifies this
      ensures Valid() && Did(ParseBody(old(Rest())), r, Rest())
    {
      hide ParseCounted, ParseGate, ParsePoint, ParseColumns, ParseLookup, ParseShuffle;
      var gates :- ReadGates();
      var fixed :- ReadPoints();
      var perm :- ReadPoints();
      var columns :- ReadColumns(|perm|);
      var lookups :- ReadLookups();
      var shuffles :- ReadShuffles();
      return Ok(Body(gates, fixed, perm, columns, lookups, shuffles));
    }
  }

  method AnyNonZero(b: seq<byte>) returns (any: bool)
    ensures any <==> !AllOk(ZeroByte, b)
  {
    for i := 0 to |b|
      invariant AllOk(ZeroByte, b[..i])
    {
      if b[i] != 0 {
        assert b[i] in b;
        return true;
      }
      assert b[..i + 1] == b[..i] + [b[i]];
    }
    assert b[..|b|] == b;
    return false;
  }

  method ParseVk<F(!new)>(f: Field<F>, bytes: seq<byte>) returns (r: Result<VerifyingKey<F>, Error>)
    ensures r == ParseVkBytes(f, bytes)
  {
    hide ParseHead, ParseQueries, ParseBody, ParsePhases;
    var reader := new Reader(bytes);
    var head :- reader.ReadHead(f);
    var m := head.metadata;
    var tables :- reader.ReadTables(m);
    var body :- reader.ReadBody();
    var phases :- reader.ReadPhases(m.numAdvice, m.numChallenges);
    if !reader.IsEmpty() {
      return Err(InvalidVkEncoding);
    }
    return Ok(PlonkProtocol(m.k, head.omega, m.numInstance, m.numAdvice, m.numFixed, m.csDegree, m.numAdviceQueries, m.numFixedQueries,
                            m.numInstanceQueries, m.numChallenges, m.blindingFactors, m.numPermChunks, body.fixed, body.perm,
                            tables.advice, tables.fixed, tables.instance, body.gates, body.columns, body.lookups, body.shuffles,
                            phases.0, phases.1, phases.2, head.transcriptRepr));
  }

  // ----- the writer -----

  method AppendQueries(out: seq<byte>, queries: seq<(u32, i32)>) returns (r: seq<byte>)
    ensures r == out + WriteAll(WriteQuery, queries)
  {
    hide WriteAll;
    r := out;
    NothingWritten(WriteQuery);
    for i := 0 to |queries|
      invariant r == out + WriteAll(WriteQuery, queries[..i])
    {
      OneMore(WriteQuery, queries, i);
      r := r + LeBytes(queries[i].0, 4) + LeBytes(UnsignedOf(queries[i].1), 4);
    }
    assert queries[..|queries|] == queries;
  }

  lemma NothingWritten<V>(w: V -> seq<byte>)
    ensures WriteAll(w, []) == []
  {
  }

  lemma OneMore<V>(w: V -> seq<byte>, vs: seq<V>, i: nat)
    requires i < |vs|
    ensures WriteAll(w, vs[..i + 1]) == WriteAll(w, vs[..i]) + w(vs[i])
  {
    assert vs[..i + 1] == vs[..i] + [vs[i]];
    WriteAllSnoc(w, vs[..i], vs[i]);
  }

  method AppendBlobs(out: seq<byte>, blobs: seq<seq<byte>>) returns (r: seq<byte>)
    requires GateOk(blobs)
    ensures r == out + WriteGate(blobs)
  {
    hide WriteAll;
    r := out + LeBytes(|blobs|, 4);
    NothingWritten(WriteBlob);
    for i := 0 to |blobs|
      invariant r == out + (WriteU32(|blobs|) + WriteAll(WriteBlob, blobs[..i]))
    {
      OneMore(WriteBlob, blobs, i);
      assert blobs[i] in blobs;
      r := r + LeBytes(|blobs[i]|, 4) + blobs[i];
    }
    assert blobs[..|blobs|] == blobs;
  }

  method AppendGates(out: seq<byte>, gates: seq<seq<seq<byte>>>) returns (r: seq<byte>)
    requires FitsU32(|gates|) && AllOk(GateOk, gates)
    ensures r == out + WriteCounted(WriteGate, gates)
  {
    hide WriteAll, WriteGate, GateOk;
    r := out + LeBytes(|gates|, 4);
    NothingWritten(WriteGate);
    for i := 0 to |gates|
      invariant r == out + (WriteU32(|gates|) + WriteAll(WriteGate, gates[..i]))
    {
      OneMore(WriteGate, gates, i);
      assert gates[i] in gates;
      r := AppendBlobs(r, gates[i]);
    }
    assert gates[..|gates|] == gates;
  }

  method AppendPoints(out: seq<byte>, points: seq<seq<byte>>) returns (r: seq<byte>)
    requires FitsU32(|points|)
    ensures r == out + WriteCounted(WritePoint, points)
  {
    hide WriteAll;
    r := out + LeBytes(|points|, 4);
    NothingWritten(WritePoint);
    for i := 0 to |points|
      invariant r == out + (WriteU32(|points|) + WriteAll(WritePoint, points[..i]))
    {
      OneMore(WritePoint, points, i);
      r := r + points[i];
    }
    assert points[..|points|] == points;
  }

  method AppendColumns(out: seq<byte>, columns: seq<(byte, u32)>) returns (r: seq<byte>)
    requires FitsU32(|columns|)
    ensures r == out + WriteCounted(WriteColumn, columns)
  {
    hide WriteAll;
    r := out + LeBytes(|columns|, 4);
    NothingWritten(WriteColumn);
    for i := 0 to |columns|
      invariant r == out + (WriteU32(|columns|) + WriteAll(WriteColumn, columns[..i]))
    {
      OneMore(WriteColumn, columns, i);
      r := r + [columns[i].0] + LeBytes(columns[i].1, 4);
    }
    assert columns[..|columns|] == columns;
  }

  method AppendLookups(out: seq<byte>, lookups: seq<LookupArgument>) returns (r: seq<byte>)
    requires FitsU32(|lookups|) && AllOk(LookupOk, lookups)
    ensures r == out + WriteCounted(WriteLookup, lookups)
  {
    hide WriteAll, WriteGate, GateOk;
    r := out + LeBytes(|lookups|, 4);
    NothingWritten(WriteLookup);
    for i := 0 to |lookups|
      invariant r == out + (WriteU32(|lookups|) + WriteAll(WriteLookup, lookups[..i]))
    {
      OneMore(WriteLookup, lookups, i);
      assert LookupOk(lookups[i]) by { assert lookups[i] in lookups; }
      r := AppendBlobs(r, lookups[i].inputExpressions);
      r := AppendBlobs(r, lookups[i].tableExpressions);
    }
    assert lookups[..|lookups|] == lookups;
  }

  method AppendShuffles(out: seq<byte>, shuffles: seq<ShuffleArgument>) returns (r: seq<byte>)
    requires FitsU32(|shuffles|) && AllOk(ShuffleOk, shuffles)
    ensures r == out + WriteCounted(WriteShuffle, shuffles)
  {
    hide WriteAll, WriteGate, GateOk;
    r := out + LeBytes(|shuffles|, 4);
    NothingWritten(WriteShuffle);
    for i := 0 to |shuffles|
      invariant r == out + (WriteU32(|shuffles|) + WriteAll(WriteShuffle, shuffles[..i]))
    {
      OneMore(WriteShuffle, shuffles, i);
      assert ShuffleOk(shuffles[i]) by { assert shuffles[i] in shuffles; }
      r := AppendBlobs(r, shuffles[i].inputExpressions);
      r := AppendBlobs(r, shuffles[i].shuffleExpressions);
    }
    assert shuffles[..|shuffles|] == shuffles;
  }

  /** Magic, version, the eleven metadata words, omega and the transcript digest. */
  method AppendHead<F(!new)>(f: Field<F>, h: Head<F>) returns (out: seq<byte>)
    ensures out == WriteHead(f, h)
  {
    hide LeBytes, ScalarBytes;
    var m := h.metadata;
    out := VK_MAGIC + LeBytes(VK_VERSION, 4);
    ghost var w1 := out;
    out := out + LeBytes(m.k, 4) + LeBytes(m.numInstance, 4) + LeBytes(m.numAdvice, 4) + LeBytes(m.numFixed, 4);
    out := out + LeBytes(m.csDegree, 4) + LeBytes(m.numAdviceQueries, 4) + LeBytes(m.numFixedQueries, 4) + LeBytes(m.numInstanceQueries, 4);
    out := out + LeBytes(m.numChallenges, 4) + LeBytes(m.blindingFactors, 4) + LeBytes(m.numPermChunks, 4);
    ElevenWords(m, w1);
    ghost var words := WriteAll(WriteU32, Words(m));
    out := out + ScalarBytes(f, h.omega);
    out := out + h.transcriptRepr;
    assert w1 + words + ScalarBytes(f, h.omega) + h.transcriptRepr == w1 + (words + (ScalarBytes(f, h.omega) + h.transcriptRepr));
  }

  lemma ElevenWords(m: Metadata, start: seq<byte>)
    ensures start + LeBytes(m.k, 4) + LeBytes(m.numInstance, 4) + LeBytes(m.numAdvice, 4) + LeBytes(m.numFixed, 4)
            + LeBytes(m.csDegree, 4) + LeBytes(m.numAdviceQueries, 4) + LeBytes(m.numFixedQueries, 4) + LeBytes(m.numInstanceQueries, 4)
            + LeBytes(m.numChallenges, 4) + LeBytes(m.blindingFactors, 4) + LeBytes(m.numPermChunks, 4)
         == start + WriteAll(WriteU32, Words(m))
  {
    hide LeBytes, WriteAll;
    var w := Words(m);
    NothingWritten(WriteU32);
    assert w[..0] == [] && start + [] == start;
    OneWord(start, w, 0);
    OneWord(start, w, 1);
    OneWord(start, w, 2);
    OneWord(start, w, 3);
    OneWord(start, w, 4);
    OneWord(start, w, 5);
    OneWord(start, w, 6);
    OneWord(start, w, 7);
    OneWord(start, w, 8);
    OneWord(start, w, 9);
    OneWord(start, w, 10);
    assert w[..11] == w;
  }

  lemma OneWord(start: seq<byte>, w: seq<u32>, i: nat)
    requires i < |w|
    ensures start + WriteAll(WriteU32, w[..i + 1]) == start + WriteAll(WriteU32, w[..i]) + LeBytes(w[i], 4)
  {
    hide LeBytes, WriteAll;
    OneMore(WriteU32, w, i);
  }

  method AppendTables<F>(start: seq<byte>, vk: VerifyingKey<F>) returns (out: seq<byte>)
    ensures out == start + WriteQueries(TablesOf(vk))
  {
    hide WriteAll;
    out := AppendQueries(start, vk.adviceQueries);
    out := AppendQueries(out, vk.fixedQueries);
    out := AppendQueries(out, vk.instanceQueries);
    ThreeParts(start, WriteAll(WriteQuery, vk.adviceQueries), WriteAll(WriteQuery, vk.fixedQueries), WriteAll(WriteQuery, vk.instanceQueries));
  }

  method AppendBody<F>(start: seq<byte>, vk: VerifyingKey<F>) returns (out: seq<byte>)
    requires BodyOk(BodyOf(vk))
    ensures out == start + WriteBody(BodyOf(vk))
  {
    hide WriteAll, WriteCounted, WriteGate, AllOk, GateOk, LookupOk, ShuffleOk;
    out := AppendGates(start, vk.gates);
    out := AppendPoints(out, vk.fixedCommitments);
    out := AppendPoints(out, vk.permutationCommitments);
    out := AppendColumns(out, vk.permutedColumns);
    out := AppendLookups(out, vk.lookups);
    out := AppendShuffles(out, vk.shuffles);
    SixParts(start, WriteCounted(WriteGate, vk.gates), WriteCounted(WritePoint, vk.fixedCommitments),
             WriteCounted(WritePoint, vk.permutationCommitments), WriteCounted(WriteColumn, vk.permutedColumns),
             WriteCounted(WriteLookup, vk.lookups), WriteCounted(WriteShuffle, vk.shuffles));
  }

  method AppendPhases<F>(start: seq<byte>, vk: VerifyingKey<F>) returns (out: seq<byte>)
    ensures out == start + WritePhases(PhasesOf(vk))
  {
    out := start;
    if vk.numPhases > 1 {
      out := out + [vk.numPhases];
      out := out + vk.adviceColumnPhase;
      out := out + vk.challengePhase;
    }
  }

  /** The bytes of a verifying key, appended part by part. */
  method WriteVk<F(!new)>(f: Field<F>, vk: VerifyingKey<F>) returns (out: seq<byte>)
    requires WellFormed(vk)
    ensures out == VkBytes(f, vk)
  {
    hide WriteHead, WriteQueries, WriteBody, WritePhases, BodyOk, HeadOk, QueriesOk, PhasesOk;
    out := AppendHead(f, Head(Metadata(vk.k, vk.numInstance, vk.numAdvice, vk.numFixed, vk.csDegree, vk.numAdviceQueries,
                                       vk.numFixedQueries, vk.numInstanceQueries, vk.numChallenges, vk.blindingFactors,
                                       vk.numPermChunks), vk.omega, vk.transcriptRepr));
    out := AppendTables(out, vk);
    out := AppendBody(out, vk);
    out := AppendPhases(out, vk);
    ThreeParts(WriteHead(f, HeadOf(vk)), WriteQueries(TablesOf(vk)), WriteBody(BodyOf(vk)), WritePhases(PhasesOf(vk)));
  }

  lemma ThreeParts(start: seq<byte>, a: seq<byte>, b: seq<byte>, c: seq<byte>)
    ensures start + a + b + c == start + (a + (b + c))
  {
  }

  lemma SixParts(start: seq<byte>, a: seq<byte>, b: seq<byte>, c: seq<byte>, d: seq<byte>, e: seq<byte>, g: seq<byte>)
    ensures start + a + b + c + d + e + g == start + (a + (b + (c + (d + (e + g)))))
  {
    ThreeParts(start + a + b + c, d, e, g);
    ThreeParts(start + a, b, c, d + (e + g));
    assert start + a + (b + (c + (d + (e + g)))) == start + (a + (b + (c + (d + (e + g)))));
  }

  // ----- the phase count the compiler writes -----

  method MaxPhase(phases: seq<byte>) returns (largest: byte)
    ensures largest == Largest(phases)
  {
    largest := 0;
    for i := 0 to |phases|
      invariant largest == Largest(phases[..i])
    {
      assert phases[..i + 1][..i] == phases[..i];
      largest := if phases[i] > largest then phases[i] else largest;
    }
    assert phases[..|phases|] == phases;
  }

  /** One more than the largest phase, saturating at 255. */
  method NumPhases(advicePhase: seq<byte>, challengePhase: seq<byte>) returns (n: byte)
    ensures n == CountFor(advicePhase + challengePhase)
  {
    var a := MaxPhase(advicePhase);
    var c := MaxPhase(challengePhase);
    var largest := if a > c then a else c;
    LargestOfBoth(advicePhase, challengePhase);
    return if largest == 255 then 255 else largest + 1;
  }

  lemma LargestOfBoth(a: seq<byte>, b: seq<byte>)
    ensures Largest(a + b) == if Largest(a) > Largest(b) then Largest(a) else Largest(b)
  {
    hide Largest;
    assert forall p :: p in a || p in b ==> p in a + b;
    assert forall p :: p in a + b ==> p in a || p in b;
  }

  ghost function Largest(phases: seq<byte>): (m: byte)
    ensures forall p :: p in phases ==> p <= m
    ensures phases != [] ==> m in phases
    ensures phases == [] ==> m == 0
  {
    if phases == [] then 0
    else
      var init, last := phases[..|phases| - 1], phases[|phases| - 1];
      assert phases == init + [last];
      if last > Largest(init) then last
      else
        assert init == [] ==> last == 0;
        Largest(init)
  }

  ghost function CountFor(phases: seq<byte>): byte {
    if Largest(phases) == 255 then 255 else Largest(phases) + 1
  }

  /** The phase appendix the compiler writes is read back exactly when no phase is 255, and is
      rejected otherwise: the count saturates at 255, which no longer exceeds that phase. */
  lemma CompiledPhasesAccepted(advicePhase: seq<byte>, challengePhase: seq<byte>)
    ensures var p := Phases(CountFor(advicePhase + challengePhase), advicePhase, challengePhase);
      var r := ParsePhases(|advicePhase|, |challengePhase|, WritePhases(p));
      && (r == Ok((p, [])) <==> 255 !in advicePhase + challengePhase)
      && (r.Err? <==> 255 in advicePhase + challengePhase)
  {
    hide ParsePhases, WritePhases;
    var all := advicePhase + challengePhase;
    var p := Phases(CountFor(all), advicePhase, challengePhase);
    assert forall x :: x in advicePhase || x in challengePhase ==> x in all;
    assert forall x :: x in all ==> x in advicePhase || x in challengePhase;
    if 255 !in all {
      PhasesRead(|advicePhase|, |challengePhase|, p);
    } else {
      SaturatedRejected(p);
    }
  }

  lemma SaturatedRejected(p: Phases)
    requires p.count == 255 && 255 in p.advice + p.challenges
    ensures ParsePhases(|p.advice|, |p.challenges|, WritePhases(p)).Err?
  {
    hide ParsePhases, WritePhases;
    OnlyGoodPhasesRead(p);
  }

  /** Whatever tables are written, reading them back either fails or returns them, in range. */
  lemma OnlyGoodPhasesRead(p: Phases)
    requires p.count > 1
    ensures var r := ParsePhases(|p.advice|, |p.challenges|, WritePhases(p));
      r.Ok? ==> r.value == (p, []) && PhasesOk(|p.advice|, |p.challenges|, p)
  {
    hide ParsePhases, WritePhases, PhasesOk;
    var m, n, b := |p.advice|, |p.challenges|, WritePhases(p);
    var r := ParsePhases(m, n, b);
    WrittenPhases(p);
    if r.Ok? {
      PhasesLength(m, n, b);
      PhasesReadOnly(m, n, b);
      var q := r.value.0;
      WrittenPhases(q);
      PhasesSizes(m, n, q);
      assert b[0] == p.count == q.count && p.advice + p.challenges == b[1..] == q.advice + q.challenges;
      SplitEqual(p.advice, p.challenges, q.advice, q.challenges);
    }
  }

  lemma PhasesSizes(m: nat, n: nat, p: Phases)
    requires PhasesOk(m, n, p)
    ensures |p.advice| == m && |p.challenges| == n
  {
  }

  lemma WrittenPhases(p: Phases)
    ensures WritePhases(p) == if p.count > 1 then [p.count] + (p.advice + p.challenges) else []
  {
  }

  /** The smallest input on which compiler and parser disagree. */
  lemma PhaseOutOfReach()
    ensures CountFor([255]) == 255 && ParsePhases(1, 0, WritePhases(Phases(255, [255], []))).Err?
  {
    hide ParsePhases, WritePhases;
    assert Largest([255]) == 255;
    assert [255] + [] == [255];
    SaturatedRejected(Phases(255, [255], []));
  }
}
