/**
 What the two proof parsers have in common, when they accept, and what every challenge is bound to.
 */
module ProofAgreement {
  import opened Wrappers
  import opened Bytes
  import opened Fields
  import opened Plonk
  import opened Expression
  import opened Formats
  import opened Transcript
  import opened ProofFormat
  import opened ProofScript
  import opened ProofReader
  import opened ProofParsers
  import VkFormat
  import ProofNoFs
  import opened ProofWriter

  /** A parsed verifying key has its phase tables, with every phase in range. */
  lemma ParsedKeysAreTabled<F(!new)>(f: Field<F>, b: seq<byte>)
    requires Encodable(f) && VkFormat.ParseVkBytes(f, b).Ok?
    ensures PhasesInRange(VkFormat.ParseVkBytes(f, b).value)
  {
    hide Encodable, VkFormat.ParseVkBytes, VkFormat.VkBytes, VkFormat.BodyOk, VkFormat.HeadOk, VkFormat.QueriesOk;
    VkFormat.ParsedBytesAreWritten(f, b);
    var vk := VkFormat.ParseVkBytes(f, b).value;
    forall c | 0 <= c < |vk.adviceColumnPhase| ensures vk.adviceColumnPhase[c] < vk.numPhases {
      assert vk.adviceColumnPhase[c] in vk.adviceColumnPhase;
    }
  }

  /** For every parsed key and every byte string both parsers return the same proof or the same error,
      and they accept exactly the strings of the expected length whose scalar slots are canonical. */
  method ParseBothWays<F(!new)>(f: Field<F>, t: Transcript, vkBytes: seq<byte>, vk: Key<F>, proof: seq<byte>, publicInputs: seq<seq<byte>>)
    returns (withTranscript: Result<WireProof<F>, Error>, alone: Result<WireProof<F>, Error>)
    requires Encodable(f) && VkFormat.ParseVkBytes(f, vkBytes) == Ok(vk)
    requires t.Valid() && t.scheme == Shplonk
    modifies t
    ensures withTranscript == alone
    ensures alone.Ok? <==>
      |proof| == ExpectedProofSize(vk) && |proof| == Size(Shplonk, Script(Shplonk, vk, Witnesses(vk)))
      && SlotsDecode(WireOf(f, t), Script(Shplonk, vk, Witnesses(vk)), proof)
    ensures alone.Ok? ==>
      var ink, opening := RawInk(f, t.decompress), [alone.value.openingProofW, alone.value.openingProofWPrime];
      Writable(ink, vk, alone.value, opening) && proof == ProofBytes(ink, vk, alone.value, opening)
  {
    hide Writable, ProofBytes, ProofOf, Encodable, VkFormat.ParseVkBytes, ParseProof, Size, SlotsDecode, Script, ExpectedProofSize, Tracks, ChallengesDrawn, HashInputs,
         InputEvents, Witnesses, PhasesInRange;
    ParsedKeysAreTabled(f, vkBytes);
    TabledKeys(vk);
    ExpectedSizes(vk, Witnesses(vk));
    AcceptedProofs(WireOf(f, t), vk, Witnesses(vk), proof);
    var read, k := ReadProofInner(f, t, vk, proof, publicInputs);
    withTranscript := if read.Err? then Err(read.error) else Ok(read.value.0);
    alone := ProofNoFs.ParseProofNoFs(Wire(f, Shplonk, t.decompress), vk, proof, Witnesses(vk));
    if alone.Ok? {
      RecordIsWritten(f, t.decompress, vk, Witnesses(vk), proof);
    }
  }

  lemma RecordIsWritten<F(!new)>(f: Field<F>, decompress: Decompress, vk: Key<F>, witnesses: nat, proof: seq<byte>)
    requires Encodable(f) && ParseProof(Wire(f, Shplonk, decompress), vk, witnesses, proof).Ok?
    ensures var c := ParseProof(Wire(f, Shplonk, decompress), vk, witnesses, proof).value;
      var p := ProofOf(c, c.opening[0], c.opening[1]);
      var ink, opening := RawInk(f, decompress), [p.openingProofW, p.openingProofWPrime];
      Writable(ink, vk, p, opening) && proof == ProofBytes(ink, vk, p, opening)
  {
    hide Encodable, ParseProof, Writable, ProofBytes, ParseG1, OnlyWritten;
    RawPointsLawful(f, decompress);
    var c := ParseProof(Wire(f, Shplonk, decompress), vk, witnesses, proof).value;
    AcceptedProofsAreWritten(RawInk(f, decompress), vk, witnesses, proof, c.opening[0], c.opening[1]);
    assert c.opening == [c.opening[0], c.opening[1]];
  }

  /** Both readers give back the record that was written. */
  method ReadWrittenProof<F(!new)>(f: Field<F>, t: Transcript, vk: Key<F>, proof: seq<byte>, publicInputs: seq<seq<byte>>,
                                   ghost ink: Ink<F>, ghost p: WireProof<F>, ghost opening: seq<seq<byte>>)
    returns (r: Result<(WireProof<F>, Option<seq<seq<byte>>>), Error>)
    requires t.Valid() && Readable(vk) && Faithful(ink) && ink.wire == WireOf(f, t)
    requires Writable(ink, vk, p, opening) && |opening| == OpeningPoints(t.scheme, Witnesses(vk)) && proof == ProofBytes(ink, vk, p, opening)
    requires if t.scheme == Gwc then p.openingProofW == p.openingProofWPrime == ZeroPoint() else opening == [p.openingProofW, p.openingProofWPrime]
    modifies t
    ensures r == Ok((p, if t.scheme == Gwc then Some(opening) else None))
  {
    hide Faithful, Writable, ProofBytes, ParseProof, ProofOf, Tracks, ChallengesDrawn, HashInputs, InputEvents, Witnesses, Script, Readable;
    WrittenProofsParse(ink, vk, Witnesses(vk), p, opening);
    var read, k := ReadProofInner(f, t, vk, proof, publicInputs);
    if t.scheme == Gwc {
      return Ok((read.value.0, Some(read.value.2.value.witnesses)));
    }
    var alone := ProofNoFs.ParseProofNoFs(Wire(f, Shplonk, t.decompress), vk, proof, Witnesses(vk));
    assert alone == Ok(read.value.0);
    return Ok((read.value.0, None));
  }

  lemma TabledKeys<F>(vk: Key<F>)
    requires PhasesInRange(vk)
    ensures Tabled(vk) && Readable(vk)
  {
  }

  // ----- binding -----

  /** An execution of the GWC reader: what it was given, the events it went through, where it stopped. */
  datatype Execution<F> = Execution(inputs: seq<seq<byte>>, proof: seq<byte>, events: seq<Event>, track: Track<F>)
  {
    /** The events after the public inputs. */
    ghost function Reading(): (run: seq<Event>)
      ensures |run| <= |events|
    {
      if |track.start| <= |events| then events[|track.start|..] else []
    }
  }

  ghost predicate IsExecution<F(!new)>(f: Field<F>, hash: Digest, transcriptRepr: seq<byte>, vk: Key<F>, x: Execution<F>) {
    && |transcriptRepr| == 32 && WordList(x.inputs)
    && TracksAt(f, Gwc, hash, x.events, x.proof, x.track) && x.track.script == Script(Gwc, vk, Witnesses(vk))
    && x.track.start == [Absorbed(transcriptRepr)] + InputEvents(f, Gwc, vk.numInstance, x.inputs)
  }

  /** The bytes hashed at the n-th squeeze, if it was reached. */
  ghost function HashedAt(hash: Digest, events: seq<Event>, n: nat): Option<seq<byte>> {
    var h := HashInputs(Gwc, hash, events);
    if n < |h| then Some(h[n]) else None
  }

  /** The events read before the n-th squeeze, and their bytes. */
  ghost function ReadBefore<F>(x: Execution<F>, n: nat): seq<Event> {
    if n < Squeezes(x.Reading()) then UpTo(x.Reading(), n) else x.Reading()
  }

  ghost predicate WordList(inputs: seq<seq<byte>>) {
    forall i :: 0 <= i < |inputs| ==> |inputs[i]| == 32
  }

  ghost function OpSqueezes(ops: seq<Op>): nat {
    if ops == [] then 0 else OpSqueezes(ops[..|ops| - 1]) + if ops[|ops| - 1] == Squeeze then 1 else 0
  }

  lemma {:induction false} MatchingSqueezes(scheme: Scheme, run: seq<Event>, ops: seq<Op>)
    requires Matches(scheme, run, ops)
    ensures Squeezes(run) == OpSqueezes(ops)
  {
    if run != [] {
      MatchingSqueezes(scheme, run[..|run| - 1], ops[..|ops| - 1]);
    }
  }

  lemma {:induction false} SqueezesConcat(a: seq<Event>, b: seq<Event>)
    ensures Squeezes(a + b) == Squeezes(a) + Squeezes(b)
  {
    if b == [] {
      assert a + b == a;
    } else {
      assert (a + b)[..|a + b| - 1] == a + b[..|b| - 1];
      SqueezesConcat(a, b[..|b| - 1]);
    }
  }

  lemma {:induction false} NoSqueezes(a: seq<Event>)
    requires forall i :: 0 <= i < |a| ==> a[i].Absorbed?
    ensures Squeezes(a) == 0
  {
    if a != [] {
      NoSqueezes(a[..|a| - 1]);
    }
  }

  lemma {:induction false} OpSqueezesGrow(ops: seq<Op>, m: nat, n: nat)
    requires m < n <= |ops| && ops[m] == Squeeze
    ensures OpSqueezes(ops[..m]) < OpSqueezes(ops[..n])
  {
    assert ops[..n][..n - 1] == ops[..n - 1];
    if m < n - 1 {
      OpSqueezesGrow(ops, m, n - 1);
    }
  }

  lemma {:induction false} DataConcat(a: seq<Event>, b: seq<Event>)
    ensures Data(a + b) == Data(a) + Data(b)
  {
    if b == [] {
      assert a + b == a && Data(a) + [] == Data(a);
    } else {
      assert (a + b)[..|a + b| - 1] == a + b[..|b| - 1];
      DataConcat(a, b[..|b| - 1]);
      var tail := if b[|b| - 1].Absorbed? then b[|b| - 1].bytes else [];
      assert Data(a) + (Data(b[..|b| - 1]) + tail) == Data(a) + Data(b[..|b| - 1]) + tail;
    }
  }

  /** A prefix of a run has read a prefix of the proof. */
  lemma PrefixData(run: seq<Event>, m: nat, proof: seq<byte>, cur: nat)
    requires m <= |run| && cur <= |proof| && Data(run) == proof[..cur]
    ensures |Data(run[..m])| <= cur && Data(run[..m]) == proof[..|Data(run[..m])|]
  {
    assert run == run[..m] + run[m..];
    DataConcat(run[..m], run[m..]);
  }

  lemma WordsConcat(a: seq<Event>, b: seq<Event>)
    requires Words(a) && Words(b)
    ensures Words(a + b)
  {
  }

  /** The start of an execution only absorbs words. */
  lemma StartAbsorbs<F(!new)>(f: Field<F>, transcriptRepr: seq<byte>, columns: nat, inputs: seq<seq<byte>>)
    requires |transcriptRepr| == 32 && WordList(inputs)
    ensures var start := [Absorbed(transcriptRepr)] + InputEvents(f, Gwc, columns, inputs);
      Words(start) && Squeezes(start) == 0
  {
    hide ScalarBytes, Squeezes;
    var e := InputEvents(f, Gwc, columns, inputs);
    var lengths, values := LengthEvents(f, columns, |inputs|), ValueEvents(inputs);
    forall c | 0 <= c < columns ensures lengths[c].Absorbed? && |lengths[c].bytes| == 32 {
      assert lengths[c] == Absorbed(ScalarBytes(f, f.of(if c == 0 then |inputs| else 0)));
    }
    forall i | 0 <= i < |inputs| ensures values[i].Absorbed? && |values[i].bytes| == 32 {
      assert values[i] == Absorbed(inputs[i]);
    }
    WordsConcat(LengthEvents(f, columns, |inputs|), ValueEvents(inputs));
    WordsConcat([Absorbed(transcriptRepr)], e);
    NoSqueezes([Absorbed(transcriptRepr)] + e);
  }

  /** All events of an execution absorb words, and its n-th squeeze is the n-th one of the reading. */
  lemma ExecutionShape<F(!new)>(f: Field<F>, hash: Digest, transcriptRepr: seq<byte>, vk: Key<F>, x: Execution<F>)
    requires IsExecution(f, hash, transcriptRepr, vk, x)
    ensures x.events == x.track.start + x.Reading() && Squeezes(x.track.start) == 0 && Words(x.events)
    ensures |x.Reading()| <= |x.track.script| && Matches(Gwc, x.Reading(), x.track.script[..|x.Reading()|])
    ensures x.track.cur <= |x.proof| && Data(x.Reading()) == x.proof[..x.track.cur]
  {
    hide Draw, HashInputs, Script, Data, InputEvents, Squeezes, Words, Matches;
    StartAbsorbs(f, transcriptRepr, vk.numInstance, x.inputs);
    MatchedLength(x.Reading(), x.track.script[..|x.track.script| - |x.track.left|]);
    MatchedWords(x.Reading(), x.track.script[..|x.track.script| - |x.track.left|]);
    WordsConcat(x.track.start, x.Reading());
  }

  lemma MatchedLength(run: seq<Event>, ops: seq<Op>)
    requires Matches(Gwc, run, ops)
    ensures |run| == |ops|
  {
  }

  lemma MatchedWords(run: seq<Event>, ops: seq<Op>)
    requires Matches(Gwc, run, ops)
    ensures Words(run)
  {
    forall i | 0 <= i < |run| && run[i].Absorbed? ensures |run[i].bytes| == 32 {
      assert Fits(Gwc, run[i], ops[i]);
    }
  }

  lemma {:induction false} UpToConcat(a: seq<Event>, b: seq<Event>, n: nat)
    requires Squeezes(a) == 0 && n < Squeezes(b)
    ensures Squeezes(a + b) == Squeezes(b) && UpTo(a + b, n) == a + UpTo(b, n)
  {
    SqueezesConcat(a, b);
    var init := b[..|b| - 1];
    assert (a + b)[..|a + b| - 1] == a + init;
    SqueezesConcat(a, init);
    if n < Squeezes(init) {
      UpToConcat(a, init, n);
    }
  }

  /** The n-th squeeze sits at the place of the script with n squeezes before it. */
  lemma SqueezePlace(run: seq<Event>, script: seq<Op>, n: nat)
    requires |run| <= |script| && Matches(Gwc, run, script[..|run|]) && n < Squeezes(run)
    ensures var m := |UpTo(run, n)|; m < |script| && script[m] == Squeeze && OpSqueezes(script[..m]) == n
  {
    hide Squeezes, UpTo, OpSqueezes;
    var p := UpTo(run, n);
    var m := |p|;
    assert Fits(Gwc, run[m], script[..|run|][m]);
    assert p == run[..m] && script[..m] == script[..|run|][..m];
    PrefixMatches(run, script[..|run|], m);
    MatchingSqueezes(Gwc, p, script[..m]);
  }

  lemma PrefixMatches(run: seq<Event>, ops: seq<Op>, m: nat)
    requires Matches(Gwc, run, ops) && m <= |run|
    ensures Matches(Gwc, run[..m], ops[..m])
  {
    hide Fits;
  }

  /** What was read before a squeeze is a prefix of the proof. */
  lemma ReadBytes<F(!new)>(f: Field<F>, hash: Digest, transcriptRepr: seq<byte>, vk: Key<F>, x: Execution<F>, n: nat)
    requires IsExecution(f, hash, transcriptRepr, vk, x)
    ensures Data(ReadBefore(x, n)) <= x.proof
  {
    hide IsExecution, Squeezes, UpTo, Data, Words, Matches;
    ExecutionShape(f, hash, transcriptRepr, vk, x);
    var p := ReadBefore(x, n);
    assert p == x.Reading()[..|p|];
    PrefixData(x.Reading(), |p|, x.proof, x.track.cur);
  }

  /** The squeeze of an execution in terms of its reading. */
  lemma HashedBefore<F(!new)>(f: Field<F>, hash: Digest, transcriptRepr: seq<byte>, vk: Key<F>, x: Execution<F>, n: nat)
    requires IsExecution(f, hash, transcriptRepr, vk, x) && HashedAt(hash, x.events, n).Some?
    ensures n < Squeezes(x.Reading()) && n < Squeezes(x.events) && UpTo(x.events, n) == x.track.start + ReadBefore(x, n)
    ensures var m := |ReadBefore(x, n)|; m < |x.track.script| && x.track.script[m] == Squeeze && OpSqueezes(x.track.script[..m]) == n
  {
    hide IsExecution, Squeezes, UpTo, Words, Matches, HashInputs, OpSqueezes, Data;
    ExecutionShape(f, hash, transcriptRepr, vk, x);
    InputOfSqueeze(Gwc, hash, x.events, n);
    SqueezesConcat(x.track.start, x.Reading());
    UpToConcat(x.track.start, x.Reading(), n);
    SqueezePlace(x.Reading(), x.track.script, n);
  }

  /** Transcript binding: if two executions with the same verifying key hash the same bytes at their
      n-th squeeze, they had the same public inputs and had read the same proof bytes. */
  lemma ChallengesBind<F(!new)>(f: Field<F>, hash: Digest, transcriptRepr: seq<byte>, vk: Key<F>, a: Execution<F>, b: Execution<F>, n: nat)
    requires IsExecution(f, hash, transcriptRepr, vk, a) && IsExecution(f, hash, transcriptRepr, vk, b)
    requires HashedAt(hash, a.events, n).Some? && HashedAt(hash, a.events, n) == HashedAt(hash, b.events, n)
    ensures a.inputs == b.inputs && Data(ReadBefore(a, n)) == Data(ReadBefore(b, n))
    ensures Data(ReadBefore(a, n)) <= a.proof && Data(ReadBefore(a, n)) <= b.proof
  {
    hide IsExecution, HashInputs, Squeezes, UpTo, Data, Words, OpSqueezes, Matches, ReadBefore, Execution.Reading;
    ExecutionShape(f, hash, transcriptRepr, vk, a);
    ExecutionShape(f, hash, transcriptRepr, vk, b);
    HashedBefore(f, hash, transcriptRepr, vk, a, n);
    HashedBefore(f, hash, transcriptRepr, vk, b, n);
    EqualInputsEqualEvents(hash, a.events, b.events, n);
    SameScript(f, hash, transcriptRepr, vk, a, b);
    SamePlace(a.track.script, |ReadBefore(a, n)|, |ReadBefore(b, n)|);
    SplitEqual(a.track.start, ReadBefore(a, n), b.track.start, ReadBefore(b, n));
    SameStart(f, hash, transcriptRepr, vk, a, b);
    ReadBytes(f, hash, transcriptRepr, vk, a, n);
    ReadBytes(f, hash, transcriptRepr, vk, b, n);
  }

  lemma SamePlace(script: seq<Op>, m: nat, n: nat)
    requires m < |script| && n < |script| && script[m] == Squeeze && script[n] == Squeeze
    requires OpSqueezes(script[..m]) == OpSqueezes(script[..n])
    ensures m == n
  {
    hide OpSqueezes;
    if m < n {
      OpSqueezesGrow(script, m, n);
    } else if n < m {
      OpSqueezesGrow(script, n, m);
    }
  }

  lemma SameScript<F(!new)>(f: Field<F>, hash: Digest, transcriptRepr: seq<byte>, vk: Key<F>, a: Execution<F>, b: Execution<F>)
    requires IsExecution(f, hash, transcriptRepr, vk, a) && IsExecution(f, hash, transcriptRepr, vk, b)
    ensures a.track.script == b.track.script
  {
    hide Script, TracksAt, InputEvents, Witnesses;
  }

  lemma SameStart<F(!new)>(f: Field<F>, hash: Digest, transcriptRepr: seq<byte>, vk: Key<F>, a: Execution<F>, b: Execution<F>)
    requires IsExecution(f, hash, transcriptRepr, vk, a) && IsExecution(f, hash, transcriptRepr, vk, b)
    requires a.track.start == b.track.start
    ensures a.inputs == b.inputs
  {
    hide Script, TracksAt, InputEvents, Witnesses;
    SameInputs(f, transcriptRepr, vk, a.inputs, b.inputs);
  }

  lemma SameInputs<F(!new)>(f: Field<F>, transcriptRepr: seq<byte>, vk: Key<F>, a: seq<seq<byte>>, b: seq<seq<byte>>)
    requires [Absorbed(transcriptRepr)] + InputEvents(f, Gwc, vk.numInstance, a) == [Absorbed(transcriptRepr)] + InputEvents(f, Gwc, vk.numInstance, b)
    ensures a == b
  {
    hide ScalarBytes, LengthEvents;
    var ea, eb := InputEvents(f, Gwc, vk.numInstance, a), InputEvents(f, Gwc, vk.numInstance, b);
    assert ea == ([Absorbed(transcriptRepr)] + ea)[1..] == ([Absorbed(transcriptRepr)] + eb)[1..] == eb;
    assert |a| == |b|;
    forall i | 0 <= i < |a| ensures a[i] == b[i] {
      assert ea[vk.numInstance + i] == Absorbed(a[i]) && eb[vk.numInstance + i] == Absorbed(b[i]);
    }
  }
}
