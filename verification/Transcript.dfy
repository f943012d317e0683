/**
 The Fiat-Shamir transcripts as state machines over an uninterpreted hash: the plain one, which
 replaces its state by the digest, and the prefixed cumulative one shared with the proof generator.
 */
module Transcript {
  import opened Wrappers
  import opened Bytes
  import opened Fields
  import opened Plonk
  import opened Expression

  datatype Scheme = Shplonk | Gwc

  /** What a transcript has gone through. */
  datatype Event = Absorbed(bytes: seq<byte>) | Squeezed

  type Digest = seq<byte> -> seq<byte>

  ghost predicate Digests(hash: Digest) {
    forall b :: |hash(b)| == 32
  }

  const PREFIX_CHALLENGE: byte := 0x00
  const PREFIX_COMMON: byte := 0x01

  // ----- the cumulative stream -----

  ghost function EventBytes(e: Event): seq<byte> {
    match e
    case Absorbed(b) => [PREFIX_COMMON] + b
    case Squeezed => [PREFIX_CHALLENGE]
  }

  ghost function Stream(events: seq<Event>): seq<byte> {
    if events == [] then [] else EventBytes(events[0]) + Stream(events[1..])
  }

  lemma {:induction false} StreamConcat(a: seq<Event>, b: seq<Event>)
    ensures Stream(a + b) == Stream(a) + Stream(b)
  {
    if a == [] {
      assert a + b == b && Stream(a) + Stream(b) == Stream(b);
    } else {
      assert (a + b)[1..] == a[1..] + b;
      StreamConcat(a[1..], b);
      assert EventBytes(a[0]) + (Stream(a[1..]) + Stream(b)) == EventBytes(a[0]) + Stream(a[1..]) + Stream(b);
    }
  }

  lemma StreamSnoc(events: seq<Event>, e: Event)
    ensures Stream(events + [e]) == Stream(events) + EventBytes(e)
  {
    StreamConcat(events, [e]);
    assert [e][1..] == [];
    assert EventBytes(e) + [] == EventBytes(e);
  }

  /** Every absorbed message is one 32-byte word. */
  ghost predicate Words(events: seq<Event>) {
    forall i :: 0 <= i < |events| && events[i].Absorbed? ==> |events[i].bytes| == 32
  }

  /** The stream determines the events: the prefix bytes are found where words end. */
  lemma {:induction false} StreamInjective(a: seq<Event>, b: seq<Event>)
    requires Words(a) && Words(b) && Stream(a) == Stream(b)
    ensures a == b
    decreases |a|
  {
    if a == [] || b == [] {
      NonEmptyStream(a);
      NonEmptyStream(b);
    } else {
      var ea, eb := EventBytes(a[0]), EventBytes(b[0]);
      assert Stream(a)[0] == ea[0] && Stream(b)[0] == eb[0];
      assert |ea| == |eb|;
      assert ea == Stream(a)[..|ea|] && eb == Stream(b)[..|eb|];
      assert Stream(a[1..]) == Stream(a)[|ea|..] && Stream(b[1..]) == Stream(b)[|eb|..];
      assert a[0].Absorbed? ==> ea[1..] == a[0].bytes && eb[1..] == b[0].bytes;
      assert a[0] == b[0];
      StreamInjective(a[1..], b[1..]);
    }
  }

  lemma NonEmptyStream(a: seq<Event>)
    ensures a != [] ==> Stream(a) != []
  {
  }

  // ----- the plain state -----

  /** The digest of the state, with one byte appended when the state is exactly one digest long. */
  ghost function Padded(state: seq<byte>): seq<byte> {
    if |state| == 32 then state + [0x01] else state
  }

  ghost function PlainState(hash: Digest, events: seq<Event>): seq<byte> {
    if events == [] then []
    else
      var before, last := PlainState(hash, events[..|events| - 1]), events[|events| - 1];
      match last
      case Absorbed(b) => before + b
      case Squeezed => hash(Padded(before))
  }

  // ----- both -----

  ghost function BufferOf(scheme: Scheme, hash: Digest, events: seq<Event>): seq<byte> {
    if scheme == Gwc then Stream(events) else PlainState(hash, events)
  }

  /** The bytes hashed when a challenge is squeezed after these events. */
  ghost function HashInput(scheme: Scheme, hash: Digest, events: seq<Event>): seq<byte> {
    if scheme == Gwc then Stream(events) + [PREFIX_CHALLENGE] else Padded(PlainState(hash, events))
  }

  /** The bytes hashed so far, squeeze by squeeze. */
  ghost function HashInputs(scheme: Scheme, hash: Digest, events: seq<Event>): seq<seq<byte>> {
    if events == [] then []
    else
      var init := events[..|events| - 1];
      HashInputs(scheme, hash, init) + if events[|events| - 1].Squeezed? then [HashInput(scheme, hash, init)] else []
  }

  lemma HashInputsSnoc(scheme: Scheme, hash: Digest, events: seq<Event>, e: Event)
    ensures HashInputs(scheme, hash, events + [e]) ==
            HashInputs(scheme, hash, events) + if e.Squeezed? then [HashInput(scheme, hash, events)] else []
    ensures PlainState(hash, events + [e]) ==
            match e case Absorbed(b) => PlainState(hash, events) + b case Squeezed => hash(Padded(PlainState(hash, events)))
  {
    assert (events + [e])[..|events|] == events;
  }

  /** What one more message or squeeze does to the buffer. */
  lemma BufferAbsorbs(scheme: Scheme, hash: Digest, events: seq<Event>, b: seq<byte>)
    ensures BufferOf(scheme, hash, events + [Absorbed(b)]) ==
            if scheme == Gwc then BufferOf(scheme, hash, events) + [PREFIX_COMMON] + b else BufferOf(scheme, hash, events) + b
  {
    hide Stream, PlainState;
    StreamSnoc(events, Absorbed(b));
    HashInputsSnoc(scheme, hash, events, Absorbed(b));
    var stream := Stream(events);
    assert stream + ([PREFIX_COMMON] + b) == stream + [PREFIX_COMMON] + b;
  }

  lemma BufferSqueezes(scheme: Scheme, hash: Digest, events: seq<Event>)
    ensures var before, after := BufferOf(scheme, hash, events), BufferOf(scheme, hash, events + [Squeezed]);
      if scheme == Gwc then after == before + [PREFIX_CHALLENGE] && HashInput(scheme, hash, events) == before + [PREFIX_CHALLENGE]
      else after == hash(Padded(before)) && HashInput(scheme, hash, events) == Padded(before)
  {
    hide Stream, PlainState;
    StreamSnoc(events, Squeezed);
    HashInputsSnoc(scheme, hash, events, Squeezed);
  }

  // ----- what exactly is hashed -----

  /** The cumulative transcript: 0x01 before every message, 0x00 for every squeeze, nothing forgotten. */
  lemma CumulativeHashInput(hash: Digest, events: seq<Event>, b: seq<byte>)
    ensures HashInput(Gwc, hash, []) == [0x00]
    ensures var h := HashInput(Gwc, hash, events);
      && HashInput(Gwc, hash, events + [Squeezed]) == h + [0x00]
      && h != [] && HashInput(Gwc, hash, events + [Absorbed(b)]) == h[..|h| - 1] + [0x01] + b + [0x00]
  {
    hide Stream;
    assert Stream([]) == [] by { EmptyStream(); }
    StreamSnoc(events, Squeezed);
    StreamSnoc(events, Absorbed(b));
    var h := HashInput(Gwc, hash, events);
    assert h[..|h| - 1] == Stream(events);
  }

  lemma EmptyStream()
    ensures Stream([]) == []
  {
  }

  /** The bytes absorbed between squeezes, the open segment last. */
  ghost function Segments(events: seq<Event>): (s: seq<seq<byte>>)
    ensures s != []
  {
    if events == [] then [[]]
    else
      var init := Segments(events[..|events| - 1]);
      var n := |init| - 1;
      match events[|events| - 1]
      case Absorbed(b) => init[n := init[n] + b]
      case Squeezed => init + [[]]
  }

  lemma SegmentsSnoc(events: seq<Event>, e: Event)
    ensures var s := Segments(events);
      Segments(events + [e]) == match e case Absorbed(b) => s[|s| - 1 := s[|s| - 1] + b] case Squeezed => s + [[]]
  {
    assert (events + [e])[..|events|] == events;
  }

  /** What the plain transcript hashes after these segments: the digest of the previous input followed by
      what was absorbed since, or by one byte 0x01 when that is nothing. Before the first squeeze there
      is no digest, and 0x01 is appended when exactly 32 bytes have been absorbed. */
  ghost function PlainInput(hash: Digest, s: seq<seq<byte>>): seq<byte>
    requires s != []
  {
    var n := |s| - 1;
    if n == 0 then s[0] + (if |s[0]| == 32 then [0x01] else [])
    else hash(PlainInput(hash, s[..n])) + (if s[n] == [] then [0x01] else s[n])
  }

  /** The state of the plain transcript: one digest and what was absorbed since. */
  ghost function PlainBuffer(hash: Digest, s: seq<seq<byte>>): seq<byte>
    requires s != []
  {
    var n := |s| - 1;
    if n == 0 then s[0] else hash(PlainInput(hash, s[..n])) + s[n]
  }

  lemma InputOfBuffer(hash: Digest, s: seq<seq<byte>>)
    requires Digests(hash) && s != []
    ensures PlainInput(hash, s) == PlainBuffer(hash, s) + if |PlainBuffer(hash, s)| == 32 then [0x01] else []
  {
    hide Digests;
    var n := |s| - 1;
    if n > 0 {
      DigestLength(hash, PlainInput(hash, s[..n]));
    }
  }

  lemma DigestLength(hash: Digest, b: seq<byte>)
    requires Digests(hash)
    ensures |hash(b)| == 32
  {
  }

  lemma BufferGrows(hash: Digest, s: seq<seq<byte>>, b: seq<byte>)
    requires s != []
    ensures PlainBuffer(hash, s[|s| - 1 := s[|s| - 1] + b]) == PlainBuffer(hash, s) + b
    ensures PlainBuffer(hash, s + [[]]) == hash(PlainInput(hash, s))
  {
    hide PlainInput;
    var n := |s| - 1;
    var t := s[n := s[n] + b];
    assert t[..n] == s[..n] && (s + [[]])[..n + 1] == s;
    assert n > 0 ==> hash(PlainInput(hash, s[..n])) + (s[n] + b) == hash(PlainInput(hash, s[..n])) + s[n] + b;
    assert hash(PlainInput(hash, s)) + [] == hash(PlainInput(hash, s));
  }

  /** The bytes a plain squeeze hashes. */
  lemma {:induction false} PlainHashInput(hash: Digest, events: seq<Event>)
    requires Digests(hash)
    ensures PlainState(hash, events) == PlainBuffer(hash, Segments(events))
    ensures HashInput(Shplonk, hash, events) == PlainInput(hash, Segments(events))
  {
    hide Digests, PlainInput, PlainBuffer;
    InputOfBuffer(hash, Segments(events));
    if events == [] {
      EmptyBuffer(hash);
    } else {
      var init, e := events[..|events| - 1], events[|events| - 1];
      PlainHashInput(hash, init);
      BufferGrows(hash, Segments(init), if e.Absorbed? then e.bytes else []);
    }
  }

  lemma EmptyBuffer(hash: Digest)
    ensures PlainBuffer(hash, Segments([])) == []
  {
    hide PlainInput;
  }

  /** A squeeze directly after another one, and a squeeze after one more message. */
  lemma PlainSqueezes(hash: Digest, events: seq<Event>, b: seq<byte>)
    requires Digests(hash)
    ensures HashInput(Shplonk, hash, events + [Squeezed]) == hash(HashInput(Shplonk, hash, events)) + [0x01]
    ensures b != [] ==> HashInput(Shplonk, hash, events + [Squeezed] + [Absorbed(b)]) == hash(HashInput(Shplonk, hash, events)) + b
  {
    hide HashInput, Segments, Digests;
    var once, s := events + [Squeezed], Segments(events);
    SegmentsSnoc(events, Squeezed);
    SegmentsSnoc(once, Absorbed(b));
    PlainHashInput(hash, events);
    PlainHashInput(hash, once);
    PlainHashInput(hash, once + [Absorbed(b)]);
    var t := s + [[]];
    assert t[..|s|] == s && t[|s| := t[|s|] + b][..|s|] == s && [] + b == b;
  }

  /** The first squeeze of a fresh transcript hashes the key digest and 0x01. */
  lemma FirstPlainSqueeze(hash: Digest, transcriptRepr: seq<byte>)
    requires Digests(hash) && |transcriptRepr| == 32
    ensures HashInput(Shplonk, hash, [Absorbed(transcriptRepr)]) == transcriptRepr + [0x01]
  {
    hide Digests;
    PlainHashInput(hash, [Absorbed(transcriptRepr)]);
    SegmentsSnoc([], Absorbed(transcriptRepr));
    assert [] + [Absorbed(transcriptRepr)] == [Absorbed(transcriptRepr)] && [] + transcriptRepr == transcriptRepr;
    assert Segments([Absorbed(transcriptRepr)]) == [transcriptRepr];
  }

  /** Two different inputs with the same digest. */
  ghost predicate HashCollision(hash: Digest, a: seq<byte>, b: seq<byte>) {
    a != b && hash(a) == hash(b)
  }

  /** Segments made of 32-byte words, as scalars and points are. */
  ghost predicate WholeWords(s: seq<seq<byte>>) {
    forall i :: 0 <= i < |s| ==> |s[i]| % 32 == 0
  }

  /** Binding of the plain transcript: equal hashed bytes come from equal segments, or two of the earlier
      inputs collide. */
  lemma {:induction false} PlainSegmentsBind(hash: Digest, s: seq<seq<byte>>, t: seq<seq<byte>>)
    requires Digests(hash) && |s| == |t| > 0 && WholeWords(s) && WholeWords(t) && PlainInput(hash, s) == PlainInput(hash, t)
    ensures s == t || exists k :: 1 <= k < |s| && HashCollision(hash, PlainInput(hash, s[..k]), PlainInput(hash, t[..k]))
  {
    hide Digests;
    var n := |s| - 1;
    if n == 0 {
      assert |s[0]| % 32 == 0 && |t[0]| % 32 == 0;
      assert |s[0]| == |t[0]|;
      SplitEqual(s[0], if |s[0]| == 32 then [0x01] else [], t[0], if |t[0]| == 32 then [0x01] else []);
    } else {
      var a, b := PlainInput(hash, s[..n]), PlainInput(hash, t[..n]);
      DigestLength(hash, a);
      DigestLength(hash, b);
      SplitEqual(hash(a), if s[n] == [] then [0x01] else s[n], hash(b), if t[n] == [] then [0x01] else t[n]);
      assert |s[n]| % 32 == 0 && |t[n]| % 32 == 0;
      assert s[n] == t[n];
      if a == b {
        PlainSegmentsBind(hash, s[..n], t[..n]);
        if s[..n] == t[..n] {
          assert s == s[..n] + [s[n]] && t == t[..n] + [t[n]];
        } else {
          var k :| 1 <= k < n && HashCollision(hash, PlainInput(hash, s[..n][..k]), PlainInput(hash, t[..n][..k]));
          assert s[..n][..k] == s[..k] && t[..n][..k] == t[..k];
        }
      } else {
        assert HashCollision(hash, PlainInput(hash, s[..n]), PlainInput(hash, t[..n]));
      }
    }
  }

  lemma PlainTranscriptBinds(hash: Digest, a: seq<Event>, b: seq<Event>)
    requires Digests(hash) && |Segments(a)| == |Segments(b)| && WholeWords(Segments(a)) && WholeWords(Segments(b))
    requires HashInput(Shplonk, hash, a) == HashInput(Shplonk, hash, b)
    ensures Segments(a) == Segments(b)
         || exists k :: 1 <= k < |Segments(a)|
              && HashCollision(hash, PlainInput(hash, Segments(a)[..k]), PlainInput(hash, Segments(b)[..k]))
  {
    hide HashInput, Segments, Digests, WholeWords, HashCollision;
    PlainHashInput(hash, a);
    PlainHashInput(hash, b);
    PlainSegmentsBind(hash, Segments(a), Segments(b));
  }


  /** A challenge is the digest reduced into the field. */
  ghost function ChallengeOf<F(!new)>(f: Field<F>, hash: Digest, input: seq<byte>): F {
    f.of(BeVal(hash(input)))
  }

  /** How points are read: raw, or compressed to one word and expanded by a foreign call. */
  type Decompress = seq<byte> -> Result<seq<byte>, Error>

  function PointLen(scheme: Scheme): nat {
    if scheme == Gwc then 32 else 64
  }

  function DecodePoint(scheme: Scheme, decompress: Decompress, wire: seq<byte>): Result<seq<byte>, Error> {
    if scheme == Gwc then decompress(wire) else Ok(wire)
  }

  class Transcript {
    const scheme: Scheme
    const hash: Digest
    const decompress: Decompress
    var buffer: seq<byte>
    ghost var events: seq<Event>

    ghost predicate Valid()
      reads this
    {
      Digests(hash) && buffer == BufferOf(scheme, hash, events)
    }

    constructor (scheme: Scheme, hash: Digest, decompress: Decompress, transcriptRepr: seq<byte>)
      requires Digests(hash)
      ensures Valid() && events == [Absorbed(transcriptRepr)]
      ensures this.scheme == scheme && this.hash == hash && this.decompress == decompress
    {
      this.scheme, this.hash, this.decompress := scheme, hash, decompress;
      buffer := if scheme == Gwc then [PREFIX_COMMON] + transcriptRepr else transcriptRepr;
      events := [Absorbed(transcriptRepr)];
      new;
      BufferAbsorbs(scheme, hash, [], transcriptRepr);
      assert [] + [Absorbed(transcriptRepr)] == [Absorbed(transcriptRepr)];
    }

    method Absorb(bytes: seq<byte>)
      requires Valid()
      modifies this
      ensures Valid() && events == old(events) + [Absorbed(bytes)]
    {
      hide BufferOf, Digests;
      BufferAbsorbs(scheme, hash, events, bytes);
      buffer := if scheme == Gwc then buffer + [PREFIX_COMMON] + bytes else buffer + bytes;
      events := events + [Absorbed(bytes)];
    }

    /** Reads a canonical scalar at the cursor and absorbs its bytes; a failed read absorbs nothing. */
    method ReadScalar<F(!new)>(f: Field<F>, proof: seq<byte>, cur: nat) returns (r: Result<F, Error>)
      requires Valid() && cur <= |proof|
      modifies this
      ensures Valid()
      ensures if |proof| < cur + 32 then r == Err(InvalidProofEncoding)
              else if ScalarFromBytes(f, proof[cur..cur + 32]).None? then r == Err(PublicInputOutOfRange)
              else r == Ok(ScalarFromBytes(f, proof[cur..cur + 32]).value)
      ensures events == if r.Ok? then old(events) + [Absorbed(proof[cur..cur + 32])] else old(events)
    {
      if cur + 32 > |proof| {
        return Err(InvalidProofEncoding);
      }
      var bytes := proof[cur..cur + 32];
      var scalar := ScalarFromBytes(f, bytes);
      if scalar.None? {
        return Err(PublicInputOutOfRange);
      }
      Absorb(bytes);
      return Ok(scalar.value);
    }

    /** Reads a point at the cursor and absorbs its wire bytes; a failed read absorbs nothing. */
    method ReadG1(proof: seq<byte>, cur: nat) returns (r: Result<seq<byte>, Error>)
      requires Valid() && cur <= |proof|
      modifies this
      ensures Valid()
      ensures if |proof| < cur + PointLen(scheme) then r == Err(InvalidProofEncoding)
              else r == DecodePoint(scheme, decompress, proof[cur..cur + PointLen(scheme)])
      ensures events == if r.Ok? then old(events) + [Absorbed(proof[cur..cur + PointLen(scheme)])] else old(events)
    {
      if cur + PointLen(scheme) > |proof| {
        return Err(InvalidProofEncoding);
      }
      var wire := proof[cur..cur + PointLen(scheme)];
      var point :- DecodePoint(scheme, decompress, wire);
      Absorb(wire);
      return Ok(point);
    }

    /** Squeezes a challenge out of everything absorbed so far. */
    method SqueezeChallenge<F(!new)>(f: Field<F>) returns (c: F)
      requires Valid()
      modifies this
      ensures Valid() && events == old(events) + [Squeezed]
      ensures c == ChallengeOf(f, hash, HashInput(scheme, hash, old(events)))
    {
      hide BufferOf, Digests, HashInput;
      BufferSqueezes(scheme, hash, events);
      var digest: seq<byte>;
      if scheme == Gwc {
        digest := hash(buffer + [PREFIX_CHALLENGE]);
        buffer := buffer + [PREFIX_CHALLENGE];
      } else {
        digest := if |buffer| == 32 then hash(buffer + [0x01]) else hash(buffer);
        buffer := digest;
      }
      events := events + [Squeezed];
      return f.of(BeVal(digest));
    }
  }

  // ----- the proof generator's transcript -----

  class SolanaKeccak {
    const hash: Digest
    var accumulated: seq<byte>
    ghost var events: seq<Event>

    ghost predicate Valid()
      reads this
    {
      accumulated == Stream(events)
    }

    constructor (hash: Digest)
      ensures Valid() && events == [] && this.hash == hash
    {
      this.hash := hash;
      accumulated, events := [], [];
    }

    method Absorb(input: seq<byte>)
      requires Valid()
      modifies this
      ensures Valid() && events == old(events) + [Absorbed(input)]
    {
      StreamSnoc(events, Absorbed(input));
      accumulated := accumulated + [0x01] + input;
      events := events + [Absorbed(input)];
    }

    method Squeeze() returns (digest: seq<byte>)
      requires Valid()
      modifies this
      ensures Valid() && events == old(events) + [Squeezed]
      ensures digest == hash(HashInput(Gwc, hash, old(events)))
    {
      StreamSnoc(events, Squeezed);
      digest := hash(accumulated + [0x00]);
      accumulated := accumulated + [0x00];
      events := events + [Squeezed];
    }
  }

  // ----- challenges from digests on both sides -----

  ghost function Reverse(b: seq<byte>): (r: seq<byte>)
    ensures |r| == |b|
  {
    if b == [] then [] else [b[|b| - 1]] + Reverse(b[..|b| - 1])
  }

  lemma {:induction false} ReversedValue(b: seq<byte>, zeros: seq<byte>)
    requires forall i :: 0 <= i < |zeros| ==> zeros[i] == 0
    ensures LeVal(Reverse(b) + zeros) == BeVal(b)
  {
    if b == [] {
      assert Reverse(b) + zeros == zeros;
      ZeroValue(zeros);
    } else {
      ReversedValue(b[..|b| - 1], zeros);
      assert (Reverse(b) + zeros)[1..] == Reverse(b[..|b| - 1]) + zeros;
    }
  }

  lemma {:induction false} ZeroValue(zeros: seq<byte>)
    requires forall i :: 0 <= i < |zeros| ==> zeros[i] == 0
    ensures LeVal(zeros) == 0
  {
    if zeros != [] {
      ZeroValue(zeros[1..]);
    }
  }

  /** The generator's sampling: the reversed digest in the low half of 64 little-endian bytes. */
  method Sample<F(!new)>(f: Field<F>, digest: seq<byte>) returns (c: F)
    requires |digest| == 32
    ensures c == f.of(BeVal(digest))
  {
    var wide: seq<byte> := [];
    assert digest[32..] == [] && Reverse([]) == [];
    for i := 0 to 32
      invariant wide == ReverseOf(digest[32 - i..])
    {
      assert digest[32 - i - 1..] == [digest[31 - i]] + digest[32 - i..];
      ReverseOfCons(digest[31 - i], digest[32 - i..]);
      wide := wide + [digest[31 - i]];
    }
    assert digest[0..] == digest;
    ReverseOfIsReverse(digest);
    var padding := seq(32, _ => 0 as byte);
    ReversedValue(digest, padding);
    return f.of(LeVal(wide + padding));
  }

  ghost function ReverseOf(b: seq<byte>): seq<byte> {
    if b == [] then [] else ReverseOf(b[1..]) + [b[0]]
  }

  lemma ReverseOfCons(x: byte, b: seq<byte>)
    ensures ReverseOf([x] + b) == ReverseOf(b) + [x]
  {
    assert ([x] + b)[1..] == b;
  }

  lemma {:induction false} ReverseOfIsReverse(b: seq<byte>)
    ensures ReverseOf(b) == Reverse(b)
  {
    if |b| > 1 {
      var m := b[1..|b| - 1];
      ReverseOfIsReverse(b[1..]);
      ReverseOfIsReverse(b[..|b| - 1]);
      ReverseOfIsReverse(m);
      assert b[1..][..|b| - 2] == m && b[..|b| - 1][1..] == m;
    }
  }

  /** The same messages and squeezes on both sides: the same bytes are hashed and the same challenges
      come out. */
  method ReplayOnBoth<F(!new)>(f: Field<F>, hash: Digest, decompress: Decompress, transcriptRepr: seq<byte>, script: seq<Event>)
    returns (verifier: seq<F>, generator: seq<F>)
    requires Digests(hash)
    ensures verifier == generator
  {
    hide Stream, HashInput, Digests;
    var v := new Transcript(Gwc, hash, decompress, transcriptRepr);
    var g := new SolanaKeccak(hash);
    g.Absorb(transcriptRepr);
    verifier, generator := [], [];
    for i := 0 to |script|
      invariant v.Valid() && g.Valid() && fresh(v) && fresh(g)
      invariant v.hash == g.hash == hash && v.scheme == Gwc && v.events == g.events
      invariant verifier == generator
    {
      if script[i].Absorbed? {
        v.Absorb(script[i].bytes);
        g.Absorb(script[i].bytes);
      } else {
        var c := v.SqueezeChallenge(f);
        assert Digests(hash) ==> |hash(HashInput(Gwc, hash, g.events))| == 32 by { DigestLength(hash, HashInput(Gwc, hash, g.events)); }
        var digest := g.Squeeze();
        var d := Sample(f, digest);
        verifier, generator := verifier + [c], generator + [d];
      }
    }
  }

  // ----- growth and binding of the cumulative transcript -----

  /** Each hashed input is a proper prefix of every later one. */
  lemma {:induction false} HashInputsGrow(hash: Digest, events: seq<Event>, i: nat, j: nat)
    requires i < j < |HashInputs(Gwc, hash, events)|
    ensures HashInputs(Gwc, hash, events)[i] < HashInputs(Gwc, hash, events)[j]
  {
    var init, last := events[..|events| - 1], events[|events| - 1];
    var before := HashInputs(Gwc, hash, init);
    assert events == init + [last];
    if j < |before| {
      HashInputsGrow(hash, init, i, j);
    } else {
      InputIsPrefix(hash, init, i);
    }
  }

  lemma {:induction false} InputIsPrefix(hash: Digest, events: seq<Event>, i: nat)
    requires i < |HashInputs(Gwc, hash, events)|
    ensures HashInputs(Gwc, hash, events)[i] <= Stream(events)
  {
    var init, last := events[..|events| - 1], events[|events| - 1];
    assert events == init + [last];
    StreamSnoc(init, last);
    if i < |HashInputs(Gwc, hash, init)| {
      InputIsPrefix(hash, init, i);
    }
  }

  /** The events before the k-th squeeze. */
  ghost function UpTo(events: seq<Event>, k: nat): (p: seq<Event>)
    requires k < Squeezes(events)
    ensures p < events && Squeezes(p) == k && events[|p|].Squeezed?
  {
    var init, last := events[..|events| - 1], events[|events| - 1];
    if k < Squeezes(init) then UpTo(init, k) else init
  }

  ghost function Squeezes(events: seq<Event>): nat {
    if events == [] then 0
    else Squeezes(events[..|events| - 1]) + if events[|events| - 1].Squeezed? then 1 else 0
  }

  lemma {:induction false} InputOfSqueeze(scheme: Scheme, hash: Digest, events: seq<Event>, k: nat)
    ensures |HashInputs(scheme, hash, events)| == Squeezes(events)
    ensures k < Squeezes(events) ==> HashInputs(scheme, hash, events)[k] == HashInput(scheme, hash, UpTo(events, k))
  {
    if events != [] {
      InputOfSqueeze(scheme, hash, events[..|events| - 1], k);
    }
  }

  /** Equal hashed bytes come from equal histories. */
  lemma EqualInputsEqualEvents(hash: Digest, a: seq<Event>, b: seq<Event>, k: nat)
    requires Words(a) && Words(b) && k < Squeezes(a) && k < Squeezes(b)
    ensures |HashInputs(Gwc, hash, a)| == Squeezes(a) && |HashInputs(Gwc, hash, b)| == Squeezes(b)
    ensures HashInputs(Gwc, hash, a)[k] == HashInputs(Gwc, hash, b)[k] ==> UpTo(a, k) == UpTo(b, k)
  {
    hide Stream, HashInputs;
    InputOfSqueeze(Gwc, hash, a, k);
    InputOfSqueeze(Gwc, hash, b, k);
    if HashInputs(Gwc, hash, a)[k] == HashInputs(Gwc, hash, b)[k] {
      var sa, sb := Stream(UpTo(a, k)), Stream(UpTo(b, k));
      assert (sa + [PREFIX_CHALLENGE])[..|sa|] == (sb + [PREFIX_CHALLENGE])[..|sb|];
      assert sa == sb;
      StreamInjective(UpTo(a, k), UpTo(b, k));
    }
  }
}
