/**
 The two proof parsers of the verifier, with and without the transcript, their agreement, and the
 binding of every challenge to the public inputs and the proof bytes read before it.
 */
module ProofParsers {
  import opened Wrappers
  import opened Bytes
  import opened PowersOfTwo
  import opened Fields
  import opened Plonk
  import opened Expression
  import opened Formats
  import opened Transcript
  import opened ProofFormat
  import opened ProofScript
  import opened ProofReader
  import WitnessCount

  datatype GwcOpeningProof<F> = GwcOpeningProof(v: F, u: F, witnesses: seq<seq<byte>>)

  // ----- public inputs -----

  /** Each instance column's length: only the first one is populated. */
  ghost function LengthEvents<F(!new)>(f: Field<F>, columns: nat, inputs: nat): (e: seq<Event>)
    ensures |e| == columns
  {
    seq(columns, c => Absorbed(ScalarBytes(f, f.of(if c == 0 then inputs else 0))))
  }

  ghost function ValueEvents(inputs: seq<seq<byte>>): (e: seq<Event>)
    ensures |e| == |inputs|
  {
    seq(|inputs|, i requires 0 <= i < |inputs| => Absorbed(inputs[i]))
  }

  /** What is absorbed before the proof: with GWC also the lengths of the instance columns. */
  ghost function InputEvents<F(!new)>(f: Field<F>, scheme: Scheme, columns: nat, inputs: seq<seq<byte>>): seq<Event> {
    (if scheme == Gwc then LengthEvents(f, columns, |inputs|) else []) + ValueEvents(inputs)
  }

  /** With GWC the column lengths come first, the number of inputs for the first column and zero for the others;
      the inputs follow, in order. With SHPLONK there are only the inputs. */
  lemma InputOrder<F(!new)>(f: Field<F>, columns: nat, inputs: seq<seq<byte>>, i: nat)
    ensures |InputEvents(f, Gwc, columns, inputs)| == columns + |inputs| && |InputEvents(f, Shplonk, columns, inputs)| == |inputs|
    ensures i < columns ==> InputEvents(f, Gwc, columns, inputs)[i] == Absorbed(ScalarBytes(f, f.of(if i == 0 then |inputs| else 0)))
    ensures i < |inputs| ==> InputEvents(f, Gwc, columns, inputs)[columns + i] == Absorbed(inputs[i]) == InputEvents(f, Shplonk, columns, inputs)[i]
  {
    hide ScalarBytes;
  }

  method AbsorbInputs<F(!new)>(f: Field<F>, t: Transcript, columns: nat, inputs: seq<seq<byte>>)
    requires t.Valid()
    modifies t
    ensures t.Valid() && t.events == old(t.events) + InputEvents(f, t.scheme, columns, inputs)
  {
    hide ScalarBytes, Digests, BufferOf;
    ghost var start := t.events;
    if t.scheme == Gwc {
      for column := 0 to columns
        invariant t.Valid() && t.events == start + LengthEvents(f, columns, |inputs|)[..column]
      {
        var len := if column == 0 then |inputs| else 0;
        t.Absorb(ScalarBytes(f, f.of(len)));
        ghost var e := LengthEvents(f, columns, |inputs|);
        assert e[..column + 1] == e[..column] + [e[column]];
      }
    }
    ghost var lengths := if t.scheme == Gwc then LengthEvents(f, columns, |inputs|) else [];
    assert t.events == start + lengths;
    for i := 0 to |inputs|
      invariant t.Valid() && t.events == start + (lengths + ValueEvents(inputs)[..i])
    {
      t.Absorb(inputs[i]);
      ghost var e := ValueEvents(inputs);
      assert e[..i + 1] == e[..i] + [e[i]];
    }
    assert ValueEvents(inputs)[..|inputs|] == ValueEvents(inputs);
  }

  lemma TrackStart<F(!new)>(f: Field<F>, t: Transcript, proof: seq<byte>, script: seq<Op>)
    requires t.Valid()
    ensures Tracks(f, t, proof, Track(t.events, script, script, 0, Draw(f, t.hash, HashInputs(t.scheme, t.hash, t.events))))
  {
    hide Draw, HashInputs;
    var events := t.events;
    assert events[|events|..] == [] && script[0..] == script && script[..0] == [] && proof[..0] == [];
  }

  // ----- the opening -----

  method ReadOpening<F(!new)>(f: Field<F>, t: Transcript, witnesses: nat, proof: seq<byte>, from: nat, ghost k0: Track<F>)
    returns (r: Result<(seq<seq<byte>>, seq<F>, nat), Error>, ghost k: Track<F>)
    requires Tracks(f, t, proof, k0) && k0.cur == from <= |proof| && k0.left == OpeningOps(t.scheme, witnesses)
    modifies t
    ensures Tracks(f, t, proof, k) && k.start == k0.start && k.script == k0.script
    ensures var points := Many(ParseG1(WireOf(f, t)), OpeningPoints(t.scheme, witnesses), proof[from..]);
      if points.Err? then r == Err(points.error)
      else
        && r.Ok? && r.value.0 == points.value.0 && r.value.2 <= |proof| && points.value.1 == proof[r.value.2..]
        && |r.value.1| == (if t.scheme == Gwc then 2 else 3) && k == k0.(left := [], cur := r.value.2, drawn := k0.drawn + r.value.1)
  {
    hide Tracks, ParseG1, Many, Prepend, Times;
    ghost var g := ParseG1(WireOf(f, t));
    if t.scheme == Shplonk {
      var y, v, u, w1, w2;
      ManyStart(g, 2, proof[from..]);
      ManyStep(g, 2, [], proof[from..]);
      y, k := NextChallenge(f, t, proof, k0);
      v, k := NextChallenge(f, t, proof, k);
      w1, k := NextPoint(f, t, proof, from, k);
      if w1.Err? { return Err(w1.error), k; }
      assert [] + [w1.value.0] == [w1.value.0];
      ManyStep(g, 1, [w1.value.0], proof[w1.value.1..]);
      u, k := NextChallenge(f, t, proof, k);
      w2, k := NextPoint(f, t, proof, w1.value.1, k);
      if w2.Err? { return Err(w2.error), k; }
      assert [w1.value.0] + [w2.value.0] == [w1.value.0, w2.value.0];
      ManyDone(g, [w1.value.0, w2.value.0], proof[w2.value.1..]);
      assert k0.drawn + [y] + [v] + [u] == k0.drawn + [y, v, u];
      return Ok(([w1.value.0, w2.value.0], [y, v, u], w2.value.1)), k;
    } else {
      var v, u, points;
      v, k := NextChallenge(f, t, proof, k0);
      points, k := ReadG1s(f, t, proof, from, witnesses, [Squeeze], k);
      if points.Err? { return Err(points.error), k; }
      u, k := NextChallenge(f, t, proof, k);
      assert k0.drawn + [v] + [u] == k0.drawn + [v, u];
      return Ok((points.value.0, [v, u], points.value.1)), k;
    }
  }

  // ----- the reader with the transcript -----

  /** The witness count of the verifying key. */
  ghost function Witnesses<F>(vk: Key<F>): nat {
    |WitnessCount.Distinguished(WitnessCount.VkRotations(vk), Pow2(vk.k))|
  }

  ghost predicate Readable<F>(vk: Key<F>) {
    SinglePhase(vk) || Tabled(vk)
  }

  /** Every challenge is the one drawn at its place: user challenges by phase and index, then theta,
      beta, gamma, y, x and those of the opening. */
  ghost predicate ChallengesDrawn<F(!new)>(f: Field<F>, scheme: Scheme, vk: Key<F>, c: Challenges<F>, gwc: Option<GwcOpeningProof<F>>, drawn: seq<F>) {
    && |drawn| == |ChallengeOrder(vk)| + 5 + (if scheme == Gwc then 2 else 3)
    && CommonDrawn(f, vk, CommonChallenges(c.userChallenges, c.theta, c.beta, c.gamma, c.y, c.x), drawn[..|ChallengeOrder(vk)| + 5])
    && var opening := drawn[|ChallengeOrder(vk)| + 5..];
       if scheme == Gwc then
         gwc.Some? && opening == [gwc.value.v, gwc.value.u] && c.shplonkY == c.shplonkV == c.shplonkU == f.Zero()
       else gwc.None? && opening == [c.shplonkY, c.shplonkV, c.shplonkU]
  }

  /** The three parts of a proof, to the last byte, and the challenges drawn meanwhile. */
  method ReadContents<F(!new)>(f: Field<F>, t: Transcript, vk: Key<F>, proof: seq<byte>, ghost k0: Track<F>)
    returns (r: Result<(Contents<F>, CommonChallenges<F>, seq<F>), Error>, ghost k: Track<F>)
    requires Readable(vk)
    requires Tracks(f, t, proof, k0) && k0.cur == 0 && k0.left == Script(t.scheme, vk, Witnesses(vk))
    modifies t
    ensures Tracks(f, t, proof, k) && k.start == k0.start && k.script == k0.script
    ensures var c := ParseProof(WireOf(f, t), vk, Witnesses(vk), proof);
      if c.Err? then r == Err(c.error)
      else
        && r.Ok? && r.value.0 == c.value && k.left == [] && k.cur == |proof| && k0.drawn <= k.drawn
        && |r.value.2| == (if t.scheme == Gwc then 2 else 3) && |After(k0, k)| == |ChallengeOrder(vk)| + 5 + |r.value.2|
        && CommonDrawn(f, vk, r.value.1, After(k0, k)[..|ChallengeOrder(vk)| + 5]) && After(k0, k)[|ChallengeOrder(vk)| + 5..] == r.value.2
  {
    hide Tracks, Many, ParseG1, ParseCommits, ParseEvals, CommitOps, EvalOps, OpeningOps, CommonDrawn, ChallengeOrder, Witnesses;
    ghost var openingOps := OpeningOps(t.scheme, Witnesses(vk));
    ghost var w := WireOf(f, t);
    var commits, evals, opening;
    assert proof[0..] == proof;
    commits, k := ReadCommitments(f, t, vk, proof, 0, EvalOps(vk) + openingOps, k0);
    if commits.Err? { return Err(commits.error), k; }
    ghost var k1 := k;
    evals, k := ReadEvaluations(f, t, vk, proof, commits.value.2, openingOps, k);
    if evals.Err? { return Err(evals.error), k; }
    var witnesses := 0;
    if t.scheme == Gwc {
      witnesses := CountWitnesses(vk);
    }
    SameOpening(t.scheme, witnesses, Witnesses(vk));
    opening, k := ReadOpening(f, t, witnesses, proof, evals.value.1, k);
    if opening.Err? { return Err(opening.error), k; }
    if opening.value.2 != |proof| {
      return Err(InvalidProofEncoding), k;
    }
    DrawnSplit(k0.drawn, k1.drawn, opening.value.1, k.drawn);
    CommonLength(f, vk, commits.value.1, After(k0, k1));
    return Ok((Contents(commits.value.0, evals.value.0, opening.value.0), commits.value.1, opening.value.1)), k;
  }

  /** Without GWC the witness count plays no role. */
  lemma SameOpening(scheme: Scheme, m: nat, n: nat)
    requires scheme == Gwc ==> m == n
    ensures OpeningOps(scheme, m) == OpeningOps(scheme, n) && OpeningPoints(scheme, m) == OpeningPoints(scheme, n)
  {
  }

  lemma CommonLength<F(!new)>(f: Field<F>, vk: Key<F>, c: CommonChallenges<F>, drawn: seq<F>)
    requires CommonDrawn(f, vk, c, drawn)
    ensures |drawn| == |ChallengeOrder(vk)| + 5
  {
  }

  /** Reads a proof in protocol order while deriving the challenges. */
  method ReadProofInner<F(!new)>(f: Field<F>, t: Transcript, vk: Key<F>, proof: seq<byte>, publicInputs: seq<seq<byte>>)
    returns (r: Result<(WireProof<F>, Challenges<F>, Option<GwcOpeningProof<F>>), Error>, ghost k: Track<F>)
    requires t.Valid()
    modifies t
    ensures Tracks(f, t, proof, k) && k.script == Script(t.scheme, vk, Witnesses(vk))
    ensures k.start == old(t.events) + InputEvents(f, t.scheme, vk.numInstance, publicInputs)
    ensures !Readable(vk) ==> r == Err(Protocol)
    ensures Readable(vk) ==>
      var c := ParseProof(WireOf(f, t), vk, Witnesses(vk), proof);
      if c.Err? then r == Err(c.error)
      else
        && r.Ok? && k.left == [] && k.cur == |proof|
        && (if t.scheme == Gwc then
              r.value.0 == ProofOf(c.value, ZeroPoint(), ZeroPoint()) && r.value.2.Some? && r.value.2.value.witnesses == c.value.opening
            else r.value.0 == ProofOf(c.value, c.value.opening[0], c.value.opening[1]))
        && |HashInputs(t.scheme, t.hash, k.start)| <= |k.drawn|
        && ChallengesDrawn(f, t.scheme, vk, r.value.1, r.value.2, k.drawn[|HashInputs(t.scheme, t.hash, k.start)|..])
  {
    hide Tracks, ParseProof, InputEvents, CommonDrawn, ChallengeOrder, HashInputs, Witnesses, Digests, BufferOf, Script, Tabled;
    AbsorbInputs(f, t, vk.numInstance, publicInputs);
    ghost var script := Script(t.scheme, vk, Witnesses(vk));
    k := Track(t.events, script, script, 0, Draw(f, t.hash, HashInputs(t.scheme, t.hash, t.events)));
    TrackStart(f, t, proof, script);
    if !(vk.numPhases <= 1 && vk.adviceColumnPhase == [] && vk.challengePhase == []) {
      if |vk.adviceColumnPhase| != vk.numAdvice || |vk.challengePhase| != vk.numChallenges {
        NotReadable(vk);
        return Err(Protocol), k;
      }
      IsReadable(vk);
    }
    var contents;
    contents, k := ReadContents(f, t, vk, proof, k);
    if contents.Err? { return Err(contents.error), k; }
    var c, e, m, d := contents.value.0.commits, contents.value.0.evals, contents.value.1, contents.value.2;
    var w1, w2 := seq(64, _ => 0 as byte), seq(64, _ => 0 as byte);
    assert w1 == ZeroPoint() && w2 == ZeroPoint();
    if t.scheme == Shplonk {
      OpeningLength(WireOf(f, t), vk, Witnesses(vk), proof);
      w1, w2 := contents.value.0.opening[0], contents.value.0.opening[1];
    }
    var plonkProof: WireProof<F> := PlonkProof(c.advice, c.permProducts, c.randomPoly, c.h, e.advice, e.fixed, e.randomPoly, e.common, e.products,
                                 c.lookupInputs, c.lookupTables, c.lookupProducts, e.lookups, c.shuffleProducts, e.shuffles, w1, w2);
    assert t.scheme == Shplonk ==> d == [d[0], d[1], d[2]];
    assert t.scheme == Gwc ==> d == [d[0], d[1]];
    if t.scheme == Shplonk {
      return Ok((plonkProof, Challenges(m.theta, m.beta, m.gamma, m.y, m.x, d[0], d[1], d[2], m.user), None)), k;
    } else {
      return Ok((plonkProof, Challenges(m.theta, m.beta, m.gamma, m.y, m.x, f.Zero(), f.Zero(), f.Zero(), m.user),
                 Some(GwcOpeningProof(d[0], d[1], contents.value.0.opening)))), k;
    }
  }

  lemma NotReadable<F>(vk: Key<F>)
    requires !SinglePhase(vk) && (|vk.adviceColumnPhase| != vk.numAdvice || |vk.challengePhase| != vk.numChallenges)
    ensures !Readable(vk)
  {
  }

  lemma IsReadable<F>(vk: Key<F>)
    requires |vk.adviceColumnPhase| == vk.numAdvice && |vk.challengePhase| == vk.numChallenges
    ensures Readable(vk)
  {
  }

  lemma OpeningLength<F(!new)>(w: Wire<F>, vk: Key<F>, witnesses: nat, proof: seq<byte>)
    ensures ParseProof(w, vk, witnesses, proof).Ok? ==> |ParseProof(w, vk, witnesses, proof).value.opening| == OpeningPoints(w.scheme, witnesses)
  {
    hide *;
  }

  method CountWitnesses<F>(vk: Key<F>) returns (n: nat)
    ensures n == Witnesses(vk)
  {
    n := WitnessCount.ExpectedGwcWitnessCount(vk);
  }

  lemma DrawnSplit<F>(a: seq<F>, b: seq<F>, d: seq<F>, c: seq<F>)
    requires a <= b && c == b + d
    ensures a <= c && c[|a|..] == b[|a|..] + d
    ensures c[|a|..][..|b| - |a|] == b[|a|..] && c[|a|..][|b| - |a|..] == d
  {
  }
}
