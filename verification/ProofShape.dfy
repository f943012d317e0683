/**
 From bytes to the verifier: an accepted proof has the sizes its verifying key announces, so that a
 GWC proof is never turned away for its number of witnesses.
 */
module ProofShape {
  import opened Wrappers
  import opened Bytes
  import opened PowersOfTwo
  import opened Fields
  import opened Domain
  import opened Kzg
  import opened Plonk
  import opened Expression
  import opened Formats
  import opened Transcript
  import opened ProofFormat
  import Queries
  import Gwc
  import ProofParsers
  import VkFormat
  import WitnessCount

  // ----- the sizes of what is parsed -----

  lemma ProductsSizes<F(!new)>(w: Wire<F>, vk: Key<F>, b: seq<byte>)
    requires ParseProducts(w, vk, b).Ok?
    ensures var p := ParseProducts(w, vk, b).value.0;
      |p.perm| == vk.numPermChunks && |p.lookups| == vk.NumLookups() && |p.shuffles| == vk.NumShuffles()
  {
    hide Many, ParseG1;
    var g := ParseG1(w);
    ManyCount(g, vk.numPermChunks, b);
    var perm := Many(g, vk.numPermChunks, b).value;
    ManyCount(g, vk.NumLookups(), perm.1);
    var lookups := Many(g, vk.NumLookups(), perm.1).value;
    ManyCount(g, vk.NumShuffles(), lookups.1);
  }

  lemma CommitsSizes<F(!new)>(w: Wire<F>, vk: Key<F>, b: seq<byte>)
    requires AdviceTabled(vk) && ParseCommits(w, vk, b).Ok?
    ensures var c := ParseCommits(w, vk, b).value.0;
      && |c.advice| == vk.numAdvice && |c.permProducts| == vk.numPermChunks && |c.shuffleProducts| == vk.NumShuffles()
      && |c.lookupInputs| == |c.lookupTables| == |c.lookupProducts| == vk.NumLookups()
  {
    hide Many, ParseG1, ParseTwo, ParseProducts, WireOrder, Placed;
    WireOrderInRange(vk);
    var g := ParseG1(w);
    ManyCount(g, |WireOrder(vk)|, b);
    var advice := Many(g, |WireOrder(vk)|, b).value;
    ManyCount(ParseTwo(g), vk.NumLookups(), advice.1);
    var permuted := Many(ParseTwo(g), vk.NumLookups(), advice.1).value;
    ProductsSizes(w, vk, permuted.1);
  }

  lemma {:induction false} ChunksSize<F(!new)>(w: Wire<F>, left: nat, b: seq<byte>)
    requires ParseChunks(w, left, b).Ok?
    ensures |ParseChunks(w, left, b).value.0| == left
  {
    hide ParseFr;
    if left > 0 {
      var two := ParseTwo(ParseFr(w))(b).value;
      if left == 1 {
        ChunksSize(w, 0, two.1);
      } else {
        ChunksSize(w, left - 1, ParseFr(w)(two.1).value.1);
      }
    }
  }

  lemma EvalsSizes<F(!new)>(w: Wire<F>, vk: Key<F>, b: seq<byte>)
    requires ParseEvals(w, vk, b).Ok?
    ensures var e := ParseEvals(w, vk, b).value.0;
      && |e.advice| == vk.numAdviceQueries && |e.fixed| == vk.numFixedQueries && |e.common| == vk.NumPermColumns()
      && |e.products| == vk.numPermChunks && |e.lookups| == vk.NumLookups() && |e.shuffles| == vk.NumShuffles()
  {
    hide Many, ParseFr, ParseTwo, ParseChunks, ParseLookupEvals;
    var s := ParseFr(w);
    ManyCount(s, vk.numAdviceQueries, b);
    var advice := Many(s, vk.numAdviceQueries, b).value;
    ManyCount(s, vk.numFixedQueries, advice.1);
    var fixed := Many(s, vk.numFixedQueries, advice.1).value;
    var random := s(fixed.1).value;
    ManyCount(s, vk.NumPermColumns(), random.1);
    var common := Many(s, vk.NumPermColumns(), random.1).value;
    ChunksSize(w, vk.numPermChunks, common.1);
    var products := ParseChunks(w, vk.numPermChunks, common.1).value;
    ManyCount(ParseLookupEvals(w), vk.NumLookups(), products.1);
    var lookups := Many(ParseLookupEvals(w), vk.NumLookups(), products.1).value;
    ManyCount(ParseTwo(s), vk.NumShuffles(), lookups.1);
  }

  // ----- the verifier's view of the parsed key and proof -----

  /** Points as the algebra sees them, for any reading of point encodings. */
  ghost function Points<F>(dec: seq<byte> -> F, wire: seq<seq<byte>>): (p: seq<F>)
    ensures |p| == |wire|
  {
    seq(|wire|, i requires 0 <= i < |wire| => dec(wire[i]))
  }

  ghost function KeyOf<F>(dec: seq<byte> -> F, vk: Key<F>): Queries.Vk<F> {
    PlonkProtocol(vk.k, vk.omega, vk.numInstance, vk.numAdvice, vk.numFixed, vk.csDegree, vk.numAdviceQueries, vk.numFixedQueries,
                  vk.numInstanceQueries, vk.numChallenges, vk.blindingFactors, vk.numPermChunks, Points(dec, vk.fixedCommitments),
                  Points(dec, vk.permutationCommitments), vk.adviceQueries, vk.fixedQueries, vk.instanceQueries, vk.gates,
                  vk.permutedColumns, vk.lookups, vk.shuffles, vk.numPhases, vk.adviceColumnPhase, vk.challengePhase, vk.transcriptRepr)
  }

  ghost function ProofOf<F>(dec: seq<byte> -> F, c: Contents<F>, w1: seq<byte>, w2: seq<byte>): Queries.Proof<F> {
    var p := ProofFormat.ProofOf(c, w1, w2);
    PlonkProof(Points(dec, p.adviceCommits), Points(dec, p.permutationProductCommits), dec(p.randomPolyCommit),
               Points(dec, p.vanishingHCommits), p.adviceEvals, p.fixedEvals, p.randomPolyEval, p.permutationCommonEvals,
               p.permutationProductEvals, Points(dec, p.lookupPermutedInputCommits), Points(dec, p.lookupPermutedTableCommits),
               Points(dec, p.lookupProductCommits), p.lookupEvals, Points(dec, p.shuffleProductCommits), p.shuffleEvals, dec(w1), dec(w2))
  }

  /** The query tables only name columns that exist; the parser of keys does not check this. */
  ghost predicate ColumnsExist<F>(vk: Key<F>) {
    && (forall i :: 0 <= i < |vk.adviceQueries| ==> vk.adviceQueries[i].0 < vk.numAdvice)
    && (forall i :: 0 <= i < |vk.fixedQueries| ==> vk.fixedQueries[i].0 < |vk.fixedCommitments|)
  }

  ghost predicate TablesSized<F>(vk: Key<F>) {
    |vk.adviceQueries| == vk.numAdviceQueries && |vk.fixedQueries| == vk.numFixedQueries
  }

  lemma ParsedTables<F(!new)>(f: Field<F>, b: seq<byte>)
    requires Encodable(f) && VkFormat.ParseVkBytes(f, b).Ok?
    ensures TablesSized(VkFormat.ParseVkBytes(f, b).value)
  {
    hide Encodable, VkFormat.ParseVkBytes, VkFormat.VkBytes, VkFormat.BodyOk, VkFormat.HeadOk, VkFormat.PhasesOk;
    VkFormat.ParsedBytesAreWritten(f, b);
  }

  /** A proof accepted under a parsed key has the sizes the key announces, exactly when the query tables
      only name existing columns. */
  lemma AcceptedProofsAreShaped<F(!new)>(w: Wire<F>, vkBytes: seq<byte>, vk: Key<F>, witnesses: nat, b: seq<byte>, c: Contents<F>,
                                         dec: seq<byte> -> F, w1: seq<byte>, w2: seq<byte>)
    requires Encodable(w.f) && VkFormat.ParseVkBytes(w.f, vkBytes) == Ok(vk) && ParseProof(w, vk, witnesses, b) == Ok(c)
    ensures Queries.PermIndexable(KeyOf(dec, vk), ProofOf(dec, c, w1, w2))
    ensures WitnessCount.Shaped(KeyOf(dec, vk), ProofOf(dec, c, w1, w2)) <==> ColumnsExist(vk)
  {
    hide Encodable, VkFormat.ParseVkBytes, ParseCommits, ParseEvals, Many, ParseG1;
    ParsedTables(w.f, vkBytes);
    CommitsSizes(w, vk, b);
    EvalsSizes(w, vk, ParseCommits(w, vk, b).value.1);
    ShapedBySizes(vk, c, dec, w1, w2);
  }

  lemma ShapedBySizes<F(!new)>(vk: Key<F>, c: Contents<F>, dec: seq<byte> -> F, w1: seq<byte>, w2: seq<byte>)
    requires TablesSized(vk)
    requires |c.commits.advice| == vk.numAdvice && |c.commits.permProducts| == vk.numPermChunks && |c.commits.shuffleProducts| == vk.NumShuffles()
    requires |c.commits.lookupInputs| == |c.commits.lookupTables| == |c.commits.lookupProducts| == vk.NumLookups()
    requires |c.evals.advice| == vk.numAdviceQueries && |c.evals.fixed| == vk.numFixedQueries && |c.evals.common| == vk.NumPermColumns()
    requires |c.evals.products| == vk.numPermChunks && |c.evals.lookups| == vk.NumLookups() && |c.evals.shuffles| == vk.NumShuffles()
    ensures Queries.PermIndexable(KeyOf(dec, vk), ProofOf(dec, c, w1, w2))
    ensures WitnessCount.Shaped(KeyOf(dec, vk), ProofOf(dec, c, w1, w2)) <==> ColumnsExist(vk)
  {
  }

  /** From bytes to the count check: the witnesses read from an accepted GWC proof are as many as the
      points of the queries built from it, exactly under the condition of `WitnessCountAgrees`, which
      only depends on the key and on whether x is zero. */
  lemma AcceptedWitnessCount<F(!new)>(w: Wire<F>, vkBytes: seq<byte>, vk: Key<F>, b: seq<byte>, c: Contents<F>,
                                      dec: seq<byte> -> F, w1: seq<byte>, w2: seq<byte>, x: F, h: F, hEval: F)
    requires w.scheme == Gwc && Encodable(w.f) && VkFormat.ParseVkBytes(w.f, vkBytes) == Ok(vk)
    requires ParseProof(w, vk, ProofParsers.Witnesses(vk), b) == Ok(c)
    requires ColumnsExist(vk) && HasOrder(w.f, vk.omega, Pow2(vk.k))
    ensures WitnessCount.Shaped(KeyOf(dec, vk), ProofOf(dec, c, w1, w2))
    ensures var k, p, omegaLast := KeyOf(dec, vk), ProofOf(dec, c, w1, w2), Pow(w.f, vk.omega, WitnessCount.LastPower(vk));
      |c.opening| == |Gwc.Points(Queries.QueriesOf(w.f, Queries.SettingOf(k, p, x, h, vk.omega, omegaLast), Queries.Openings(k, p, hEval)))|
      <==> if x == w.f.Zero() then |c.opening| == 1 else WitnessCount.LastRowCounted(vk)
  {
    hide Encodable, Field.Valid, VkFormat.ParseVkBytes, HasOrder, Pow, Pow2, Queries.Openings, Queries.QueriesOf, Gwc.Points,
         WitnessCount.Distinguished, WitnessCount.LastRowCounted, WitnessCount.Shaped, ParseCommits, ParseEvals, Many, ParseG1;
    var k, p := KeyOf(dec, vk), ProofOf(dec, c, w1, w2);
    AcceptedProofsAreShaped(w, vkBytes, vk, ProofParsers.Witnesses(vk), b, c, dec, w1, w2);
    SameRotations(vk, dec);
    FieldOfCodec(w.f);
    WitnessCount.WitnessCountAgrees(w.f, k, p, x, h, hEval, vk.omega, Pow(w.f, vk.omega, WitnessCount.LastPower(vk)));
  }

  lemma FieldOfCodec<F(!new)>(f: Field<F>)
    requires Encodable(f)
    ensures f.Valid()
  {
  }

  /** Decoding points changes nothing the counts depend on. */
  lemma SameRotations<F(!new)>(vk: Key<F>, dec: seq<byte> -> F)
    ensures var k := KeyOf(dec, vk);
      && k.k == vk.k && WitnessCount.LastPower(k) == WitnessCount.LastPower(vk)
      && WitnessCount.VkRotations(k) == WitnessCount.VkRotations(vk)
      && (WitnessCount.LastRowCounted(k) <==> WitnessCount.LastRowCounted(vk))
  {
    hide WitnessCount.Distinguished, Pow2, WitnessCount.ToI32;
    assert WitnessCount.RotationsWith(KeyOf(dec, vk), 0) == WitnessCount.RotationsWith(vk, 0);
  }
}
