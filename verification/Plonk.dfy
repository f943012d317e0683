/**
 The flat verifying key and the parsed proof. `F` is the type of scalars and `G` the type of
 curve points: the wire formats use them as decoded from bytes, the algebra with points
 represented by discrete logarithms.
 */
module Plonk {
  import opened Bytes

  type u32 = x: nat | x < 0x1_0000_0000
  type i32 = x: int | -0x8000_0000 <= x < 0x8000_0000

  datatype LookupArgument = LookupArgument(inputExpressions: seq<seq<byte>>, tableExpressions: seq<seq<byte>>)

  datatype ShuffleArgument = ShuffleArgument(inputExpressions: seq<seq<byte>>, shuffleExpressions: seq<seq<byte>>)

  datatype PlonkProtocol<F, G> = PlonkProtocol(
    k: u32,
    omega: F,
    numInstance: u32,
    numAdvice: u32,
    numFixed: u32,
    csDegree: u32,
    numAdviceQueries: u32,
    numFixedQueries: u32,
    numInstanceQueries: u32,
    numChallenges: u32,
    blindingFactors: u32,
    numPermChunks: u32,
    fixedCommitments: seq<G>,
    permutationCommitments: seq<G>,
    adviceQueries: seq<(u32, i32)>,
    fixedQueries: seq<(u32, i32)>,
    instanceQueries: seq<(u32, i32)>,
    gates: seq<seq<seq<byte>>>,
    permutedColumns: seq<(byte, u32)>,
    lookups: seq<LookupArgument>,
    shuffles: seq<ShuffleArgument>,
    numPhases: byte,
    adviceColumnPhase: seq<byte>,
    challengePhase: seq<byte>,
    transcriptRepr: seq<byte>)
  {
    function NumPermColumns(): nat { |permutationCommitments| }
    function NumLookups(): nat { |lookups| }
    function NumShuffles(): nat { |shuffles| }
  }

  datatype LookupEvals<F> = LookupEvals(
    productEval: F,
    productNextEval: F,
    permutedInputEval: F,
    permutedInputInvEval: F,
    permutedTableEval: F)

  datatype PlonkProof<F, G> = PlonkProof(
    adviceCommits: seq<G>,
    permutationProductCommits: seq<G>,
    randomPolyCommit: G,
    vanishingHCommits: seq<G>,
    adviceEvals: seq<F>,
    fixedEvals: seq<F>,
    randomPolyEval: F,
    permutationCommonEvals: seq<F>,
    permutationProductEvals: seq<(F, F, F)>,
    lookupPermutedInputCommits: seq<G>,
    lookupPermutedTableCommits: seq<G>,
    lookupProductCommits: seq<G>,
    lookupEvals: seq<LookupEvals<F>>,
    shuffleProductCommits: seq<G>,
    shuffleEvals: seq<(F, F)>,
    openingProofW: G,
    openingProofWPrime: G)

  datatype Challenges<F> = Challenges(
    theta: F,
    beta: F,
    gamma: F,
    y: F,
    x: F,
    shplonkY: F,
    shplonkV: F,
    shplonkU: F,
    userChallenges: seq<F>)
}
