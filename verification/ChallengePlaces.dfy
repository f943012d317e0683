/**
 Where in a proof each challenge is drawn: how many points and scalars have been read before it. A challenge
 must come after everything it is meant to be independent of, and the prover draws it at the same place.
 */
module ChallengePlaces {
  import opened Wrappers
  import opened Bytes
  import opened Fields
  import opened Plonk
  import opened Transcript
  import opened ProofFormat
  import opened ProofScript
  import opened ProofReader
  import opened ProofParsers

  /** How many values are read before the n-th squeeze. */
  ghost function ReadsBefore(ops: seq<Op>, n: nat): nat {
    if ops == [] then 0
    else if ops[0] != Squeeze then 1 + ReadsBefore(ops[1..], n)
    else if n == 0 then 0
    else ReadsBefore(ops[1..], n - 1)
  }

  ghost predicate OnlyReads(ops: seq<Op>) {
    forall i :: 0 <= i < |ops| ==> ops[i] != Squeeze
  }

  lemma {:induction false} PastReads(a: seq<Op>, rest: seq<Op>, n: nat)
    requires OnlyReads(a)
    ensures ReadsBefore(a + rest, n) == |a| + ReadsBefore(rest, n)
  {
    if a == [] {
      assert a + rest == rest;
    } else {
      assert (a + rest)[1..] == a[1..] + rest;
      PastReads(a[1..], rest, n);
    }
  }

  lemma PastSqueeze(rest: seq<Op>, n: nat)
    ensures ReadsBefore([Squeeze] + rest, 0) == 0
    ensures ReadsBefore([Squeeze] + rest, n + 1) == ReadsBefore(rest, n)
  {
    assert ([Squeeze] + rest)[1..] == rest;
  }

  lemma {:induction false} PastSqueezes(k: nat, rest: seq<Op>, n: nat)
    ensures ReadsBefore(Times([Squeeze], k) + rest, n) == if n < k then 0 else ReadsBefore(rest, n - k)
  {
    hide ReadsBefore;
    if k == 0 {
      assert [] + rest == rest;
    } else {
      var tail := Times([Squeeze], k - 1) + rest;
      assert Times([Squeeze], k) + rest == [Squeeze] + tail;
      PastSqueeze(tail, if n == 0 then 0 else n - 1);
      if n > 0 {
        PastSqueezes(k - 1, rest, n - 1);
      }
    }
  }

  lemma {:induction false} TimesReads(unit: seq<Op>, k: nat)
    requires OnlyReads(unit)
    ensures OnlyReads(Times(unit, k)) && |Times(unit, k)| == k * |unit|
  {
    if k > 0 {
      TimesReads(unit, k - 1);
    }
  }

  lemma PastTimes(unit: seq<Op>, k: nat, rest: seq<Op>, n: nat)
    requires OnlyReads(unit)
    ensures ReadsBefore(Times(unit, k) + rest, n) == k * |unit| + ReadsBefore(rest, n)
  {
    hide ReadsBefore, Times;
    TimesReads(unit, k);
    PastReads(Times(unit, k), rest, n);
  }

  // ----- the phases -----

  lemma {:induction false} OrderedGrows(phases: seq<byte>, p: nat, n: nat)
    requires p <= n
    ensures Ordered(phases, p) <= Ordered(phases, n) && PhaseOrder(phases, p) == PhaseOrder(phases, n)[..Ordered(phases, p)]
  {
    hide ColumnsOf;
    if p < n {
      OrderedGrows(phases, p, n - 1);
    }
  }

  /** One phase: its advice points, then its challenges. */
  lemma PastPhase(advice: seq<byte>, challenges: seq<byte>, p: nat, n: nat, rest: seq<Op>, m: nat)
    requires p < n
    ensures ReadsBefore(PhasesFrom(advice, challenges, p, n) + rest, m) == CountFrom(advice, p, 0) +
      if m < CountFrom(challenges, p, 0) then 0
      else ReadsBefore(PhasesFrom(advice, challenges, p + 1, n) + rest, m - CountFrom(challenges, p, 0))
  {
    hide ReadsBefore, Times, CountFrom;
    var here, squeezed := CountFrom(advice, p, 0), CountFrom(challenges, p, 0);
    var after := PhasesFrom(advice, challenges, p + 1, n) + rest;
    assert PhasesFrom(advice, challenges, p, n) + rest == Times([Point], here) + (Times([Squeeze], squeezed) + after);
    PastTimes([Point], here, Times([Squeeze], squeezed) + after, m);
    PastSqueezes(squeezed, after, m);
  }

  /** After all phases, every column of theirs has been read. */
  lemma {:induction false} PastPhases(advice: seq<byte>, challenges: seq<byte>, p: nat, n: nat, rest: seq<Op>, m: nat)
    requires p <= n
    ensures Ordered(challenges, p) <= Ordered(challenges, n) && Ordered(advice, p) <= Ordered(advice, n)
    ensures ReadsBefore(PhasesFrom(advice, challenges, p, n) + rest, Ordered(challenges, n) - Ordered(challenges, p) + m)
         == Ordered(advice, n) - Ordered(advice, p) + ReadsBefore(rest, m)
    decreases n - p
  {
    hide ReadsBefore, Ordered, CountFrom, Times;
    if p == n {
      assert PhasesFrom(advice, challenges, n, n) + rest == rest;
    } else {
      PastPhases(advice, challenges, p + 1, n, rest, m);
      OrderedStep(advice, p);
      OrderedStep(challenges, p);
      PastPhase(advice, challenges, p, n, rest, Ordered(challenges, n) - Ordered(challenges, p) + m);
    }
  }

  /** A challenge of a phase is drawn when the columns of this phase and the earlier ones have been read. */
  lemma {:induction false} WithinPhases(advice: seq<byte>, challenges: seq<byte>, p: nat, n: nat, rest: seq<Op>, i: nat)
    requires p <= n && Ordered(challenges, p) <= i < Ordered(challenges, n)
    ensures var c := PhaseOrder(challenges, n)[i];
      c < |challenges| && Ordered(advice, p) <= Ordered(advice, challenges[c] as nat + 1)
      && ReadsBefore(PhasesFrom(advice, challenges, p, n) + rest, i - Ordered(challenges, p)) == Ordered(advice, challenges[c] as nat + 1) - Ordered(advice, p)
    decreases n - p
  {
    hide ReadsBefore, PhaseOrder, CountFrom, PhasesFrom;
    OrderAt(challenges, n, i);
    OrderedStep(advice, p);
    OrderedStep(challenges, p);
    PastPhase(advice, challenges, p, n, rest, i - Ordered(challenges, p));
    if i < Ordered(challenges, p + 1) {
      InPhase(challenges, p, n, i);
    } else {
      WithinPhases(advice, challenges, p + 1, n, rest, i);
    }
  }

  lemma InPhase(phases: seq<byte>, p: nat, n: nat, i: nat)
    requires p < n && Ordered(phases, p) <= i < Ordered(phases, p + 1) && i < Ordered(phases, n)
    ensures PhaseOrder(phases, n)[i] < |phases| && phases[PhaseOrder(phases, n)[i]] == p
  {
    hide ColumnsOf, PhaseOrder;
    OrderedGrows(phases, p + 1, n);
    OneMorePhase(phases, p);
    ColumnAt(phases, p, i - Ordered(phases, p));
    assert PhaseOrder(phases, n)[i] == PhaseOrder(phases, n)[..Ordered(phases, p + 1)][i];
  }

  lemma OneMorePhase(phases: seq<byte>, p: nat)
    ensures PhaseOrder(phases, p + 1) == PhaseOrder(phases, p) + ColumnsOf(phases, p, |phases|)
  {
    hide ColumnsOf;
  }

  // ----- the whole script -----

  /** The user challenges come first; the i-th one drawn is that of index `ChallengeOrder(vk)[i]`. */
  lemma UserChallengePlaces<F>(scheme: Scheme, vk: Key<F>, witnesses: nat, i: nat)
    requires Readable(vk) && i < |ChallengeOrder(vk)|
    ensures SinglePhase(vk) ==> ReadsBefore(Script(scheme, vk, witnesses), i) == vk.numAdvice
    ensures !SinglePhase(vk) ==> ChallengeOrder(vk)[i] < |vk.challengePhase|
    ensures !SinglePhase(vk) ==>
      var phase: nat := vk.challengePhase[ChallengeOrder(vk)[i]];
      ReadsBefore(Script(scheme, vk, witnesses), i) == |PhaseOrder(vk.adviceColumnPhase, phase + 1)|
  {
    hide ReadsBefore, PhaseOrder, PhasesFrom, Times, ProductOps, EvalOps, OpeningOps;
    var rest := [Squeeze] + (Times([Point, Point], vk.NumLookups()) + ([Squeeze, Squeeze] + ProductOps(vk))) + (EvalOps(vk) + OpeningOps(scheme, witnesses));
    assert Script(scheme, vk, witnesses) == PhaseOps(vk) + rest;
    if SinglePhase(vk) {
      assert PhaseOps(vk) + rest == Times([Point], vk.numAdvice) + (Times([Squeeze], vk.numChallenges) + rest);
      PastTimes([Point], vk.numAdvice, Times([Squeeze], vk.numChallenges) + rest, i);
      PastSqueezes(vk.numChallenges, rest, i);
    } else {
      OrderSizes(vk);
      WithinPhases(vk.adviceColumnPhase, vk.challengePhase, 0, vk.numPhases, rest, i);
    }
  }

  lemma OrderSizes<F>(vk: Key<F>)
    requires !SinglePhase(vk)
    ensures |ChallengeOrder(vk)| == Ordered(vk.challengePhase, vk.numPhases) && Ordered(vk.challengePhase, 0) == 0
    ensures Ordered(vk.adviceColumnPhase, 0) == 0
    ensures Tabled(vk) ==> |WireOrder(vk)| == Ordered(vk.adviceColumnPhase, vk.numPhases)
  {
    hide PhaseOrder;
    OrderedStep(vk.challengePhase, 0);
    OrderedStep(vk.adviceColumnPhase, 0);
    EmptyOrder(vk.numPhases);
    assert PhaseOrder([], vk.numPhases) == [] by { assert Ordered([], vk.numPhases) == 0; }
  }

  /** Everything after the user challenges. */
  lemma PastUserChallenges<F>(scheme: Scheme, vk: Key<F>, witnesses: nat, rest: seq<Op>, m: nat)
    requires Readable(vk)
    ensures ReadsBefore(PhaseOps(vk) + rest, |ChallengeOrder(vk)| + m) == |WireOrder(vk)| + ReadsBefore(rest, m)
  {
    hide ReadsBefore, PhaseOrder, PhasesFrom, Times, Ordered;
    if SinglePhase(vk) {
      assert PhaseOps(vk) + rest == Times([Point], vk.numAdvice) + (Times([Squeeze], vk.numChallenges) + rest);
      PastTimes([Point], vk.numAdvice, Times([Squeeze], vk.numChallenges) + rest, vk.numChallenges + m);
      PastSqueezes(vk.numChallenges, rest, vk.numChallenges + m);
    } else {
      OrderSizes(vk);
      PastPhases(vk.adviceColumnPhase, vk.challengePhase, 0, vk.numPhases, rest, m);
    }
  }

  /** Grand products, random polynomial and quotient pieces, with y and x between them. */
  lemma PastProducts<F>(vk: Key<F>, rest: seq<Op>, m: nat)
    ensures var products := vk.numPermChunks + vk.NumLookups() + vk.NumShuffles() + 1;
      && ReadsBefore(ProductOps(vk) + rest, 0) == products
      && ReadsBefore(ProductOps(vk) + rest, 1) == products + Pieces(vk.csDegree)
      && ReadsBefore(ProductOps(vk) + rest, m + 2) == products + Pieces(vk.csDegree) + ReadsBefore(rest, m)
  {
    hide ReadsBefore, Times, Pieces;
    var t1 := [Squeeze] + rest;
    var t2 := Times([Point], Pieces(vk.csDegree)) + t1;
    var t3 := [Squeeze] + t2;
    var t4 := [Point] + t3;
    var t5 := Times([Point], vk.NumShuffles()) + t4;
    var t6 := Times([Point], vk.NumLookups()) + t5;
    SplitProducts(vk, rest);
    forall n: nat ensures ReadsBefore(ProductOps(vk) + rest, n) == vk.numPermChunks + vk.NumLookups() + vk.NumShuffles() + 1 + ReadsBefore(t3, n) {
      PastTimes([Point], vk.numPermChunks, t6, n);
      PastTimes([Point], vk.NumLookups(), t5, n);
      PastTimes([Point], vk.NumShuffles(), t4, n);
      PastReads([Point], t3, n);
    }
    forall n: nat ensures ReadsBefore(t2, n) == Pieces(vk.csDegree) + ReadsBefore(t1, n) {
      PastTimes([Point], Pieces(vk.csDegree), t1, n);
    }
    PastSqueeze(t2, 0);
    PastSqueeze(t2, m + 1);
    PastSqueeze(rest, m);
  }

  lemma SplitProducts<F>(vk: Key<F>, rest: seq<Op>)
    ensures ProductOps(vk) + rest ==
      Times([Point], vk.numPermChunks) + (Times([Point], vk.NumLookups()) + (Times([Point], vk.NumShuffles())
      + ([Point] + ([Squeeze] + (Times([Point], Pieces(vk.csDegree)) + ([Squeeze] + rest))))))
  {
    hide Times, Pieces;
    var a, b, c, d := Times([Point], vk.numPermChunks), Times([Point], vk.NumLookups()), Times([Point], vk.NumShuffles()), Times([Point], Pieces(vk.csDegree));
    assert [Squeeze] + (d + [Squeeze]) + rest == [Squeeze] + (d + ([Squeeze] + rest));
    assert [Point] + ([Squeeze] + (d + [Squeeze])) + rest == [Point] + ([Squeeze] + (d + ([Squeeze] + rest)));
    assert c + ([Point] + ([Squeeze] + (d + [Squeeze]))) + rest == c + ([Point] + ([Squeeze] + (d + [Squeeze])) + rest);
    assert b + (c + ([Point] + ([Squeeze] + (d + [Squeeze])))) + rest == b + (c + ([Point] + ([Squeeze] + (d + [Squeeze]))) + rest);
    assert a + (b + (c + ([Point] + ([Squeeze] + (d + [Squeeze]))))) + rest == a + (b + (c + ([Point] + ([Squeeze] + (d + [Squeeze])))) + rest);
  }

  /** The values between x and the opening. */
  function EvalCount<F>(vk: Key<F>): nat {
    vk.numAdviceQueries + vk.numFixedQueries + 1 + vk.NumPermColumns()
    + (if vk.numPermChunks == 0 then 0 else 3 * vk.numPermChunks - 1) + 5 * vk.NumLookups() + 2 * vk.NumShuffles()
  }

  lemma {:induction false} ChunkReads(left: nat)
    ensures OnlyReads(ChunkOps(left)) && |ChunkOps(left)| == if left == 0 then 0 else 3 * left - 1
  {
    if left > 1 {
      ChunkReads(left - 1);
    }
  }

  lemma EvalReads<F>(vk: Key<F>)
    ensures OnlyReads(EvalOps(vk)) && |EvalOps(vk)| == EvalCount(vk)
  {
    hide Times, ChunkOps;
    TimesReads([Scalar], vk.numAdviceQueries);
    TimesReads([Scalar], vk.numFixedQueries);
    TimesReads([Scalar], vk.NumPermColumns());
    ChunkReads(vk.numPermChunks);
    TimesReads([Scalar], 5);
    TimesReads(Times([Scalar], 5), vk.NumLookups());
    TimesReads([Scalar, Scalar], vk.NumShuffles());
  }

  lemma OpeningPlaces(scheme: Scheme, witnesses: nat)
    ensures var ops := OpeningOps(scheme, witnesses);
      if scheme == Gwc then ReadsBefore(ops, 0) == 0 && ReadsBefore(ops, 1) == witnesses
      else ReadsBefore(ops, 0) == 0 && ReadsBefore(ops, 1) == 0 && ReadsBefore(ops, 2) == 1
  {
    hide ReadsBefore, Times;
    if scheme == Gwc {
      PastSqueeze(Times([Point], witnesses) + [Squeeze], 0);
      PastTimes([Point], witnesses, [Squeeze], 0);
      assert [Squeeze] + [] == [Squeeze];
      PastSqueeze([], 0);
    } else {
      var t1, t2, t3 := [Squeeze] + [Point], [Point] + ([Squeeze] + [Point]), [Squeeze] + ([Point] + ([Squeeze] + [Point]));
      assert OpeningOps(scheme, witnesses) == [Squeeze] + t3;
      PastSqueeze(t3, 0);
      PastSqueeze(t3, 1);
      PastSqueeze(t2, 0);
      PastReads([Point], t1, 0);
      PastSqueeze([Point], 0);
    }
  }

  /** How many values the reader has read when it draws each challenge after the user's: theta, beta, gamma, y, x
      and those of the opening. */
  lemma FixedChallengePlaces<F>(scheme: Scheme, vk: Key<F>, witnesses: nat)
    requires Readable(vk)
    ensures var s, n := Script(scheme, vk, witnesses), |ChallengeOrder(vk)|;
      var atTheta := |WireOrder(vk)|;
      var atBeta := atTheta + 2 * vk.NumLookups();
      var atY := atBeta + vk.numPermChunks + vk.NumLookups() + vk.NumShuffles() + 1;
      var atX := atY + Pieces(vk.csDegree);
      var atOpening := atX + EvalCount(vk);
      && ReadsBefore(s, n) == atTheta && ReadsBefore(s, n + 1) == atBeta && ReadsBefore(s, n + 2) == atBeta
      && ReadsBefore(s, n + 3) == atY && ReadsBefore(s, n + 4) == atX && ReadsBefore(s, n + 5) == atOpening
      && ReadsBefore(s, n + 6) == atOpening + (if scheme == Gwc then witnesses else 0)
      && (scheme == Shplonk ==> ReadsBefore(s, n + 7) == atOpening + 1)
  {
    hide ReadsBefore, PhaseOps, Times, WireOrder, ChallengeOrder, ProductOps, EvalOps, OpeningOps, Readable, EvalCount, Pieces;
    var last := EvalOps(vk) + OpeningOps(scheme, witnesses);
    var t4 := ProductOps(vk) + last;
    var t3 := [Squeeze] + t4;
    var t2 := [Squeeze] + t3;
    var t1 := Times([Point, Point], vk.NumLookups()) + t2;
    var n := |ChallengeOrder(vk)|;
    SplitScript(scheme, vk, witnesses);
    forall m: nat ensures ReadsBefore(Script(scheme, vk, witnesses), n + m) == |WireOrder(vk)| + ReadsBefore([Squeeze] + t1, m) {
      PastUserChallenges(scheme, vk, witnesses, [Squeeze] + t1, m);
    }
    forall m: nat ensures ReadsBefore([Squeeze] + t1, m + 1) == 2 * vk.NumLookups() + ReadsBefore(t2, m) {
      PastSqueeze(t1, m);
      PastTimes([Point, Point], vk.NumLookups(), t2, m);
    }
    forall m: nat ensures ReadsBefore(t2, m + 2) == ReadsBefore(t4, m) && ReadsBefore(t2, 0) == 0 && ReadsBefore(t2, 1) == 0 {
      PastSqueeze(t3, 0);
      PastSqueeze(t3, m + 1);
      PastSqueeze(t4, m);
    }
    PastSqueeze(t1, 0);
    EvalReads(vk);
    forall m: nat ensures ReadsBefore(last, m) == EvalCount(vk) + ReadsBefore(OpeningOps(scheme, witnesses), m) {
      PastReads(EvalOps(vk), OpeningOps(scheme, witnesses), m);
    }
    PastProducts(vk, last, 0);
    PastProducts(vk, last, 1);
    PastProducts(vk, last, 2);
    OpeningPlaces(scheme, witnesses);
    assert ReadsBefore(Script(scheme, vk, witnesses), n + 0) == |WireOrder(vk)| + ReadsBefore([Squeeze] + t1, 0);
    assert ReadsBefore([Squeeze] + t1, 0 + 1) == 2 * vk.NumLookups() + ReadsBefore(t2, 0);
    assert ReadsBefore([Squeeze] + t1, 1 + 1) == 2 * vk.NumLookups() + ReadsBefore(t2, 1);
    assert ReadsBefore([Squeeze] + t1, 2 + 1) == 2 * vk.NumLookups() + ReadsBefore(t2, 0 + 2);
    assert ReadsBefore([Squeeze] + t1, 3 + 1) == 2 * vk.NumLookups() + ReadsBefore(t2, 1 + 2);
    assert ReadsBefore([Squeeze] + t1, 4 + 1) == 2 * vk.NumLookups() + ReadsBefore(t2, 2 + 2);
    assert ReadsBefore([Squeeze] + t1, 5 + 1) == 2 * vk.NumLookups() + ReadsBefore(t2, 3 + 2);
    assert ReadsBefore([Squeeze] + t1, 6 + 1) == 2 * vk.NumLookups() + ReadsBefore(t2, 4 + 2);
  }

  lemma SplitScript<F>(scheme: Scheme, vk: Key<F>, witnesses: nat)
    ensures Script(scheme, vk, witnesses) ==
      PhaseOps(vk) + ([Squeeze] + (Times([Point, Point], vk.NumLookups()) + ([Squeeze] + ([Squeeze] + (ProductOps(vk) + (EvalOps(vk) + OpeningOps(scheme, witnesses)))))))
  {
    hide PhaseOps, Times, ProductOps, EvalOps, OpeningOps;
    var a, b, c, last := PhaseOps(vk), Times([Point, Point], vk.NumLookups()), ProductOps(vk), EvalOps(vk) + OpeningOps(scheme, witnesses);
    assert [Squeeze, Squeeze] + c + last == [Squeeze] + ([Squeeze] + (c + last));
    assert [Squeeze] + (b + ([Squeeze, Squeeze] + c)) + last == [Squeeze] + (b + ([Squeeze, Squeeze] + c + last));
    assert a + ([Squeeze] + (b + ([Squeeze, Squeeze] + c))) + last == a + ([Squeeze] + (b + ([Squeeze, Squeeze] + c)) + last);
  }

  /** Which drawn challenge is which: the i-th one is the user challenge of index `ChallengeOrder(vk)[i]`, then come theta, beta,
      gamma, y, x and the opening's. */
  lemma DrawnChallenges<F(!new)>(f: Field<F>, scheme: Scheme, vk: Key<F>, c: Challenges<F>, gwc: Option<GwcOpeningProof<F>>, drawn: seq<F>)
    requires ChallengesDrawn(f, scheme, vk, c, gwc, drawn)
    ensures var n := |ChallengeOrder(vk)|;
      && |drawn| == n + (if scheme == Gwc then 7 else 8) && |c.userChallenges| == vk.numChallenges
      && (forall i :: 0 <= i < n ==> ChallengeOrder(vk)[i] < vk.numChallenges && c.userChallenges[ChallengeOrder(vk)[i]] == drawn[i])
      && drawn[n] == c.theta && drawn[n + 1] == c.beta && drawn[n + 2] == c.gamma && drawn[n + 3] == c.y && drawn[n + 4] == c.x
      && (if scheme == Gwc then gwc.Some? && drawn[n + 5] == gwc.value.v && drawn[n + 6] == gwc.value.u
          else drawn[n + 5] == c.shplonkY && drawn[n + 6] == c.shplonkV && drawn[n + 7] == c.shplonkU)
  {
    hide ChallengeOrder, Placed;
    var n := |ChallengeOrder(vk)|;
    var common, opening := drawn[..n + 5], drawn[n + 5..];
    var five := common[n..];
    assert five == [c.theta, c.beta, c.gamma, c.y, c.x];
    assert five[0] == drawn[n] && five[1] == drawn[n + 1] && five[2] == drawn[n + 2] && five[3] == drawn[n + 3] && five[4] == drawn[n + 4];
    forall i | 0 <= i < n ensures ChallengeOrder(vk)[i] < vk.numChallenges && c.userChallenges[ChallengeOrder(vk)[i]] == drawn[i] {
      forall a, b | 0 <= a < b < n ensures ChallengeOrder(vk)[a] != ChallengeOrder(vk)[b] {
        ChallengeOrderDistinct(vk, a, b);
      }
      PlacedAt(ZeroScalars(f, vk.numChallenges), ChallengeOrder(vk), common[..n], i);
    }
    if scheme == Gwc {
      assert opening == [gwc.value.v, gwc.value.u] && opening[0] == drawn[n + 5] && opening[1] == drawn[n + 6];
    } else {
      assert opening == [c.shplonkY, c.shplonkV, c.shplonkU] && opening[0] == drawn[n + 5] && opening[1] == drawn[n + 6] && opening[2] == drawn[n + 7];
    }
  }

  lemma ChallengeOrderDistinct<F>(vk: Key<F>, a: nat, b: nat)
    requires a < b < |ChallengeOrder(vk)|
    ensures ChallengeOrder(vk)[a] != ChallengeOrder(vk)[b]
  {
    hide PhaseOrder;
    if !SinglePhase(vk) {
      PhaseOrderSorted(vk.challengePhase, vk.numPhases, a, b);
    }
  }
}
