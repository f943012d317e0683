/**
 The order of reads and squeezes as a script, the length of a proof, and the proof that the reader
 accepts exactly the byte strings of that length whose scalar slots are canonical.
 */
module ProofScript {
  import opened Wrappers
  import opened Bytes
  import opened Fields
  import opened Polynomials
  import opened Plonk
  import opened Expression
  import opened Formats
  import opened Grouping
  import opened Transcript
  import opened ProofFormat

  datatype Op = Point | Scalar | Squeeze

  ghost function Times(unit: seq<Op>, n: nat): seq<Op> {
    if n == 0 then [] else unit + Times(unit, n - 1)
  }

  // ----- the script -----

  /** How many entries from index c on have phase p. */
  ghost function CountFrom(phases: seq<byte>, p: nat, c: nat): nat
    requires c <= |phases|
    decreases |phases| - c
  {
    if c == |phases| then 0 else (if phases[c] == p then 1 else 0) + CountFrom(phases, p, c + 1)
  }

  /** From phase p on: the phase's advice points, then its challenges. */
  ghost function PhasesFrom(advice: seq<byte>, challenges: seq<byte>, p: nat, n: nat): seq<Op>
    requires p <= n
    decreases n - p
  {
    if p == n then []
    else Times([Point], CountFrom(advice, p, 0)) + (Times([Squeeze], CountFrom(challenges, p, 0)) + PhasesFrom(advice, challenges, p + 1, n))
  }

  ghost predicate SinglePhase<F>(vk: Key<F>) {
    vk.numPhases <= 1 && vk.adviceColumnPhase == [] && vk.challengePhase == []
  }

  ghost function PhaseOps<F>(vk: Key<F>): seq<Op> {
    if SinglePhase(vk) then Times([Point], vk.numAdvice) + Times([Squeeze], vk.numChallenges)
    else PhasesFrom(vk.adviceColumnPhase, vk.challengePhase, 0, vk.numPhases)
  }

  ghost function ProductOps<F>(vk: Key<F>): seq<Op> {
    Times([Point], vk.numPermChunks) + (Times([Point], vk.NumLookups()) + (Times([Point], vk.NumShuffles())
    + ([Point] + ([Squeeze] + (Times([Point], Pieces(vk.csDegree)) + [Squeeze])))))
  }

  ghost function CommitOps<F>(vk: Key<F>): seq<Op> {
    PhaseOps(vk) + ([Squeeze] + (Times([Point, Point], vk.NumLookups()) + ([Squeeze, Squeeze] + ProductOps(vk))))
  }

  ghost function ChunkOps(left: nat): seq<Op> {
    if left == 0 then [] else if left == 1 then [Scalar, Scalar] else [Scalar, Scalar, Scalar] + ChunkOps(left - 1)
  }

  ghost function EvalOps<F>(vk: Key<F>): seq<Op> {
    Times([Scalar], vk.numAdviceQueries) + (Times([Scalar], vk.numFixedQueries) + ([Scalar] + (Times([Scalar], vk.NumPermColumns())
    + (ChunkOps(vk.numPermChunks) + (Times(Times([Scalar], 5), vk.NumLookups()) + Times([Scalar, Scalar], vk.NumShuffles()))))))
  }

  ghost function OpeningOps(scheme: Scheme, witnesses: nat): seq<Op> {
    if scheme == Gwc then [Squeeze] + (Times([Point], witnesses) + [Squeeze])
    else [Squeeze, Squeeze, Point, Squeeze, Point]
  }

  /** Everything after the public inputs. */
  ghost function Script<F>(scheme: Scheme, vk: Key<F>, witnesses: nat): seq<Op> {
    CommitOps(vk) + (EvalOps(vk) + OpeningOps(scheme, witnesses))
  }

  // ----- running a script over the bytes -----

  ghost function Run<F(!new)>(w: Wire<F>, ops: seq<Op>, b: seq<byte>): Result<seq<byte>, Error> {
    if ops == [] then Ok(b)
    else
      match ops[0]
      case Squeeze => Run(w, ops[1..], b)
      case Point =>
        var p := ParseG1(w)(b);
        if p.Err? then Err(p.error) else Run(w, ops[1..], p.value.1)
      case Scalar =>
        var a := ParseFr(w)(b);
        if a.Err? then Err(a.error) else Run(w, ops[1..], a.value.1)
  }

  /** Reading a value and running a script fail alike, and leave the same rest. */
  ghost predicate Agree<V>(parsed: Result<(V, seq<byte>), Error>, run: Result<seq<byte>, Error>) {
    if parsed.Err? then run == Err(parsed.error) else run == Ok(parsed.value.1)
  }

  ghost function Then<F(!new)>(w: Wire<F>, r: Result<seq<byte>, Error>, ops: seq<Op>): Result<seq<byte>, Error> {
    if r.Err? then r else Run(w, ops, r.value)
  }

  lemma {:induction false} RunConcat<F(!new)>(w: Wire<F>, a: seq<Op>, c: seq<Op>, b: seq<byte>)
    ensures Run(w, a + c, b) == Then(w, Run(w, a, b), c)
  {
    hide ParseG1, ParseFr;
    if a == [] {
      assert a + c == c;
    } else {
      assert (a + c)[1..] == a[1..] + c;
      match a[0]
      case Squeeze => RunConcat(w, a[1..], c, b);
      case Point => if ParseG1(w)(b).Ok? { RunConcat(w, a[1..], c, ParseG1(w)(b).value.1); }
      case Scalar => if ParseFr(w)(b).Ok? { RunConcat(w, a[1..], c, ParseFr(w)(b).value.1); }
    }
  }

  lemma {:induction false} RunSqueezes<F(!new)>(w: Wire<F>, n: nat, b: seq<byte>)
    ensures Run(w, Times([Squeeze], n), b) == Ok(b)
  {
    if n > 0 {
      assert Times([Squeeze], n)[1..] == Times([Squeeze], n - 1);
      RunSqueezes(w, n - 1, b);
    }
  }

  lemma {:induction false} ManyAgrees<F(!new), V(!new)>(w: Wire<F>, p: Parse<V>, unit: seq<Op>, n: nat, b: seq<byte>)
    requires forall x :: Agree(p(x), Run(w, unit, x))
    ensures Agree(Many(p, n, b), Run(w, Times(unit, n), b))
  {
    hide Run;
    if n == 0 {
      RunNothing(w, b);
    } else {
      RunConcat(w, unit, Times(unit, n - 1), b);
      assert Agree(p(b), Run(w, unit, b));
      if p(b).Ok? {
        ManyAgrees(w, p, unit, n - 1, p(b).value.1);
      }
    }
  }

  lemma RunNothing<F(!new)>(w: Wire<F>, b: seq<byte>)
    ensures Run(w, [], b) == Ok(b)
  {
  }

  lemma PointAgrees<F(!new)>(w: Wire<F>)
    ensures forall b :: Agree(ParseG1(w)(b), Run(w, [Point], b))
    ensures forall b :: Agree(ParseTwo(ParseG1(w))(b), Run(w, [Point, Point], b))
  {
    hide ParseG1, ParseFr;
    assert [Point][1..] == [] && [Point, Point][1..] == [Point];
  }

  lemma ScalarAgrees<F(!new)>(w: Wire<F>)
    ensures forall b :: Agree(ParseFr(w)(b), Run(w, [Scalar], b))
    ensures forall b :: Agree(ParseTwo(ParseFr(w))(b), Run(w, [Scalar, Scalar], b))
  {
    hide ParseG1, ParseFr;
    assert [Scalar][1..] == [] && [Scalar, Scalar][1..] == [Scalar];
  }

  lemma LookupEvalsAgree<F(!new)>(w: Wire<F>)
    ensures forall b :: Agree(ParseLookupEvals(w)(b), Run(w, Times([Scalar], 5), b))
  {
    hide Run, Times, Many, ParseFr;
    ScalarAgrees(w);
    forall b ensures Agree(ParseLookupEvals(w)(b), Run(w, Times([Scalar], 5), b)) {
      ManyAgrees(w, ParseFr(w), [Scalar], 5, b);
    }
  }

  lemma ScalarsAgreeAt<F(!new)>(w: Wire<F>, b: seq<byte>)
    ensures Agree(ParseFr(w)(b), Run(w, [Scalar], b))
    ensures Agree(ParseTwo(ParseFr(w))(b), Run(w, [Scalar, Scalar], b))
  {
    hide ParseFr, ParseTwo, Run;
    ScalarAgrees(w);
  }

  lemma {:induction false} ChunksAgree<F(!new)>(w: Wire<F>, left: nat, b: seq<byte>)
    ensures Agree(ParseChunks(w, left, b), Run(w, ChunkOps(left), b))
  {
    hide ParseFr, ParseTwo, Run;
    ScalarsAgreeAt(w, b);
    if left == 0 {
      RunNothing(w, b);
    } else if left > 1 {
      var two := ParseTwo(ParseFr(w))(b);
      ChunkOpsSplit(left);
      RunConcat(w, [Scalar, Scalar], [Scalar] + ChunkOps(left - 1), b);
      if two.Ok? {
        RunConcat(w, [Scalar], ChunkOps(left - 1), two.value.1);
        ScalarsAgreeAt(w, two.value.1);
        var last := ParseFr(w)(two.value.1);
        if last.Ok? {
          ChunksAgree(w, left - 1, last.value.1);
        }
      }
    }
  }

  lemma ChunkOpsSplit(left: nat)
    requires left > 1
    ensures ChunkOps(left) == [Scalar, Scalar] + ([Scalar] + ChunkOps(left - 1))
  {
  }

  /** Dropping squeezes changes nothing. */
  ghost function Reads(ops: seq<Op>): seq<Op> {
    if ops == [] then [] else if ops[0] == Squeeze then Reads(ops[1..]) else [ops[0]] + Reads(ops[1..])
  }

  lemma {:induction false} RunReads<F(!new)>(w: Wire<F>, ops: seq<Op>, b: seq<byte>)
    ensures Run(w, ops, b) == Run(w, Reads(ops), b)
  {
    hide ParseG1, ParseFr;
    if ops != [] {
      match ops[0]
      case Squeeze => RunReads(w, ops[1..], b);
      case Point =>
        assert Reads(ops)[1..] == Reads(ops[1..]);
        if ParseG1(w)(b).Ok? { RunReads(w, ops[1..], ParseG1(w)(b).value.1); }
      case Scalar =>
        assert Reads(ops)[1..] == Reads(ops[1..]);
        if ParseFr(w)(b).Ok? { RunReads(w, ops[1..], ParseFr(w)(b).value.1); }
    }
  }

  lemma {:induction false} ReadsConcat(a: seq<Op>, b: seq<Op>)
    ensures Reads(a + b) == Reads(a) + Reads(b)
  {
    if a == [] {
      assert a + b == b;
    } else {
      assert (a + b)[1..] == a[1..] + b;
      ReadsConcat(a[1..], b);
    }
  }

  lemma {:induction false} ReadsOfTimes(n: nat)
    ensures Reads(Times([Point], n)) == Times([Point], n) && Reads(Times([Squeeze], n)) == []
  {
    if n > 0 {
      assert Times([Point], n)[1..] == Times([Point], n - 1) && Times([Squeeze], n)[1..] == Times([Squeeze], n - 1);
      ReadsOfTimes(n - 1);
    }
  }

  lemma {:induction false} TimesAdd(unit: seq<Op>, m: nat, n: nat)
    ensures Times(unit, m + n) == Times(unit, m) + Times(unit, n)
  {
    if m == 0 {
      assert [] + Times(unit, n) == Times(unit, n);
    } else {
      TimesAdd(unit, m - 1, n);
      Regroup(unit, Times(unit, m - 1), Times(unit, n));
    }
  }

  lemma Regroup(a: seq<Op>, b: seq<Op>, c: seq<Op>)
    ensures a + (b + c) == a + b + c
  {
  }

  /** Counting forward and collecting from below meet. */
  lemma {:induction false} CountMeets(phases: seq<byte>, p: nat, c: nat)
    requires c <= |phases|
    ensures |ColumnsOf(phases, p, c)| + CountFrom(phases, p, c) == |ColumnsOf(phases, p, |phases|)|
    decreases |phases| - c
  {
    if c < |phases| {
      CountMeets(phases, p, c + 1);
    }
  }

  /** How many columns the first n phases have. */
  ghost function Ordered(phases: seq<byte>, n: nat): nat {
    |PhaseOrder(phases, n)|
  }

  lemma OrderedStep(phases: seq<byte>, n: nat)
    ensures Ordered(phases, n + 1) == Ordered(phases, n) + CountFrom(phases, n, 0)
    ensures Ordered(phases, 0) == 0
  {
    hide ColumnsOf;
    CountMeets(phases, n, 0);
    NoColumns(phases, n);
  }

  lemma {:induction false} PhaseReads(advice: seq<byte>, challenges: seq<byte>, p: nat, n: nat)
    requires p <= n
    ensures Ordered(advice, p) <= Ordered(advice, n)
    ensures Reads(PhasesFrom(advice, challenges, p, n)) == Times([Point], Ordered(advice, n) - Ordered(advice, p))
    decreases n - p
  {
    hide Ordered, Reads, Times, CountFrom;
    if p == n {
      ReadsOfTimes(0);
      NoTimes([Point]);
    } else {
      PhaseReads(advice, challenges, p + 1, n);
      OrderedStep(advice, p);
      var here, squeezed := CountFrom(advice, p, 0), CountFrom(challenges, p, 0);
      var rest := PhasesFrom(advice, challenges, p + 1, n);
      ReadsConcat(Times([Point], here), Times([Squeeze], squeezed) + rest);
      ReadsConcat(Times([Squeeze], squeezed), rest);
      ReadsOfTimes(here);
      ReadsOfTimes(squeezed);
      assert [] + Reads(rest) == Reads(rest);
      TimesAdd([Point], here, Ordered(advice, n) - Ordered(advice, p + 1));
    }
  }

  lemma NoTimes(unit: seq<Op>)
    ensures Times(unit, 0) == []
  {
  }

  lemma NoColumns(phases: seq<byte>, p: nat)
    ensures ColumnsOf(phases, p, 0) == [] && PhaseOrder(phases, 0) == []
  {
  }

  /** The reads of the first part of the script are the advice points of the wire order. */
  lemma PhaseOpsReads<F>(vk: Key<F>)
    requires Tabled(vk) || SinglePhase(vk)
    ensures Reads(PhaseOps(vk)) == Times([Point], |WireOrder(vk)|)
  {
    hide Reads, Times, PhaseOrder;
    if SinglePhase(vk) {
      ReadsConcat(Times([Point], vk.numAdvice), Times([Squeeze], vk.numChallenges));
      ReadsOfTimes(vk.numAdvice);
      ReadsOfTimes(vk.numChallenges);
      assert Times([Point], vk.numAdvice) + [] == Times([Point], vk.numAdvice);
    } else {
      PhaseReads(vk.adviceColumnPhase, vk.challengePhase, 0, vk.numPhases);
      OrderedStep(vk.adviceColumnPhase, 0);
      EmptyOrder(vk.numPhases);
    }
  }

  lemma {:induction false} EmptyOrder(n: nat)
    ensures Ordered([], n) == 0
  {
    hide Ordered;
    if n == 0 {
      OrderedStep([], 0);
    } else {
      EmptyOrder(n - 1);
      OrderedStep([], n - 1);
    }
  }

  // ----- what is accepted -----

  ghost function Width(scheme: Scheme, op: Op): nat {
    match op
    case Squeeze => 0
    case Scalar => 32
    case Point => PointLen(scheme)
  }

  ghost function Size(scheme: Scheme, ops: seq<Op>): nat {
    if ops == [] then 0 else Width(scheme, ops[0]) + Size(scheme, ops[1..])
  }

  /** Every slot holds what its operation asks for: a canonical scalar, or a decodable point. */
  ghost predicate SlotsDecode<F(!new)>(w: Wire<F>, ops: seq<Op>, b: seq<byte>)
    requires |b| == Size(w.scheme, ops)
  {
    ops == [] ||
    (var n := Width(w.scheme, ops[0]);
     && (ops[0] == Scalar ==> ScalarFromBytes(w.f, b[..n]).Some?)
     && (ops[0] == Point ==> DecodePoint(w.scheme, w.decompress, b[..n]).Ok?)
     && SlotsDecode(w, ops[1..], b[n..]))
  }

  /** A script consumes a byte string exactly when its length is right and every slot decodes. */
  lemma {:induction false} RunAccepts<F(!new)>(w: Wire<F>, ops: seq<Op>, b: seq<byte>)
    ensures Run(w, ops, b) == Ok([]) <==> |b| == Size(w.scheme, ops) && SlotsDecode(w, ops, b)
  {
    hide ScalarFromBytes, DecodePoint, PointLen;
    if ops != [] {
      var n := Width(w.scheme, ops[0]);
      if |b| >= n {
        RunAccepts(w, ops[1..], b[n..]);
        assert ops[0] == Squeeze ==> b[n..] == b;
      }
    }
  }

  /** The three parts of a proof agree with the three parts of the script. */
  lemma CommitsAgree<F(!new)>(w: Wire<F>, vk: Key<F>, b: seq<byte>)
    requires AdviceTabled(vk) && (Tabled(vk) || SinglePhase(vk))
    ensures Agree(ParseCommits(w, vk, b), Run(w, CommitOps(vk), b))
  {
    hide Run, Times, Many, ParseG1, ParseTwo, PhaseOps, WireOrder, Reads, Placed, ProductOps, ParseProducts;
    PointAgrees(w);
    var g, lookups := ParseG1(w), vk.NumLookups();
    var t3 := [Squeeze, Squeeze] + ProductOps(vk);
    var t2 := Times([Point, Point], lookups) + t3;
    RunConcat(w, PhaseOps(vk), [Squeeze] + t2, b);
    RunReads(w, PhaseOps(vk), b);
    PhaseOpsReads(vk);
    ManyAgrees(w, g, [Point], |WireOrder(vk)|, b);
    var advice := Many(g, |WireOrder(vk)|, b);
    if advice.Ok? {
      SkipSqueeze(w, t2, advice.value.1);
      RunConcat(w, Times([Point, Point], lookups), t3, advice.value.1);
      ManyAgrees(w, ParseTwo(g), [Point, Point], lookups, advice.value.1);
      var permuted := Many(ParseTwo(g), lookups, advice.value.1);
      if permuted.Ok? {
        assert t3 == [Squeeze] + ([Squeeze] + ProductOps(vk));
        SkipSqueeze(w, [Squeeze] + ProductOps(vk), permuted.value.1);
        SkipSqueeze(w, ProductOps(vk), permuted.value.1);
        ProductsAgree(w, vk, permuted.value.1);
      }
    }
  }

  lemma SkipSqueeze<F(!new)>(w: Wire<F>, ops: seq<Op>, b: seq<byte>)
    ensures Run(w, [Squeeze] + ops, b) == Run(w, ops, b)
  {
    assert ([Squeeze] + ops)[1..] == ops;
  }

  lemma PointAgreesAt<F(!new)>(w: Wire<F>, b: seq<byte>)
    ensures Agree(ParseG1(w)(b), Run(w, [Point], b))
  {
    hide ParseG1, Run;
    PointAgrees(w);
  }

  lemma ProductsAgree<F(!new)>(w: Wire<F>, vk: Key<F>, b: seq<byte>)
    ensures Agree(ParseProducts(w, vk, b), Run(w, ProductOps(vk), b))
  {
    hide Run, Times, Many, ParseG1;
    PointAgrees(w);
    var g := ParseG1(w);
    var t9 := Times([Point], Pieces(vk.csDegree)) + [Squeeze];
    var t8 := [Squeeze] + t9;
    var t7 := [Point] + t8;
    var t6 := Times([Point], vk.NumShuffles()) + t7;
    var t5 := Times([Point], vk.NumLookups()) + t6;
    RunConcat(w, Times([Point], vk.numPermChunks), t5, b);
    ManyAgrees(w, g, [Point], vk.numPermChunks, b);
    var perm := Many(g, vk.numPermChunks, b);
    if perm.Ok? {
      RunConcat(w, Times([Point], vk.NumLookups()), t6, perm.value.1);
      ManyAgrees(w, g, [Point], vk.NumLookups(), perm.value.1);
      var lookups := Many(g, vk.NumLookups(), perm.value.1);
      if lookups.Ok? {
        RunConcat(w, Times([Point], vk.NumShuffles()), t7, lookups.value.1);
        ManyAgrees(w, g, [Point], vk.NumShuffles(), lookups.value.1);
        var shuffles := Many(g, vk.NumShuffles(), lookups.value.1);
        if shuffles.Ok? {
          RunConcat(w, [Point], t8, shuffles.value.1);
          PointAgreesAt(w, shuffles.value.1);
          if g(shuffles.value.1).Ok? {
            var b4 := g(shuffles.value.1).value.1;
            SkipSqueeze(w, t9, b4);
            RunConcat(w, Times([Point], Pieces(vk.csDegree)), [Squeeze], b4);
            ManyAgrees(w, g, [Point], Pieces(vk.csDegree), b4);
            if Many(g, Pieces(vk.csDegree), b4).Ok? {
              LastSqueeze(w, Many(g, Pieces(vk.csDegree), b4).value.1);
            }
          }
        }
      }
    }
  }

  lemma LastSqueeze<F(!new)>(w: Wire<F>, b: seq<byte>)
    ensures Run(w, [Squeeze], b) == Ok(b)
  {
    assert [Squeeze][1..] == [];
  }

  lemma EvalsAgree<F(!new)>(w: Wire<F>, vk: Key<F>, b: seq<byte>)
    ensures Agree(ParseEvals(w, vk, b), Run(w, EvalOps(vk), b))
  {
    hide Run, Times, Many, ParseFr, ParseTwo, ParseChunks, ChunkOps, ParseLookupEvals;
    ScalarAgrees(w);
    var s := ParseFr(w);
    var t6 := Times([Scalar, Scalar], vk.NumShuffles());
    var t5 := Times(Times([Scalar], 5), vk.NumLookups()) + t6;
    var t4 := ChunkOps(vk.numPermChunks) + t5;
    var t3 := Times([Scalar], vk.NumPermColumns()) + t4;
    var t2 := [Scalar] + t3;
    var t1 := Times([Scalar], vk.numFixedQueries) + t2;
    RunConcat(w, Times([Scalar], vk.numAdviceQueries), t1, b);
    ManyAgrees(w, s, [Scalar], vk.numAdviceQueries, b);
    var advice := Many(s, vk.numAdviceQueries, b);
    if advice.Ok? {
      RunConcat(w, Times([Scalar], vk.numFixedQueries), t2, advice.value.1);
      ManyAgrees(w, s, [Scalar], vk.numFixedQueries, advice.value.1);
      var fixed := Many(s, vk.numFixedQueries, advice.value.1);
      if fixed.Ok? {
        var b2 := fixed.value.1;
        RunConcat(w, [Scalar], t3, b2);
        assert Agree(s(b2), Run(w, [Scalar], b2));
        if s(b2).Ok? {
          var b3 := s(b2).value.1;
          RunConcat(w, Times([Scalar], vk.NumPermColumns()), t4, b3);
          ManyAgrees(w, s, [Scalar], vk.NumPermColumns(), b3);
          var common := Many(s, vk.NumPermColumns(), b3);
          if common.Ok? {
            var b4 := common.value.1;
            RunConcat(w, ChunkOps(vk.numPermChunks), t5, b4);
            ChunksAgree(w, vk.numPermChunks, b4);
            var products := ParseChunks(w, vk.numPermChunks, b4);
            if products.Ok? {
              RunConcat(w, Times(Times([Scalar], 5), vk.NumLookups()), t6, products.value.1);
              LookupEvalsAgree(w);
              ManyAgrees(w, ParseLookupEvals(w), Times([Scalar], 5), vk.NumLookups(), products.value.1);
              var lookups := Many(ParseLookupEvals(w), vk.NumLookups(), products.value.1);
              if lookups.Ok? {
                ManyAgrees(w, ParseTwo(s), [Scalar, Scalar], vk.NumShuffles(), lookups.value.1);
              }
            }
          }
        }
      }
    }
  }

  lemma OpeningAgrees<F(!new)>(w: Wire<F>, witnesses: nat, b: seq<byte>)
    ensures Agree(Many(ParseG1(w), OpeningPoints(w.scheme, witnesses), b), Run(w, OpeningOps(w.scheme, witnesses), b))
  {
    hide Run, ParseG1, Many;
    PointAgrees(w);
    var ops := OpeningOps(w.scheme, witnesses);
    RunReads(w, ops, b);
    ManyAgrees(w, ParseG1(w), [Point], OpeningPoints(w.scheme, witnesses), b);
    if w.scheme == Gwc {
      ReadsConcat([Squeeze], Times([Point], witnesses) + [Squeeze]);
      ReadsConcat(Times([Point], witnesses), [Squeeze]);
      ReadsOfTimes(witnesses);
      assert Reads([Squeeze]) == [];
      assert [] + (Times([Point], witnesses) + []) == Times([Point], witnesses);
    } else {
      assert Times([Point], 2) == [Point, Point];
      ShplonkOpeningReads();
    }
  }

  lemma ShplonkOpeningReads()
    ensures Reads([Squeeze, Squeeze, Point, Squeeze, Point]) == [Point, Point]
  {
    assert [Squeeze, Squeeze, Point, Squeeze, Point][1..] == [Squeeze, Point, Squeeze, Point];
    assert [Squeeze, Point, Squeeze, Point][1..] == [Point, Squeeze, Point];
    assert [Point, Squeeze, Point][1..] == [Squeeze, Point];
    assert [Squeeze, Point][1..] == [Point] && [Point][1..] == [];
  }

  /** A proof is accepted exactly when its length is the script's and every slot decodes. */
  lemma AcceptedProofs<F(!new)>(w: Wire<F>, vk: Key<F>, witnesses: nat, b: seq<byte>)
    requires Tabled(vk)
    ensures ParseProof(w, vk, witnesses, b).Ok? <==>
            |b| == Size(w.scheme, Script(w.scheme, vk, witnesses)) && SlotsDecode(w, Script(w.scheme, vk, witnesses), b)
  {
    hide Run, ParseCommits, CommitOps, ParseEvals, EvalOps, OpeningOps, Many, ParseG1, SlotsDecode, Size;
    RunAccepts(w, Script(w.scheme, vk, witnesses), b);
    RunConcat(w, CommitOps(vk), EvalOps(vk) + OpeningOps(w.scheme, witnesses), b);
    CommitsAgree(w, vk, b);
    if ParseCommits(w, vk, b).Ok? {
      var b1 := ParseCommits(w, vk, b).value.1;
      RunConcat(w, EvalOps(vk), OpeningOps(w.scheme, witnesses), b1);
      EvalsAgree(w, vk, b1);
      if ParseEvals(w, vk, b1).Ok? {
        OpeningAgrees(w, witnesses, ParseEvals(w, vk, b1).value.1);
      }
    }
  }

  // ----- the length formula -----

  lemma {:induction false} SizeConcat(scheme: Scheme, a: seq<Op>, b: seq<Op>)
    ensures Size(scheme, a + b) == Size(scheme, a) + Size(scheme, b)
  {
    if a == [] {
      assert a + b == b;
    } else {
      assert (a + b)[1..] == a[1..] + b;
      SizeConcat(scheme, a[1..], b);
    }
  }

  lemma {:induction false} SizeTimes(scheme: Scheme, unit: seq<Op>, n: nat)
    ensures Size(scheme, Times(unit, n)) == n * Size(scheme, unit)
  {
    hide Size;
    SizeUnits(scheme);
    if n > 0 {
      SizeTimes(scheme, unit, n - 1);
      SizeConcat(scheme, unit, Times(unit, n - 1));
      OneMoreUnit(n, Size(scheme, unit));
    }
  }

  lemma OneMoreUnit(n: nat, s: nat)
    requires n > 0
    ensures n * s == s + (n - 1) * s
  {
  }

  lemma {:induction false} SizeReads(scheme: Scheme, ops: seq<Op>)
    ensures Size(scheme, ops) == Size(scheme, Reads(ops))
  {
    if ops != [] {
      SizeReads(scheme, ops[1..]);
      if ops[0] != Squeeze {
        assert Reads(ops)[1..] == Reads(ops[1..]);
      }
    }
  }

  lemma SizeUnits(scheme: Scheme)
    ensures Size(scheme, []) == 0 && Size(scheme, [Squeeze]) == 0 && Size(scheme, [Squeeze, Squeeze]) == 0
    ensures Size(scheme, [Point]) == PointLen(scheme) && Size(scheme, [Point, Point]) == 2 * PointLen(scheme)
    ensures Size(scheme, [Scalar]) == 32 && Size(scheme, [Scalar, Scalar]) == 64 && Size(scheme, [Scalar, Scalar, Scalar]) == 96
  {
    assert [Squeeze][1..] == [] && [Squeeze, Squeeze][1..] == [Squeeze];
    assert [Point][1..] == [] && [Point, Point][1..] == [Point];
    assert [Scalar][1..] == [] && [Scalar, Scalar][1..] == [Scalar] && [Scalar, Scalar, Scalar][1..] == [Scalar, Scalar];
  }

  function ProductEvals(chunks: nat): nat {
    if chunks == 0 then 0 else 3 * (chunks - 1) + 2
  }

  lemma {:induction false} SizeChunks(scheme: Scheme, left: nat)
    ensures Size(scheme, ChunkOps(left)) == 32 * ProductEvals(left)
  {
    SizeUnits(scheme);
    if left > 1 {
      SizeChunks(scheme, left - 1);
      SizeConcat(scheme, [Scalar, Scalar, Scalar], ChunkOps(left - 1));
    }
  }

  /** The numbers of points and scalars before the opening. */
  function CommonCounts<F, G>(vk: PlonkProtocol<F, G>): (nat, nat) {
    (vk.numAdvice + 2 * vk.NumLookups() + vk.numPermChunks + vk.NumLookups() + vk.NumShuffles() + 1 + Pieces(vk.csDegree),
     vk.numAdviceQueries + vk.numFixedQueries + 1 + vk.NumPermColumns() + ProductEvals(vk.numPermChunks)
     + 5 * vk.NumLookups() + 2 * vk.NumShuffles())
  }

  function ExpectedProofSize<F, G>(vk: PlonkProtocol<F, G>): nat {
    (CommonCounts(vk).0 + 2) * 64 + CommonCounts(vk).1 * 32
  }

  function ExpectedGwcProofSize<F, G>(vk: PlonkProtocol<F, G>, witnesses: nat): nat {
    (CommonCounts(vk).0 + witnesses) * 32 + CommonCounts(vk).1 * 32
  }

  /** All phases are below the phase count, as in every parsed key. */
  ghost predicate PhasesInRange<F>(vk: Key<F>) {
    Tabled(vk) && forall c :: 0 <= c < |vk.adviceColumnPhase| ==> vk.adviceColumnPhase[c] < vk.numPhases
  }

  lemma WireOrderIsComplete<F>(vk: Key<F>)
    requires PhasesInRange(vk)
    ensures |WireOrder(vk)| == vk.numAdvice
  {
    hide PhaseOrder;
    var phases, n := vk.adviceColumnPhase, vk.numPhases;
    if !(n <= 1 && phases == []) {
      var order, all := PhaseOrder(phases, n), Ascending(vk.numAdvice);
      PhaseOrderSpec(phases, n);
      forall i, j | 0 <= i < j < |order| ensures order[i] != order[j] {
        PhaseOrderSorted(phases, n, i, j);
      }
      forall c | c in order ensures c in all {
        var i :| 0 <= i < |order| && order[i] == c;
        assert all[c] == c;
      }
      forall c | c in all ensures c in order {
        var i :| 0 <= i < |all| && all[i] == c;
      }
      SameCount<nat, nat>(order, all, (c: nat) => c);
    }
  }

  lemma SizeOfProducts<F>(scheme: Scheme, vk: Key<F>)
    ensures Size(scheme, ProductOps(vk)) ==
            vk.numPermChunks * PointLen(scheme) + vk.NumLookups() * PointLen(scheme) + vk.NumShuffles() * PointLen(scheme)
            + PointLen(scheme) + Pieces(vk.csDegree) * PointLen(scheme)
  {
    hide Size, Times, PointLen;
    SizeUnits(scheme);
    var l, s, h := vk.NumLookups(), vk.NumShuffles(), Pieces(vk.csDegree);
    SizeTimes(scheme, [Point], vk.numPermChunks);
    SizeTimes(scheme, [Point], l);
    SizeTimes(scheme, [Point], s);
    SizeTimes(scheme, [Point], h);
    var t9 := Times([Point], h) + [Squeeze];
    var t8 := [Squeeze] + t9;
    var t7 := [Point] + t8;
    var t6 := Times([Point], s) + t7;
    var t5 := Times([Point], l) + t6;
    SizeConcat(scheme, Times([Point], h), [Squeeze]);
    SizeConcat(scheme, [Squeeze], t9);
    SizeConcat(scheme, [Point], t8);
    SizeConcat(scheme, Times([Point], s), t7);
    SizeConcat(scheme, Times([Point], l), t6);
    SizeConcat(scheme, Times([Point], vk.numPermChunks), t5);
  }

  lemma SizeOfCommits<F>(scheme: Scheme, vk: Key<F>)
    requires PhasesInRange(vk)
    ensures Size(scheme, CommitOps(vk)) == CommonCounts(vk).0 * PointLen(scheme)
  {
    hide Size, Times, PhaseOps, WireOrder, Reads, PointLen, ProductOps;
    SizeUnits(scheme);
    WireOrderIsComplete(vk);
    PhaseOpsReads(vk);
    SizeReads(scheme, PhaseOps(vk));
    SizeTimes(scheme, [Point], vk.numAdvice);
    SizeTimes(scheme, [Point, Point], vk.NumLookups());
    SizeOfProducts(scheme, vk);
    var t3 := [Squeeze, Squeeze] + ProductOps(vk);
    var t2 := Times([Point, Point], vk.NumLookups()) + t3;
    SizeConcat(scheme, [Squeeze, Squeeze], ProductOps(vk));
    SizeConcat(scheme, Times([Point, Point], vk.NumLookups()), t3);
    SizeConcat(scheme, [Squeeze], t2);
    SizeConcat(scheme, PhaseOps(vk), [Squeeze] + t2);
    PointTotal(vk.numAdvice, vk.NumLookups(), vk.numPermChunks, vk.NumShuffles(), Pieces(vk.csDegree), PointLen(scheme));
  }

  lemma PointTotal(a: nat, l: nat, c: nat, s: nat, h: nat, p: nat)
    ensures a * p + l * (2 * p) + c * p + l * p + s * p + p + h * p == (a + 2 * l + c + l + s + 1 + h) * p
  {
  }

  lemma SizeOfEvals<F>(scheme: Scheme, vk: Key<F>)
    ensures Size(scheme, EvalOps(vk)) == CommonCounts(vk).1 * 32
  {
    hide Size, Times, ChunkOps, PointLen;
    SizeUnits(scheme);
    var l, s := vk.NumLookups(), vk.NumShuffles();
    var t6 := Times([Scalar, Scalar], s);
    var t5 := Times(Times([Scalar], 5), l) + t6;
    var t4 := ChunkOps(vk.numPermChunks) + t5;
    var t3 := Times([Scalar], vk.NumPermColumns()) + t4;
    var t2 := [Scalar] + t3;
    var t1 := Times([Scalar], vk.numFixedQueries) + t2;
    SizeTimes(scheme, [Scalar], vk.numAdviceQueries);
    SizeTimes(scheme, [Scalar], vk.numFixedQueries);
    SizeTimes(scheme, [Scalar], vk.NumPermColumns());
    SizeTimes(scheme, [Scalar], 5);
    SizeTimes(scheme, Times([Scalar], 5), l);
    SizeTimes(scheme, [Scalar, Scalar], s);
    SizeChunks(scheme, vk.numPermChunks);
    SizeConcat(scheme, Times(Times([Scalar], 5), l), t6);
    SizeConcat(scheme, ChunkOps(vk.numPermChunks), t5);
    SizeConcat(scheme, Times([Scalar], vk.NumPermColumns()), t4);
    SizeConcat(scheme, [Scalar], t3);
    SizeConcat(scheme, Times([Scalar], vk.numFixedQueries), t2);
    SizeConcat(scheme, Times([Scalar], vk.numAdviceQueries), t1);
  }

  /** The two length formulas are the length of the script. */
  lemma ExpectedSizes<F>(vk: Key<F>, witnesses: nat)
    requires PhasesInRange(vk)
    ensures Size(Shplonk, Script(Shplonk, vk, witnesses)) == ExpectedProofSize(vk)
    ensures Size(Gwc, Script(Gwc, vk, witnesses)) == ExpectedGwcProofSize(vk, witnesses)
  {
    hide Size, Times, CommitOps, EvalOps, CommonCounts;
    SizeOfCommits(Shplonk, vk);
    SizeOfCommits(Gwc, vk);
    SizeOfEvals(Shplonk, vk);
    SizeOfEvals(Gwc, vk);
    SizeUnits(Shplonk);
    SizeUnits(Gwc);
    SizeConcat(Shplonk, CommitOps(vk), EvalOps(vk) + OpeningOps(Shplonk, witnesses));
    SizeConcat(Shplonk, EvalOps(vk), OpeningOps(Shplonk, witnesses));
    SizeReads(Shplonk, OpeningOps(Shplonk, witnesses));
    ShplonkOpeningReads();
    SizeConcat(Gwc, CommitOps(vk), EvalOps(vk) + OpeningOps(Gwc, witnesses));
    SizeConcat(Gwc, EvalOps(vk), OpeningOps(Gwc, witnesses));
    SizeConcat(Gwc, [Squeeze], Times([Point], witnesses) + [Squeeze]);
    SizeConcat(Gwc, Times([Point], witnesses), [Squeeze]);
    SizeTimes(Gwc, [Point], witnesses);
  }
}
