/**
 Proofs as a prover writes them: every field of the proof record at its place on the wire. Both readers
 give back the record that was written, and accept nothing else.
 */
module ProofWriter {
  import opened Wrappers
  import opened Bytes
  import opened Fields
  import opened Plonk
  import opened Expression
  import opened Formats
  import opened Transcript
  import opened ProofFormat

  /** How points are put on the wire, and which points can be. */
  datatype Ink<!F(!new)> = Ink(wire: Wire<F>, point: seq<byte> -> seq<byte>, ok: seq<byte> -> bool)

  ghost function Scalar<F(!new)>(f: Field<F>): F -> seq<byte> {
    (a: F) => ScalarBytes(f, a)
  }

  ghost function Any<V(!new)>(): V -> bool {
    (v: V) => true
  }

  /** Written points and scalars are read back. */
  ghost predicate Faithful<F(!new)>(ink: Ink<F>) {
    Encodable(ink.wire.f) && ReadsBack(ParseG1(ink.wire), ink.point, ink.ok)
  }

  // ----- the parts of a proof; each writer is given what follows -----

  /** The points of one phase, in column order. */
  ghost function PhaseBytes(point: seq<byte> -> seq<byte>, phases: seq<byte>, commits: seq<seq<byte>>, p: nat, m: nat): seq<byte>
    requires m <= |phases| == |commits|
  {
    if m == 0 then []
    else PhaseBytes(point, phases, commits, p, m - 1) + if phases[m - 1] == p then point(commits[m - 1]) else []
  }

  /** The points of the first n phases, phase by phase. */
  ghost function PhasesBytes(point: seq<byte> -> seq<byte>, phases: seq<byte>, commits: seq<seq<byte>>, n: nat): seq<byte>
    requires |phases| == |commits|
  {
    if n == 0 then [] else PhasesBytes(point, phases, commits, n - 1) + PhaseBytes(point, phases, commits, n - 1, |phases|)
  }

  ghost predicate NoPhaseTable<F>(vk: Key<F>) {
    vk.numPhases <= 1 && vk.adviceColumnPhase == []
  }

  ghost function AdviceBytes<F(!new)>(ink: Ink<F>, vk: Key<F>, commits: seq<seq<byte>>): seq<byte>
    requires AdviceTabled(vk) && |commits| == vk.numAdvice
  {
    if NoPhaseTable(vk) then WriteAll(ink.point, commits) else PhasesBytes(ink.point, vk.adviceColumnPhase, commits, vk.numPhases)
  }

  ghost function PairBytes<V(!new)>(w: V -> seq<byte>): ((V, V)) -> seq<byte> {
    (p: (V, V)) => w(p.0) + w(p.1)
  }

  ghost function PairOk<V(!new)>(ok: V -> bool): ((V, V)) -> bool {
    (p: (V, V)) => ok(p.0) && ok(p.1)
  }

  ghost function Pairs<V>(a: seq<V>, b: seq<V>): (s: seq<(V, V)>)
    requires |a| == |b|
    ensures |s| == |a|
  {
    seq(|a|, i requires 0 <= i < |a| => (a[i], b[i]))
  }

  ghost function CommitmentBytes<F(!new)>(ink: Ink<F>, vk: Key<F>, p: WireProof<F>, rest: seq<byte>): seq<byte>
    requires AdviceTabled(vk) && |p.adviceCommits| == vk.numAdvice
    requires |p.lookupPermutedInputCommits| == |p.lookupPermutedTableCommits|
  {
    AdviceBytes(ink, vk, p.adviceCommits)
    + (WriteAll(PairBytes(ink.point), Pairs(p.lookupPermutedInputCommits, p.lookupPermutedTableCommits))
       + ProductBytes(ink, p, rest))
  }

  ghost function ProductBytes<F(!new)>(ink: Ink<F>, p: WireProof<F>, rest: seq<byte>): seq<byte> {
    WriteAll(ink.point, p.permutationProductCommits)
    + (WriteAll(ink.point, p.lookupProductCommits)
       + (WriteAll(ink.point, p.shuffleProductCommits)
          + (ink.point(p.randomPolyCommit)
             + (WriteAll(ink.point, p.vanishingHCommits) + rest))))
  }

  /** z, z at the next row and, for every chunk but the last, z at the last usable row. */
  ghost function ChunkBytes<F(!new)>(scalar: F -> seq<byte>, evals: seq<(F, F, F)>, rest: seq<byte>): seq<byte> {
    if evals == [] then rest
    else
      scalar(evals[0].0)
      + (scalar(evals[0].1)
         + (if |evals| == 1 then rest else scalar(evals[0].2) + ChunkBytes(scalar, evals[1..], rest)))
  }

  ghost function LookupBytes<F(!new)>(scalar: F -> seq<byte>): LookupEvals<F> -> seq<byte> {
    (e: LookupEvals<F>) =>
      scalar(e.productEval)
      + (scalar(e.productNextEval)
         + (scalar(e.permutedInputEval)
            + (scalar(e.permutedInputInvEval)
               + scalar(e.permutedTableEval))))
  }

  ghost function EvaluationBytes<F(!new)>(scalar: F -> seq<byte>, p: WireProof<F>, rest: seq<byte>): seq<byte> {
    WriteAll(scalar, p.adviceEvals)
    + (WriteAll(scalar, p.fixedEvals)
       + (scalar(p.randomPolyEval)
          + (WriteAll(scalar, p.permutationCommonEvals)
             + ChunkBytes(scalar, p.permutationProductEvals,
                          WriteAll(LookupBytes(scalar), p.lookupEvals)
                          + (WriteAll(PairBytes(scalar), p.shuffleEvals) + rest)))))
  }

  ghost function ProofBytes<F(!new)>(ink: Ink<F>, vk: Key<F>, p: WireProof<F>, opening: seq<seq<byte>>): seq<byte>
    requires AdviceTabled(vk) && |p.adviceCommits| == vk.numAdvice
    requires |p.lookupPermutedInputCommits| == |p.lookupPermutedTableCommits|
  {
    CommitmentBytes(ink, vk, p, EvaluationBytes(Scalar(ink.wire.f), p, WriteAll(ink.point, opening)))
  }

  // ----- the proofs of a key -----

  /** The sizes the key announces. */
  ghost predicate Sized<F>(vk: Key<F>, p: WireProof<F>) {
    && |p.adviceCommits| == vk.numAdvice && |p.permutationProductCommits| == |p.permutationProductEvals| == vk.numPermChunks
    && |p.lookupPermutedInputCommits| == |p.lookupPermutedTableCommits| == |p.lookupProductCommits| == |p.lookupEvals| == vk.NumLookups()
    && |p.shuffleProductCommits| == |p.shuffleEvals| == vk.NumShuffles() && |p.vanishingHCommits| == Pieces(vk.csDegree)
    && |p.adviceEvals| == vk.numAdviceQueries && |p.fixedEvals| == vk.numFixedQueries && |p.permutationCommonEvals| == vk.NumPermColumns()
  }

  /** A column is on the wire when its phase is one of the key's. */
  ghost predicate OnWire<F>(vk: Key<F>, c: nat)
    requires AdviceTabled(vk) && c < vk.numAdvice
  {
    NoPhaseTable(vk) || vk.adviceColumnPhase[c] < vk.numPhases
  }

  /** Nothing is kept where nothing is written: columns of no phase are zero, and so is the last chunk's
      third value. */
  ghost predicate BlanksAreZero<F>(vk: Key<F>, p: WireProof<F>, zero: F)
    requires AdviceTabled(vk) && |p.adviceCommits| == vk.numAdvice
  {
    && (forall c: nat :: c < vk.numAdvice ==> OnWire(vk, c) || p.adviceCommits[c] == ZeroPoint())
    && (p.permutationProductEvals != [] ==> p.permutationProductEvals[|p.permutationProductEvals| - 1].2 == zero)
  }

  ghost predicate PointsOk<F>(vk: Key<F>, p: WireProof<F>, opening: seq<seq<byte>>, ok: seq<byte> -> bool)
    requires AdviceTabled(vk) && |p.adviceCommits| == vk.numAdvice
  {
    && (forall c: nat :: c < vk.numAdvice ==> OnWire(vk, c) ==> ok(p.adviceCommits[c]))
    && AllOk(ok, p.lookupPermutedInputCommits) && AllOk(ok, p.lookupPermutedTableCommits)
    && AllOk(ok, p.permutationProductCommits) && AllOk(ok, p.lookupProductCommits) && AllOk(ok, p.shuffleProductCommits)
    && ok(p.randomPolyCommit) && AllOk(ok, p.vanishingHCommits) && AllOk(ok, opening)
  }

  /** A proof that can be written under this key. */
  ghost predicate Writable<F(!new)>(ink: Ink<F>, vk: Key<F>, p: WireProof<F>, opening: seq<seq<byte>>) {
    AdviceTabled(vk) && Sized(vk, p) && BlanksAreZero(vk, p, ink.wire.f.Zero()) && PointsOk(vk, p, opening, ink.ok)
  }

  // ----- scalars and pairs -----

  lemma ScalarsLawful<F(!new)>(w: Wire<F>)
    requires Encodable(w.f)
    ensures ReadsBack(ParseFr(w), Scalar(w.f), Any<F>()) && OnlyWritten(ParseFr(w), Scalar(w.f), Any<F>())
  {
    hide ScalarBytes, ScalarFromBytes, Encodable;
    forall a: F, rest: seq<byte> ensures ParseFr(w)(Scalar(w.f)(a) + rest) == Ok((a, rest)) {
      ScalarRoundTrip(w.f, a);
      var b := ScalarBytes(w.f, a) + rest;
      assert b[..32] == ScalarBytes(w.f, a) && b[32..] == rest;
    }
    forall b: seq<byte> | ParseFr(w)(b).Ok? ensures b == Scalar(w.f)(ParseFr(w)(b).value.0) + ParseFr(w)(b).value.1 {
      BytesRoundTrip(w.f, b[..32]);
      assert b == b[..32] + b[32..];
    }
  }

  lemma PairsReadBack<V(!new)>(p: Parse<V>, w: V -> seq<byte>, ok: V -> bool)
    requires ReadsBack(p, w, ok)
    ensures ReadsBack(ParseTwo(p), PairBytes(w), PairOk(ok))
  {
    forall v: (V, V), rest: seq<byte> | PairOk(ok)(v) ensures ParseTwo(p)(PairBytes(w)(v) + rest) == Ok((v, rest)) {
      assert w(v.0) + w(v.1) + rest == w(v.0) + (w(v.1) + rest);
      assert p(w(v.0) + (w(v.1) + rest)) == Ok((v.0, w(v.1) + rest));
    }
  }

  lemma PairsOnlyWritten<V(!new)>(p: Parse<V>, w: V -> seq<byte>, ok: V -> bool)
    requires OnlyWritten(p, w, ok)
    ensures OnlyWritten(ParseTwo(p), PairBytes(w), PairOk(ok))
  {
    forall b: seq<byte> | ParseTwo(p)(b).Ok?
      ensures PairOk(ok)(ParseTwo(p)(b).value.0) && b == PairBytes(w)(ParseTwo(p)(b).value.0) + ParseTwo(p)(b).value.1
    {
      var first := p(b).value;
      assert b == w(first.0) + first.1;
      var second := p(first.1).value;
      assert first.1 == w(second.0) + second.1;
      assert w(first.0) + (w(second.0) + second.1) == w(first.0) + w(second.0) + second.1;
    }
  }

  // ----- advice: phase by phase is the wire order -----

  ghost function Picked<V>(values: seq<V>, order: seq<nat>): (s: seq<V>)
    requires Below(order, |values|)
    ensures |s| == |order|
  {
    seq(|order|, i requires 0 <= i < |order| => values[order[i]])
  }

  lemma {:induction false} WriteAllConcat<V>(w: V -> seq<byte>, a: seq<V>, b: seq<V>)
    ensures WriteAll(w, a + b) == WriteAll(w, a) + WriteAll(w, b)
  {
    if b == [] {
      assert a + b == a;
    } else {
      var init, last := b[..|b| - 1], b[|b| - 1];
      assert a + b == a + init + [last] && b == init + [last];
      WriteAllConcat(w, a, init);
      WriteAllSnoc(w, a + init, last);
      WriteAllSnoc(w, init, last);
    }
  }

  lemma {:induction false} PhaseBytesAre(point: seq<byte> -> seq<byte>, phases: seq<byte>, commits: seq<seq<byte>>, p: nat, m: nat)
    requires m <= |phases| == |commits|
    ensures PhaseBytes(point, phases, commits, p, m) == WriteAll(point, Picked(commits, ColumnsOf(phases, p, m)))
  {
    hide WriteAll;
    if m == 0 {
      NothingWritten(point);
      assert Picked(commits, ColumnsOf(phases, p, 0)) == [];
    } else {
      PhaseBytesAre(point, phases, commits, p, m - 1);
      var before := ColumnsOf(phases, p, m - 1);
      if phases[m - 1] == p {
        assert Picked(commits, before + [m - 1]) == Picked(commits, before) + [commits[m - 1]];
        WriteAllSnoc(point, Picked(commits, before), commits[m - 1]);
      } else {
        assert before + [] == before;
      }
    }
  }

  lemma NothingWritten<V>(w: V -> seq<byte>)
    ensures WriteAll(w, []) == []
  {
  }

  lemma {:induction false} PhasesBytesAre(point: seq<byte> -> seq<byte>, phases: seq<byte>, commits: seq<seq<byte>>, n: nat)
    requires |phases| == |commits|
    ensures PhasesBytes(point, phases, commits, n) == WriteAll(point, Picked(commits, PhaseOrder(phases, n)))
  {
    hide WriteAll, ColumnsOf, PhaseBytes;
    if n == 0 {
      NothingWritten(point);
      assert Picked(commits, PhaseOrder(phases, 0)) == [];
    } else {
      var before, here := PhaseOrder(phases, n - 1), ColumnsOf(phases, n - 1, |phases|);
      PhasesBytesAre(point, phases, commits, n - 1);
      PhaseBytesAre(point, phases, commits, n - 1, |phases|);
      assert Picked(commits, before + here) == Picked(commits, before) + Picked(commits, here);
      WriteAllConcat(point, Picked(commits, before), Picked(commits, here));
    }
  }

  lemma AdviceBytesAre<F(!new)>(ink: Ink<F>, vk: Key<F>, commits: seq<seq<byte>>)
    requires AdviceTabled(vk) && |commits| == vk.numAdvice
    ensures Below(WireOrder(vk), |commits|)
    ensures AdviceBytes(ink, vk, commits) == WriteAll(ink.point, Picked(commits, WireOrder(vk)))
  {
    hide WriteAll, PhasesBytes, PhaseOrder;
    WireOrderInRange(vk);
    if NoPhaseTable(vk) {
      assert Picked(commits, Ascending(vk.numAdvice)) == commits;
    } else {
      PhasesBytesAre(ink.point, vk.adviceColumnPhase, commits, vk.numPhases);
    }
  }

  lemma OrderIsOnWire<F>(vk: Key<F>, c: nat)
    requires AdviceTabled(vk) && c < vk.numAdvice
    ensures c in WireOrder(vk) <==> OnWire(vk, c)
  {
    hide PhaseOrder;
    if NoPhaseTable(vk) {
      assert Ascending(vk.numAdvice)[c] == c;
    } else {
      PhaseOrderHas(vk.adviceColumnPhase, vk.numPhases, c);
    }
  }

  lemma PhaseOrderHas(phases: seq<byte>, n: nat, c: nat)
    requires c < |phases|
    ensures c in PhaseOrder(phases, n) <==> phases[c] < n
  {
    hide PhaseOrder;
    PhaseOrderSpec(phases, n);
    var s := PhaseOrder(phases, n);
    if c in s {
      var i :| 0 <= i < |s| && s[i] == c;
    }
  }

  lemma {:induction false} PlacedPicked<V>(initial: seq<V>, order: seq<nat>, values: seq<V>, c: nat)
    requires |initial| == |values| && Below(order, |values|) && c < |values|
    ensures Placed(initial, order, Picked(values, order))[c] == if c in order then values[c] else initial[c]
  {
    if order != [] {
      var n := |order| - 1;
      assert Picked(values, order)[..n] == Picked(values, order[..n]);
      PlacedPicked(initial, order[..n], values, c);
      assert order == order[..n] + [order[n]];
    }
  }

  /** Placing the points read in wire order restores the columns. */
  lemma AdvicePlaced<F(!new)>(vk: Key<F>, commits: seq<seq<byte>>)
    requires AdviceTabled(vk) && |commits| == vk.numAdvice && Below(WireOrder(vk), |commits|)
    requires forall c: nat :: c < vk.numAdvice ==> OnWire(vk, c) || commits[c] == ZeroPoint()
    ensures Placed(ZeroPoints(vk.numAdvice), WireOrder(vk), Picked(commits, WireOrder(vk))) == commits
  {
    hide WireOrder, Placed, Picked, OnWire, ZeroPoint;
    var placed := Placed(ZeroPoints(vk.numAdvice), WireOrder(vk), Picked(commits, WireOrder(vk)));
    forall c | 0 <= c < vk.numAdvice ensures placed[c] == commits[c] {
      PlacedPicked(ZeroPoints(vk.numAdvice), WireOrder(vk), commits, c);
      OrderIsOnWire(vk, c);
    }
  }

  // ----- written proofs are read back -----

  lemma PointReads<F(!new)>(ink: Ink<F>, p: seq<byte>, rest: seq<byte>)
    requires Faithful(ink) && ink.ok(p)
    ensures ParseG1(ink.wire)(ink.point(p) + rest) == Ok((p, rest))
  {
    hide ParseG1;
  }

  lemma PointsRead<F(!new)>(ink: Ink<F>, ps: seq<seq<byte>>, rest: seq<byte>)
    requires Faithful(ink) && AllOk(ink.ok, ps)
    ensures Many(ParseG1(ink.wire), |ps|, WriteAll(ink.point, ps) + rest) == Ok((ps, rest))
  {
    hide ParseG1, Many, WriteAll, AllOk;
    ManyReadsBack(ParseG1(ink.wire), ink.point, ink.ok, ps, rest);
  }

  lemma ProductsRead<F(!new)>(ink: Ink<F>, vk: Key<F>, p: WireProof<F>, opening: seq<seq<byte>>, rest: seq<byte>)
    requires Faithful(ink) && Writable(ink, vk, p, opening)
    ensures ParseProducts(ink.wire, vk, ProductBytes(ink, p, rest)) ==
            Ok((Products(p.permutationProductCommits, p.lookupProductCommits, p.shuffleProductCommits, p.randomPolyCommit, p.vanishingHCommits), rest))
  {
    hide ParseG1, Many, WriteAll, AllOk, Faithful;
    var r5 := WriteAll(ink.point, p.vanishingHCommits) + rest;
    var r4 := ink.point(p.randomPolyCommit) + r5;
    var r3 := WriteAll(ink.point, p.shuffleProductCommits) + r4;
    var r2 := WriteAll(ink.point, p.lookupProductCommits) + r3;
    PointsRead(ink, p.permutationProductCommits, r2);
    PointsRead(ink, p.lookupProductCommits, r3);
    PointsRead(ink, p.shuffleProductCommits, r4);
    PointReads(ink, p.randomPolyCommit, r5);
    PointsRead(ink, p.vanishingHCommits, rest);
  }

  lemma PermutedRead<F(!new)>(ink: Ink<F>, a: seq<seq<byte>>, b: seq<seq<byte>>, rest: seq<byte>)
    requires Faithful(ink) && |a| == |b| && AllOk(ink.ok, a) && AllOk(ink.ok, b)
    ensures Many(ParseTwo(ParseG1(ink.wire)), |a|, WriteAll(PairBytes(ink.point), Pairs(a, b)) + rest) == Ok((Pairs(a, b), rest))
    ensures Firsts(Pairs(a, b)) == a && Seconds(Pairs(a, b)) == b
  {
    hide ParseG1, ParseTwo, Many, WriteAll;
    PairsReadBack(ParseG1(ink.wire), ink.point, ink.ok);
    forall v | v in Pairs(a, b) ensures PairOk(ink.ok)(v) {
      assert v.0 in a && v.1 in b;
    }
    ManyReadsBack(ParseTwo(ParseG1(ink.wire)), PairBytes(ink.point), PairOk(ink.ok), Pairs(a, b), rest);
  }

  lemma PickedOk<F(!new)>(ink: Ink<F>, vk: Key<F>, p: WireProof<F>, opening: seq<seq<byte>>)
    requires Writable(ink, vk, p, opening) && Below(WireOrder(vk), vk.numAdvice)
    ensures AllOk(ink.ok, Picked(p.adviceCommits, WireOrder(vk)))
  {
    hide WireOrder, OnWire;
    var order := WireOrder(vk);
    forall v | v in Picked(p.adviceCommits, order) ensures ink.ok(v) {
      var i :| 0 <= i < |order| && p.adviceCommits[order[i]] == v;
      assert order[i] in order;
      OrderIsOnWire(vk, order[i]);
    }
  }

  /** The commitments of a record. */
  ghost function CommitsIn<F>(p: WireProof<F>): Commits {
    Commits(p.adviceCommits, p.lookupPermutedInputCommits, p.lookupPermutedTableCommits, p.permutationProductCommits,
            p.lookupProductCommits, p.shuffleProductCommits, p.randomPolyCommit, p.vanishingHCommits)
  }

  ghost function EvalsIn<F>(p: WireProof<F>): Evals<F> {
    Evals(p.adviceEvals, p.fixedEvals, p.randomPolyEval, p.permutationCommonEvals, p.permutationProductEvals, p.lookupEvals, p.shuffleEvals)
  }

  lemma CommitmentsRead<F(!new)>(ink: Ink<F>, vk: Key<F>, p: WireProof<F>, opening: seq<seq<byte>>, rest: seq<byte>)
    requires Faithful(ink) && Writable(ink, vk, p, opening)
    ensures ParseCommits(ink.wire, vk, CommitmentBytes(ink, vk, p, rest)) == Ok((CommitsIn(p), rest))
  {
    hide ParseG1, ParseTwo, Many, WriteAll, AllOk, Faithful, ParseProducts, ProductBytes, WireOrder, Placed, Picked, PairBytes, Pairs, AdviceBytes,
         OnWire, Firsts, Seconds, ZeroPoint;
    var order := WireOrder(vk);
    WireOrderInRange(vk);
    AdviceBytesAre(ink, vk, p.adviceCommits);
    AdvicePlaced(vk, p.adviceCommits);
    PickedOk(ink, vk, p, opening);
    var r2 := ProductBytes(ink, p, rest);
    var r1 := WriteAll(PairBytes(ink.point), Pairs(p.lookupPermutedInputCommits, p.lookupPermutedTableCommits)) + r2;
    PointsRead(ink, Picked(p.adviceCommits, order), r1);
    PermutedRead(ink, p.lookupPermutedInputCommits, p.lookupPermutedTableCommits, r2);
    ProductsRead(ink, vk, p, opening, rest);
  }

  lemma ScalarReads<F(!new)>(w: Wire<F>, a: F, rest: seq<byte>)
    requires Encodable(w.f)
    ensures ParseFr(w)(Scalar(w.f)(a) + rest) == Ok((a, rest))
  {
    hide ParseFr, Scalar, Encodable;
    ScalarsLawful(w);
    assert Any<F>()(a);
  }

  lemma ScalarsRead<F(!new)>(w: Wire<F>, vs: seq<F>, rest: seq<byte>)
    requires Encodable(w.f)
    ensures Many(ParseFr(w), |vs|, WriteAll(Scalar(w.f), vs) + rest) == Ok((vs, rest))
  {
    hide ParseFr, Scalar, Encodable, Many, WriteAll;
    ScalarsLawful(w);
    ManyReadsBack(ParseFr(w), Scalar(w.f), Any<F>(), vs, rest);
  }

  lemma TwoScalarsRead<F(!new)>(w: Wire<F>, a: F, b: F, rest: seq<byte>)
    requires Encodable(w.f)
    ensures ParseTwo(ParseFr(w))(Scalar(w.f)(a) + (Scalar(w.f)(b) + rest)) == Ok(((a, b), rest))
  {
    hide ParseFr, Scalar, Encodable;
    ScalarReads(w, a, Scalar(w.f)(b) + rest);
    ScalarReads(w, b, rest);
  }

  lemma {:induction false} ChunksRead<F(!new)>(w: Wire<F>, evals: seq<(F, F, F)>, rest: seq<byte>)
    requires Encodable(w.f) && (evals != [] ==> evals[|evals| - 1].2 == w.f.Zero())
    ensures ParseChunks(w, |evals|, ChunkBytes(Scalar(w.f), evals, rest)) == Ok((evals, rest))
  {
    hide ParseFr, ParseTwo, Scalar, Encodable, Field.Zero;
    if |evals| == 1 {
      TwoScalarsRead(w, evals[0].0, evals[0].1, rest);
      assert [evals[0]] + [] == evals;
    } else if |evals| > 1 {
      var after := ChunkBytes(Scalar(w.f), evals[1..], rest);
      TwoScalarsRead(w, evals[0].0, evals[0].1, Scalar(w.f)(evals[0].2) + after);
      ScalarReads(w, evals[0].2, after);
      ChunksRead(w, evals[1..], rest);
      assert [evals[0]] + evals[1..] == evals;
    }
  }

  lemma LookupsReadBack<F(!new)>(w: Wire<F>)
    requires Encodable(w.f)
    ensures ReadsBack(ParseLookupEvals(w), LookupBytes(Scalar(w.f)), Any<LookupEvals<F>>())
  {
    hide ParseFr, Scalar, Encodable, Many, WriteAll;
    forall e: LookupEvals<F>, rest: seq<byte> ensures ParseLookupEvals(w)(LookupBytes(Scalar(w.f))(e) + rest) == Ok((e, rest)) {
      var vs := [e.productEval, e.productNextEval, e.permutedInputEval, e.permutedInputInvEval, e.permutedTableEval];
      FiveWritten(Scalar(w.f), vs);
      ScalarsRead(w, vs, rest);
    }
  }

  lemma FiveWritten<V(!new)>(w: V -> seq<byte>, vs: seq<V>)
    requires |vs| == 5
    ensures WriteAll(w, vs) == w(vs[0]) + (w(vs[1]) + (w(vs[2]) + (w(vs[3]) + w(vs[4]))))
  {
    assert vs[4..][1..] == [] && WriteAll(w, vs[4..]) == w(vs[4]) + WriteAll(w, []) == w(vs[4]);
    assert vs[3..][1..] == vs[4..] && WriteAll(w, vs[3..]) == w(vs[3]) + WriteAll(w, vs[4..]);
    assert vs[2..][1..] == vs[3..] && WriteAll(w, vs[2..]) == w(vs[2]) + WriteAll(w, vs[3..]);
    assert vs[1..][1..] == vs[2..] && WriteAll(w, vs[1..]) == w(vs[1]) + WriteAll(w, vs[2..]);
  }

  lemma ShufflesRead<F(!new)>(w: Wire<F>, vs: seq<(F, F)>, rest: seq<byte>)
    requires Encodable(w.f)
    ensures Many(ParseTwo(ParseFr(w)), |vs|, WriteAll(PairBytes(Scalar(w.f)), vs) + rest) == Ok((vs, rest))
  {
    hide ParseFr, ParseTwo, Scalar, Encodable, Many, WriteAll, PairBytes;
    ScalarsLawful(w);
    PairsReadBack(ParseFr(w), Scalar(w.f), Any<F>());
    ManyReadsBack(ParseTwo(ParseFr(w)), PairBytes(Scalar(w.f)), PairOk(Any<F>()), vs, rest);
  }

  lemma LookupEvalsRead<F(!new)>(w: Wire<F>, vs: seq<LookupEvals<F>>, rest: seq<byte>)
    requires Encodable(w.f)
    ensures Many(ParseLookupEvals(w), |vs|, WriteAll(LookupBytes(Scalar(w.f)), vs) + rest) == Ok((vs, rest))
  {
    hide ParseLookupEvals, Scalar, Encodable, Many, WriteAll, LookupBytes;
    LookupsReadBack(w);
    ManyReadsBack(ParseLookupEvals(w), LookupBytes(Scalar(w.f)), Any<LookupEvals<F>>(), vs, rest);
  }

  lemma EvaluationsRead<F(!new)>(w: Wire<F>, vk: Key<F>, p: WireProof<F>, rest: seq<byte>)
    requires Encodable(w.f) && Sized(vk, p)
    requires p.permutationProductEvals != [] ==> p.permutationProductEvals[|p.permutationProductEvals| - 1].2 == w.f.Zero()
    ensures ParseEvals(w, vk, EvaluationBytes(Scalar(w.f), p, rest)) == Ok((EvalsIn(p), rest))
  {
    hide ParseFr, ParseTwo, ParseLookupEvals, ParseChunks, Many, WriteAll, Encodable, Scalar, LookupBytes, PairBytes, ChunkBytes;
    var s := Scalar(w.f);
    var r6 := WriteAll(PairBytes(s), p.shuffleEvals) + rest;
    var r5 := WriteAll(LookupBytes(s), p.lookupEvals) + r6;
    var r4 := ChunkBytes(s, p.permutationProductEvals, r5);
    var r3 := WriteAll(s, p.permutationCommonEvals) + r4;
    var r2 := s(p.randomPolyEval) + r3;
    ScalarsRead(w, p.adviceEvals, WriteAll(s, p.fixedEvals) + r2);
    ScalarsRead(w, p.fixedEvals, r2);
    ScalarReads(w, p.randomPolyEval, r3);
    ScalarsRead(w, p.permutationCommonEvals, r4);
    ChunksRead(w, p.permutationProductEvals, r5);
    LookupEvalsRead(w, p.lookupEvals, r6);
    ShufflesRead(w, p.shuffleEvals, rest);
  }

  /** What a written proof contains, and the record it becomes again. */
  lemma WrittenProofsParse<F(!new)>(ink: Ink<F>, vk: Key<F>, witnesses: nat, p: WireProof<F>, opening: seq<seq<byte>>)
    requires Faithful(ink) && Writable(ink, vk, p, opening) && |opening| == OpeningPoints(ink.wire.scheme, witnesses)
    ensures var c := ParseProof(ink.wire, vk, witnesses, ProofBytes(ink, vk, p, opening));
      c.Ok? && c.value.opening == opening && ProofOf(c.value, p.openingProofW, p.openingProofWPrime) == p
  {
    hide ParseG1, ParseCommits, ParseEvals, Many, WriteAll, AllOk, CommitmentBytes, EvaluationBytes, Scalar, OnWire, ZeroPoint;
    var last := WriteAll(ink.point, opening);
    CommitmentsRead(ink, vk, p, opening, EvaluationBytes(Scalar(ink.wire.f), p, last));
    EvaluationsRead(ink.wire, vk, p, last);
    assert last + [] == last;
    PointsRead(ink, opening, []);
  }

  // ----- only written proofs are accepted -----

  lemma PointsWritten<F(!new)>(ink: Ink<F>, n: nat, b: seq<byte>)
    requires OnlyWritten(ParseG1(ink.wire), ink.point, ink.ok) && Many(ParseG1(ink.wire), n, b).Ok?
    ensures var r := Many(ParseG1(ink.wire), n, b).value;
      |r.0| == n && AllOk(ink.ok, r.0) && b == WriteAll(ink.point, r.0) + r.1
  {
    hide ParseG1, Many, WriteAll, AllOk, OnlyWritten;
    ManyOnlyWritten(ParseG1(ink.wire), ink.point, ink.ok, n, b);
  }

  lemma PointWritten<F(!new)>(ink: Ink<F>, b: seq<byte>)
    requires OnlyWritten(ParseG1(ink.wire), ink.point, ink.ok) && ParseG1(ink.wire)(b).Ok?
    ensures var r := ParseG1(ink.wire)(b).value; ink.ok(r.0) && b == ink.point(r.0) + r.1
  {
    hide ParseG1;
  }

  lemma ProductsWritten<F(!new)>(ink: Ink<F>, vk: Key<F>, b: seq<byte>, p: WireProof<F>)
    requires OnlyWritten(ParseG1(ink.wire), ink.point, ink.ok) && ParseProducts(ink.wire, vk, b).Ok?
    requires ParseProducts(ink.wire, vk, b).value.0 ==
             Products(p.permutationProductCommits, p.lookupProductCommits, p.shuffleProductCommits, p.randomPolyCommit, p.vanishingHCommits)
    ensures b == ProductBytes(ink, p, ParseProducts(ink.wire, vk, b).value.1)
    ensures |p.permutationProductCommits| == vk.numPermChunks && |p.lookupProductCommits| == vk.NumLookups()
    ensures |p.shuffleProductCommits| == vk.NumShuffles() && |p.vanishingHCommits| == Pieces(vk.csDegree)
    ensures AllOk(ink.ok, p.permutationProductCommits) && AllOk(ink.ok, p.lookupProductCommits) && AllOk(ink.ok, p.shuffleProductCommits)
    ensures ink.ok(p.randomPolyCommit) && AllOk(ink.ok, p.vanishingHCommits)
  {
    hide ParseG1, Many, WriteAll, AllOk, OnlyWritten, Pieces;
    var g := ParseG1(ink.wire);
    PointsWritten(ink, vk.numPermChunks, b);
    var perm := Many(g, vk.numPermChunks, b).value;
    PointsWritten(ink, vk.NumLookups(), perm.1);
    var lookups := Many(g, vk.NumLookups(), perm.1).value;
    PointsWritten(ink, vk.NumShuffles(), lookups.1);
    var shuffles := Many(g, vk.NumShuffles(), lookups.1).value;
    PointWritten(ink, shuffles.1);
    PointsWritten(ink, Pieces(vk.csDegree), g(shuffles.1).value.1);
  }

  lemma PermutedWritten<F(!new)>(ink: Ink<F>, n: nat, b: seq<byte>)
    requires OnlyWritten(ParseG1(ink.wire), ink.point, ink.ok) && Many(ParseTwo(ParseG1(ink.wire)), n, b).Ok?
    ensures var r := Many(ParseTwo(ParseG1(ink.wire)), n, b).value;
      && |r.0| == n && b == WriteAll(PairBytes(ink.point), Pairs(Firsts(r.0), Seconds(r.0))) + r.1
      && AllOk(ink.ok, Firsts(r.0)) && AllOk(ink.ok, Seconds(r.0))
  {
    hide ParseG1, ParseTwo, Many, WriteAll, PairBytes, OnlyWritten;
    PairsOnlyWritten(ParseG1(ink.wire), ink.point, ink.ok);
    ManyOnlyWritten(ParseTwo(ParseG1(ink.wire)), PairBytes(ink.point), PairOk(ink.ok), n, b);
    var r := Many(ParseTwo(ParseG1(ink.wire)), n, b).value;
    assert Pairs(Firsts(r.0), Seconds(r.0)) == r.0;
    forall v | v in Firsts(r.0) ensures ink.ok(v) {
      var i :| 0 <= i < n && r.0[i].0 == v;
      assert r.0[i] in r.0 && PairOk(ink.ok)(r.0[i]);
    }
    forall v | v in Seconds(r.0) ensures ink.ok(v) {
      var i :| 0 <= i < n && r.0[i].1 == v;
      assert r.0[i] in r.0 && PairOk(ink.ok)(r.0[i]);
    }
  }

  lemma {:induction false} PlacedElsewhere<V>(initial: seq<V>, order: seq<nat>, values: seq<V>, c: nat)
    requires |values| == |order| && Below(order, |initial|) && c < |initial| && c !in order
    ensures Placed(initial, order, values)[c] == initial[c]
  {
    if order != [] {
      var n := |order| - 1;
      assert order[n] in order;
      PlacedElsewhere(initial, order[..n], values[..n], c);
    }
  }

  lemma OrderDistinct<F>(vk: Key<F>, i: nat, j: nat)
    requires i < j < |WireOrder(vk)|
    ensures WireOrder(vk)[i] != WireOrder(vk)[j]
  {
    hide PhaseOrder;
    if !NoPhaseTable(vk) {
      PhaseOrderSorted(vk.adviceColumnPhase, vk.numPhases, i, j);
    }
  }

  /** The columns filled from the wire: what is picked in wire order is what was read, the rest is zero. */
  lemma PickedPlaced<F(!new)>(ink: Ink<F>, vk: Key<F>, points: seq<seq<byte>>)
    requires AdviceTabled(vk) && |points| == |WireOrder(vk)| && Below(WireOrder(vk), vk.numAdvice) && AllOk(ink.ok, points)
    ensures var commits := Placed(ZeroPoints(vk.numAdvice), WireOrder(vk), points);
      && Picked(commits, WireOrder(vk)) == points
      && (forall c: nat :: c < vk.numAdvice ==> OnWire(vk, c) || commits[c] == ZeroPoint())
      && (forall c: nat :: c < vk.numAdvice ==> OnWire(vk, c) ==> ink.ok(commits[c]))
  {
    hide WireOrder, Placed, OnWire, ZeroPoint;
    var order, commits := WireOrder(vk), Placed(ZeroPoints(vk.numAdvice), WireOrder(vk), points);
    forall i, j | 0 <= i < j < |order| ensures order[i] != order[j] {
      OrderDistinct(vk, i, j);
    }
    forall i | 0 <= i < |order| ensures commits[order[i]] == points[i] {
      PlacedAt(ZeroPoints(vk.numAdvice), order, points, i);
    }
    forall c: nat | c < vk.numAdvice ensures (OnWire(vk, c) || commits[c] == ZeroPoint()) && (OnWire(vk, c) ==> ink.ok(commits[c])) {
      OrderIsOnWire(vk, c);
      if c in order {
        var i :| 0 <= i < |order| && order[i] == c;
        assert points[i] in points;
      } else {
        PlacedElsewhere(ZeroPoints(vk.numAdvice), order, points, c);
      }
    }
  }

  ghost predicate AdviceOk<F(!new)>(ink: Ink<F>, vk: Key<F>, commits: seq<seq<byte>>)
    requires AdviceTabled(vk) && |commits| == vk.numAdvice
  {
    && (forall c: nat :: c < vk.numAdvice ==> OnWire(vk, c) || commits[c] == ZeroPoint())
    && (forall c: nat :: c < vk.numAdvice ==> OnWire(vk, c) ==> ink.ok(commits[c]))
  }

  lemma AdviceWritten<F(!new)>(ink: Ink<F>, vk: Key<F>, b: seq<byte>, commits: seq<seq<byte>>)
    requires OnlyWritten(ParseG1(ink.wire), ink.point, ink.ok) && AdviceTabled(vk) && Many(ParseG1(ink.wire), |WireOrder(vk)|, b).Ok?
    requires Below(WireOrder(vk), vk.numAdvice) && |Many(ParseG1(ink.wire), |WireOrder(vk)|, b).value.0| == |WireOrder(vk)|
    requires commits == Placed(ZeroPoints(vk.numAdvice), WireOrder(vk), Many(ParseG1(ink.wire), |WireOrder(vk)|, b).value.0)
    ensures |commits| == vk.numAdvice && AdviceOk(ink, vk, commits)
    ensures b == AdviceBytes(ink, vk, commits) + Many(ParseG1(ink.wire), |WireOrder(vk)|, b).value.1
  {
    hide ParseG1, Many, WriteAll, AllOk, WireOrder, Placed, Picked, AdviceBytes, OnWire, ZeroPoint, OnlyWritten;
    PointsWritten(ink, |WireOrder(vk)|, b);
    PickedPlaced(ink, vk, Many(ParseG1(ink.wire), |WireOrder(vk)|, b).value.0);
    AdviceBytesAre(ink, vk, commits);
  }

  /** The commitment fields of a record are within the format. */
  ghost predicate CommitmentsOk<F(!new)>(ink: Ink<F>, vk: Key<F>, p: WireProof<F>)
    requires AdviceTabled(vk)
  {
    && |p.adviceCommits| == vk.numAdvice && AdviceOk(ink, vk, p.adviceCommits)
    && |p.lookupPermutedInputCommits| == |p.lookupPermutedTableCommits| == |p.lookupProductCommits| == vk.NumLookups()
    && |p.permutationProductCommits| == vk.numPermChunks && |p.shuffleProductCommits| == vk.NumShuffles()
    && |p.vanishingHCommits| == Pieces(vk.csDegree)
    && AllOk(ink.ok, p.lookupPermutedInputCommits) && AllOk(ink.ok, p.lookupPermutedTableCommits)
    && AllOk(ink.ok, p.permutationProductCommits) && AllOk(ink.ok, p.lookupProductCommits) && AllOk(ink.ok, p.shuffleProductCommits)
    && ink.ok(p.randomPolyCommit) && AllOk(ink.ok, p.vanishingHCommits)
  }

  lemma CommitmentsWritten<F(!new)>(ink: Ink<F>, vk: Key<F>, b: seq<byte>, p: WireProof<F>)
    requires OnlyWritten(ParseG1(ink.wire), ink.point, ink.ok) && AdviceTabled(vk)
    requires ParseCommits(ink.wire, vk, b).Ok? && ParseCommits(ink.wire, vk, b).value.0 == CommitsIn(p)
    ensures CommitmentsOk(ink, vk, p) && b == CommitmentBytes(ink, vk, p, ParseCommits(ink.wire, vk, b).value.1)
  {
    hide ParseG1, ParseTwo, Many, WriteAll, AllOk, ParseProducts, ProductBytes, WireOrder, Placed, PairBytes, Pairs, AdviceBytes, AdviceOk,
         Firsts, Seconds, OnlyWritten, Pieces;
    var g, n := ParseG1(ink.wire), |WireOrder(vk)|;
    WireOrderInRange(vk);
    ManyCount(g, n, b);
    AdviceWritten(ink, vk, b, p.adviceCommits);
    var permuted := Many(ParseTwo(g), vk.NumLookups(), Many(g, n, b).value.1).value;
    PermutedWritten(ink, vk.NumLookups(), Many(g, n, b).value.1);
    ProductsWritten(ink, vk, permuted.1, p);
  }

  lemma ScalarWritten<F(!new)>(w: Wire<F>, b: seq<byte>)
    requires Encodable(w.f) && ParseFr(w)(b).Ok?
    ensures b == Scalar(w.f)(ParseFr(w)(b).value.0) + ParseFr(w)(b).value.1
  {
    hide ParseFr, Scalar, Encodable;
    ScalarsLawful(w);
  }

  lemma ScalarsWritten<F(!new)>(w: Wire<F>, n: nat, b: seq<byte>)
    requires Encodable(w.f) && Many(ParseFr(w), n, b).Ok?
    ensures var r := Many(ParseFr(w), n, b).value; |r.0| == n && b == WriteAll(Scalar(w.f), r.0) + r.1
  {
    hide ParseFr, Scalar, Encodable, Many, WriteAll;
    ScalarsLawful(w);
    ManyOnlyWritten(ParseFr(w), Scalar(w.f), Any<F>(), n, b);
  }

  lemma {:induction false} ChunksWritten<F(!new)>(w: Wire<F>, left: nat, b: seq<byte>)
    requires Encodable(w.f) && ParseChunks(w, left, b).Ok?
    ensures var r := ParseChunks(w, left, b).value;
      && |r.0| == left && (left > 0 ==> r.0[left - 1].2 == w.f.Zero())
      && b == ChunkBytes(Scalar(w.f), r.0, r.1)
  {
    hide ParseFr, Scalar, Encodable;
    if left > 0 {
      ScalarWritten(w, b);
      var z := ParseFr(w)(b).value;
      ScalarWritten(w, z.1);
      var next := ParseFr(w)(z.1).value;
      var r := ParseChunks(w, left, b).value;
      if left == 1 {
        assert r.0 == [(z.0, next.0, w.f.Zero())] && r.1 == next.1;
      } else {
        ScalarWritten(w, next.1);
        var last := ParseFr(w)(next.1).value;
        ChunksWritten(w, left - 1, last.1);
        assert r.0[1..] == ParseChunks(w, left - 1, last.1).value.0;
        assert r.0[left - 1] == r.0[1..][left - 2];
      }
    }
  }

  lemma LookupsOnlyWritten<F(!new)>(w: Wire<F>)
    requires Encodable(w.f)
    ensures OnlyWritten(ParseLookupEvals(w), LookupBytes(Scalar(w.f)), Any<LookupEvals<F>>())
  {
    hide ParseFr, Scalar, Encodable, Many, WriteAll;
    forall b: seq<byte> | ParseLookupEvals(w)(b).Ok?
      ensures b == LookupBytes(Scalar(w.f))(ParseLookupEvals(w)(b).value.0) + ParseLookupEvals(w)(b).value.1
    {
      ScalarsWritten(w, 5, b);
      FiveWritten(Scalar(w.f), Many(ParseFr(w), 5, b).value.0);
    }
  }

  lemma ShufflesWritten<F(!new)>(w: Wire<F>, n: nat, b: seq<byte>)
    requires Encodable(w.f) && Many(ParseTwo(ParseFr(w)), n, b).Ok?
    ensures var r := Many(ParseTwo(ParseFr(w)), n, b).value; |r.0| == n && b == WriteAll(PairBytes(Scalar(w.f)), r.0) + r.1
  {
    hide ParseFr, ParseTwo, Scalar, Encodable, Many, WriteAll, PairBytes;
    ScalarsLawful(w);
    PairsOnlyWritten(ParseFr(w), Scalar(w.f), Any<F>());
    ManyOnlyWritten(ParseTwo(ParseFr(w)), PairBytes(Scalar(w.f)), PairOk(Any<F>()), n, b);
  }

  lemma LookupEvalsWritten<F(!new)>(w: Wire<F>, n: nat, b: seq<byte>)
    requires Encodable(w.f) && Many(ParseLookupEvals(w), n, b).Ok?
    ensures var r := Many(ParseLookupEvals(w), n, b).value; |r.0| == n && b == WriteAll(LookupBytes(Scalar(w.f)), r.0) + r.1
  {
    hide ParseLookupEvals, Scalar, Encodable, Many, WriteAll, LookupBytes;
    LookupsOnlyWritten(w);
    ManyOnlyWritten(ParseLookupEvals(w), LookupBytes(Scalar(w.f)), Any<LookupEvals<F>>(), n, b);
  }

  lemma EvaluationsWritten<F(!new)>(w: Wire<F>, vk: Key<F>, b: seq<byte>, p: WireProof<F>)
    requires Encodable(w.f) && ParseEvals(w, vk, b).Ok? && ParseEvals(w, vk, b).value.0 == EvalsIn(p)
    ensures b == EvaluationBytes(Scalar(w.f), p, ParseEvals(w, vk, b).value.1)
    ensures |p.adviceEvals| == vk.numAdviceQueries && |p.fixedEvals| == vk.numFixedQueries && |p.permutationCommonEvals| == vk.NumPermColumns()
    ensures |p.permutationProductEvals| == vk.numPermChunks && |p.lookupEvals| == vk.NumLookups() && |p.shuffleEvals| == vk.NumShuffles()
    ensures p.permutationProductEvals != [] ==> p.permutationProductEvals[|p.permutationProductEvals| - 1].2 == w.f.Zero()
  {
    hide ParseFr, ParseTwo, ParseLookupEvals, ParseChunks, Many, WriteAll, Encodable, Scalar, LookupBytes, PairBytes, ChunkBytes;
    var s := ParseFr(w);
    ScalarsWritten(w, vk.numAdviceQueries, b);
    var advice := Many(s, vk.numAdviceQueries, b).value;
    ScalarsWritten(w, vk.numFixedQueries, advice.1);
    var fixed := Many(s, vk.numFixedQueries, advice.1).value;
    ScalarWritten(w, fixed.1);
    var random := s(fixed.1).value;
    ScalarsWritten(w, vk.NumPermColumns(), random.1);
    var common := Many(s, vk.NumPermColumns(), random.1).value;
    ChunksWritten(w, vk.numPermChunks, common.1);
    var products := ParseChunks(w, vk.numPermChunks, common.1).value;
    LookupEvalsWritten(w, vk.NumLookups(), products.1);
    var lookups := Many(ParseLookupEvals(w), vk.NumLookups(), products.1).value;
    ShufflesWritten(w, vk.NumShuffles(), lookups.1);
  }

  /** Accepted bytes are the written bytes of the record they become. */
  lemma AcceptedProofsAreWritten<F(!new)>(ink: Ink<F>, vk: Key<F>, witnesses: nat, b: seq<byte>, w1: seq<byte>, w2: seq<byte>)
    requires Encodable(ink.wire.f) && OnlyWritten(ParseG1(ink.wire), ink.point, ink.ok) && ParseProof(ink.wire, vk, witnesses, b).Ok?
    ensures var c := ParseProof(ink.wire, vk, witnesses, b).value;
      Writable(ink, vk, ProofOf(c, w1, w2), c.opening) && b == ProofBytes(ink, vk, ProofOf(c, w1, w2), c.opening)
  {
    hide ParseG1, ParseCommits, ParseEvals, Many, WriteAll, AllOk, CommitmentBytes, EvaluationBytes, Scalar, OnWire, ZeroPoint, Encodable, OnlyWritten;
    var c := ParseProof(ink.wire, vk, witnesses, b).value;
    var p := ProofOf(c, w1, w2);
    CommitmentsWritten(ink, vk, b, p);
    var afterCommits := ParseCommits(ink.wire, vk, b).value.1;
    EvaluationsWritten(ink.wire, vk, afterCommits, p);
    var afterEvals := ParseEvals(ink.wire, vk, afterCommits).value.1;
    PointsWritten(ink, OpeningPoints(ink.wire.scheme, witnesses), afterEvals);
    assert WriteAll(ink.point, c.opening) + [] == WriteAll(ink.point, c.opening);
  }

  // ----- the two encodings of points -----

  /** SHPLONK proofs carry points as they are kept. */
  ghost function RawInk<F(!new)>(f: Field<F>, decompress: Decompress): Ink<F> {
    Ink(Wire(f, Shplonk, decompress), (p: seq<byte>) => p, (p: seq<byte>) => |p| == 64)
  }

  lemma RawPointsLawful<F(!new)>(f: Field<F>, decompress: Decompress)
    ensures var ink := RawInk(f, decompress);
      ReadsBack(ParseG1(ink.wire), ink.point, ink.ok) && OnlyWritten(ParseG1(ink.wire), ink.point, ink.ok)
  {
    var ink := RawInk(f, decompress);
    forall p: seq<byte>, rest: seq<byte> | ink.ok(p) ensures ParseG1(ink.wire)(ink.point(p) + rest) == Ok((p, rest)) {
      assert (p + rest)[..64] == p && (p + rest)[64..] == rest;
    }
    forall b: seq<byte> | ParseG1(ink.wire)(b).Ok?
      ensures ink.ok(ParseG1(ink.wire)(b).value.0) && b == ink.point(ParseG1(ink.wire)(b).value.0) + ParseG1(ink.wire)(b).value.1
    {
      assert b == b[..64] + b[64..];
    }
  }

  /** Points of the codec survive compression. */
  ghost predicate Compresses(decompress: Decompress, compress: seq<byte> -> seq<byte>, ok: seq<byte> -> bool) {
    forall p :: ok(p) ==> |compress(p)| == 32 && decompress(compress(p)) == Ok(p)
  }

  /** Every point has one compressed form. */
  ghost predicate Canonical(decompress: Decompress, compress: seq<byte> -> seq<byte>, ok: seq<byte> -> bool) {
    forall b :: |b| == 32 && decompress(b).Ok? ==> ok(decompress(b).value) && compress(decompress(b).value) == b
  }

  /** GWC proofs carry points compressed. */
  ghost function CompressedInk<F(!new)>(f: Field<F>, decompress: Decompress, compress: seq<byte> -> seq<byte>, ok: seq<byte> -> bool): Ink<F> {
    Ink(Wire(f, Gwc, decompress), compress, ok)
  }

  lemma CompressedPointsLawful<F(!new)>(f: Field<F>, decompress: Decompress, compress: seq<byte> -> seq<byte>, ok: seq<byte> -> bool)
    ensures var ink := CompressedInk(f, decompress, compress, ok);
      && (Compresses(decompress, compress, ok) ==> ReadsBack(ParseG1(ink.wire), ink.point, ink.ok))
      && (Canonical(decompress, compress, ok) ==> OnlyWritten(ParseG1(ink.wire), ink.point, ink.ok))
  {
    var ink := CompressedInk(f, decompress, compress, ok);
    if Compresses(decompress, compress, ok) {
      forall p: seq<byte>, rest: seq<byte> | ink.ok(p) ensures ParseG1(ink.wire)(ink.point(p) + rest) == Ok((p, rest)) {
        assert |compress(p)| == 32;
        assert (compress(p) + rest)[..32] == compress(p) && (compress(p) + rest)[32..] == rest;
      }
    }
    if Canonical(decompress, compress, ok) {
      forall b: seq<byte> | ParseG1(ink.wire)(b).Ok?
        ensures ink.ok(ParseG1(ink.wire)(b).value.0) && b == ink.point(ParseG1(ink.wire)(b).value.0) + ParseG1(ink.wire)(b).value.1
      {
        assert b == b[..32] + b[32..] && |b[..32]| == 32;
      }
    }
  }
}
