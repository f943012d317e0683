/** The proof parser that does not run the transcript. */
module ProofNoFs {
  import opened Wrappers
  import opened Bytes
  import opened Fields
  import opened Plonk
  import opened Expression
  import opened Formats
  import opened Transcript
  import opened ProofFormat
  import opened ProofScript
  import opened ProofReader

  method ReadG1<F(!new)>(ghost w: Wire<F>, proof: seq<byte>, cur: nat) returns (r: Result<(seq<byte>, nat), Error>)
    requires w.scheme == Shplonk && cur <= |proof|
    ensures Reached(ParseG1(w)(proof[cur..]), r, proof)
  {
    if cur + 64 > |proof| {
      return Err(InvalidProofEncoding);
    }
    assert proof[cur..][..64] == proof[cur..cur + 64] && proof[cur..][64..] == proof[cur + 64..];
    return Ok((proof[cur..cur + 64], cur + 64));
  }

  method ReadScalar<F(!new)>(w: Wire<F>, proof: seq<byte>, cur: nat) returns (r: Result<(F, nat), Error>)
    requires cur <= |proof|
    ensures Reached(ParseFr(w)(proof[cur..]), r, proof)
  {
    hide ScalarFromBytes;
    if cur + 32 > |proof| {
      return Err(InvalidProofEncoding);
    }
    assert proof[cur..][..32] == proof[cur..cur + 32] && proof[cur..][32..] == proof[cur + 32..];
    var a := ScalarFromBytes(w.f, proof[cur..cur + 32]);
    if a.None? {
      return Err(PublicInputOutOfRange);
    }
    return Ok((a.value, cur + 32));
  }

  method ReadG1s<F(!new)>(ghost w: Wire<F>, proof: seq<byte>, from: nat, count: nat) returns (r: Result<(seq<seq<byte>>, nat), Error>)
    requires w.scheme == Shplonk && from <= |proof|
    ensures Reached(Many(ParseG1(w), count, proof[from..]), r, proof)
  {
    hide ParseG1, Many, Prepend;
    var out: seq<seq<byte>>, cur: nat := [], from;
    ManyStart(ParseG1(w), count, proof[from..]);
    for i := 0 to count
      invariant cur <= |proof|
      invariant Prepend(out, Many(ParseG1(w), count - i, proof[cur..])) == Many(ParseG1(w), count, proof[from..])
    {
      ManyStep(ParseG1(w), count - i, out, proof[cur..]);
      var p :- ReadG1(w, proof, cur);
      out, cur := out + [p.0], p.1;
    }
    ManyDone(ParseG1(w), out, proof[cur..]);
    return Ok((out, cur));
  }

  method ReadScalars<F(!new)>(w: Wire<F>, proof: seq<byte>, from: nat, count: nat) returns (r: Result<(seq<F>, nat), Error>)
    requires from <= |proof|
    ensures Reached(Many(ParseFr(w), count, proof[from..]), r, proof)
  {
    hide ParseFr, Many, Prepend;
    var out: seq<F>, cur: nat := [], from;
    ManyStart(ParseFr(w), count, proof[from..]);
    for i := 0 to count
      invariant cur <= |proof|
      invariant Prepend(out, Many(ParseFr(w), count - i, proof[cur..])) == Many(ParseFr(w), count, proof[from..])
    {
      ManyStep(ParseFr(w), count - i, out, proof[cur..]);
      var a :- ReadScalar(w, proof, cur);
      out, cur := out + [a.0], a.1;
    }
    ManyDone(ParseFr(w), out, proof[cur..]);
    return Ok((out, cur));
  }

  /** The advice commitments, phase by phase, stored by column. */
  method ReadAdvice<F(!new)>(ghost w: Wire<F>, vk: Key<F>, proof: seq<byte>) returns (r: Result<(seq<seq<byte>>, nat), Error>)
    requires w.scheme == Shplonk
    ensures !AdviceTabled(vk) ==> r == Err(Protocol)
    ensures AdviceTabled(vk) ==>
      var wire := Many(ParseG1(w), |WireOrder(vk)|, proof);
      if wire.Err? then r == Err(wire.error)
      else
        && r.Ok? && r.value.1 <= |proof| && wire.value.1 == proof[r.value.1..]
        && Stored(ZeroPoints(vk.numAdvice), WireOrder(vk), wire.value.0, r.value.0)
  {
    hide ParseG1, Many, Prepend, Stored, PhaseOrder;
    if vk.numPhases <= 1 && vk.adviceColumnPhase == [] {
      r := ReadInOrder(w, vk, proof);
    } else {
      if |vk.adviceColumnPhase| != vk.numAdvice {
        return Err(Protocol);
      }
      r := ReadByPhase(w, vk, proof);
    }
  }

  method ReadInOrder<F(!new)>(ghost w: Wire<F>, vk: Key<F>, proof: seq<byte>) returns (r: Result<(seq<seq<byte>>, nat), Error>)
    requires w.scheme == Shplonk
    ensures var wire := Many(ParseG1(w), vk.numAdvice, proof);
      if wire.Err? then r == Err(wire.error)
      else
        && r.Ok? && r.value.1 <= |proof| && wire.value.1 == proof[r.value.1..]
        && Stored(ZeroPoints(vk.numAdvice), Ascending(vk.numAdvice), wire.value.0, r.value.0)
  {
    hide ParseG1, Many, Prepend, Stored;
    var commits: seq<seq<byte>> := seq(vk.numAdvice, _ => seq(64, _ => 0 as byte));
    assert commits == ZeroPoints(vk.numAdvice);
    var cur: nat := 0;
    ghost var points: seq<seq<byte>> := [];
    assert proof[0..] == proof;
    ManyStart(ParseG1(w), vk.numAdvice, proof);
    StoreNothing(ZeroPoints(vk.numAdvice));
    for c := 0 to vk.numAdvice
      invariant cur <= |proof| && |commits| == vk.numAdvice && |points| == c
      invariant Stored(ZeroPoints(vk.numAdvice), Ascending(c), points, commits)
      invariant Prepend(points, Many(ParseG1(w), vk.numAdvice - c, proof[cur..])) == Many(ParseG1(w), vk.numAdvice, proof)
    {
      ManyStep(ParseG1(w), vk.numAdvice - c, points, proof[cur..]);
      var p :- ReadG1(w, proof, cur);
      StoreOne(ZeroPoints(vk.numAdvice), Ascending(c), points, commits, c, p.0);
      assert Ascending(c) + [c] == Ascending(c + 1);
      commits, cur, points := commits[c := p.0], p.1, points + [p.0];
    }
    ManyDone(ParseG1(w), points, proof[cur..]);
    return Ok((commits, cur));
  }

  method ReadByPhase<F(!new)>(ghost w: Wire<F>, vk: Key<F>, proof: seq<byte>) returns (r: Result<(seq<seq<byte>>, nat), Error>)
    requires w.scheme == Shplonk && |vk.adviceColumnPhase| == vk.numAdvice
    ensures var wire := Many(ParseG1(w), |PhaseOrder(vk.adviceColumnPhase, vk.numPhases)|, proof);
      if wire.Err? then r == Err(wire.error)
      else
        && r.Ok? && r.value.1 <= |proof| && wire.value.1 == proof[r.value.1..]
        && Stored(ZeroPoints(vk.numAdvice), PhaseOrder(vk.adviceColumnPhase, vk.numPhases), wire.value.0, r.value.0)
  {
    hide ParseG1, Many, Prepend, Stored, PhaseOrder;
    var phases := vk.adviceColumnPhase;
    var commits: seq<seq<byte>> := seq(|phases|, _ => seq(64, _ => 0 as byte));
    assert commits == ZeroPoints(|phases|);
    var cur: nat := 0;
    ghost var points: seq<seq<byte>> := [];
    ghost var total := |PhaseOrder(phases, vk.numPhases)|;
    ghost var whole := Many(ParseG1(w), total, proof);
    OrderStart(w, phases, total, proof);
    for p := 0 to vk.numPhases
      invariant cur <= |proof| && |commits| == |phases| && |points| <= total
      invariant Stored(ZeroPoints(|phases|), PhaseOrder(phases, p), points, commits)
      invariant whole == Prepend(points, Many(ParseG1(w), total - |points|, proof[cur..]))
    {
      var step;
      step, points := ReadPhase(w, phases, vk.numPhases, proof, cur, p, commits, points);
      if step.Err? {
        return Err(step.error);
      }
      StoredLength(ZeroPoints(|phases|), PhaseOrder(phases, p + 1), points, step.value.0);
      commits, cur := step.value.0, step.value.1;
    }
    StoredLength(ZeroPoints(|phases|), PhaseOrder(phases, vk.numPhases), points, commits);
    ManyDone(ParseG1(w), points, proof[cur..]);
    return Ok((commits, cur));
  }

  lemma OrderStart<F(!new)>(w: Wire<F>, phases: seq<byte>, total: nat, proof: seq<byte>)
    ensures Stored(ZeroPoints(|phases|), PhaseOrder(phases, 0), [], ZeroPoints(|phases|))
    ensures Many(ParseG1(w), total, proof) == Prepend([], Many(ParseG1(w), total, proof[0..]))
  {
    hide Many, Prepend, PhaseOrder, Stored;
    assert proof[0..] == proof;
    OrderEnds(phases, 0, 0);
    ManyStart(ParseG1(w), total, proof);
    StoreNothing(ZeroPoints(|phases|));
  }

  method ReadPhase<F(!new)>(ghost w: Wire<F>, phases: seq<byte>, n: nat, proof: seq<byte>, from: nat, p: byte,
                            commits0: seq<seq<byte>>, ghost points0: seq<seq<byte>>)
    returns (r: Result<(seq<seq<byte>>, nat), Error>, ghost points: seq<seq<byte>>)
    requires w.scheme == Shplonk && from <= |proof| && p < n && |commits0| == |phases|
    requires Stored(ZeroPoints(|phases|), PhaseOrder(phases, p), points0, commits0) && |points0| <= |PhaseOrder(phases, n)|
    ensures var total := |PhaseOrder(phases, n)|;
      var whole := Prepend(points0, Many(ParseG1(w), total - |points0|, proof[from..]));
      if r.Err? then whole == Err(r.error)
      else
        && r.value.1 <= |proof| && |points| <= total && Stored(ZeroPoints(|phases|), PhaseOrder(phases, p + 1), points, r.value.0)
        && whole == Prepend(points, Many(ParseG1(w), total - |points|, proof[r.value.1..]))
  {
    hide ParseG1, Many, Prepend, Stored, PhaseOrder, OrderTo;
    var commits, cur: nat := commits0, from;
    points := points0;
    ghost var total := |PhaseOrder(phases, n)|;
    ghost var whole := Prepend(points0, Many(ParseG1(w), total - |points0|, proof[from..]));
    OrderEnds(phases, p, n);
    OrderGrowsTo(phases, p as nat + 1, n);
    for c := 0 to |phases|
      invariant cur <= |proof| && |commits| == |phases| && |points| <= total
      invariant Stored(ZeroPoints(|phases|), OrderTo(phases, p, c), points, commits)
      invariant whole == Prepend(points, Many(ParseG1(w), total - |points|, proof[cur..]))
    {
      OrderToStep(phases, p, c, n);
      if phases[c] == p {
        StoredLength(ZeroPoints(|phases|), OrderTo(phases, p, c), points, commits);
        ManyStep(ParseG1(w), total - |points|, points, proof[cur..]);
        var point := ReadG1(w, proof, cur);
        if point.Err? {
          return Err(point.error), points;
        }
        StoreOne(ZeroPoints(|phases|), OrderTo(phases, p, c), points, commits, c, point.value.0);
        commits, cur := commits[c := point.value.0], point.value.1;
        points := points + [point.value.0];
      }
    }
    StoredLength(ZeroPoints(|phases|), OrderTo(phases, p, |phases|), points, commits);
    return Ok((commits, cur)), points;
  }

  method ReadPermuted<F(!new)>(ghost w: Wire<F>, proof: seq<byte>, from: nat, count: nat)
    returns (r: Result<(seq<seq<byte>>, seq<seq<byte>>, nat), Error>)
    requires w.scheme == Shplonk && from <= |proof|
    ensures var pairs := Many(ParseTwo(ParseG1(w)), count, proof[from..]);
      if pairs.Err? then r == Err(pairs.error)
      else
        && r.Ok? && r.value.2 <= |proof| && pairs.value.1 == proof[r.value.2..]
        && r.value.0 == Firsts(pairs.value.0) && r.value.1 == Seconds(pairs.value.0)
  {
    hide ParseG1, Many, Prepend;
    var inputs: seq<seq<byte>>, tables: seq<seq<byte>>, cur: nat := [], [], from;
    ghost var pairs: seq<(seq<byte>, seq<byte>)> := [];
    ghost var two := ParseTwo(ParseG1(w));
    ManyStart(two, count, proof[from..]);
    for i := 0 to count
      invariant cur <= |proof| && inputs == Firsts(pairs) && tables == Seconds(pairs)
      invariant Prepend(pairs, Many(two, count - i, proof[cur..])) == Many(two, count, proof[from..])
    {
      ManyStep(two, count - i, pairs, proof[cur..]);
      var a :- ReadG1(w, proof, cur);
      var b :- ReadG1(w, proof, a.1);
      inputs, tables, cur := inputs + [a.0], tables + [b.0], b.1;
      pairs := pairs + [(a.0, b.0)];
    }
    ManyDone(two, pairs, proof[cur..]);
    return Ok((inputs, tables, cur));
  }

  method ReadProducts<F(!new)>(ghost w: Wire<F>, vk: Key<F>, proof: seq<byte>, from: nat) returns (r: Result<(Products, nat), Error>)
    requires w.scheme == Shplonk && from <= |proof|
    ensures Reached(ParseProducts(w, vk, proof[from..]), r, proof)
  {
    hide ParseG1, Many;
    var perm :- ReadG1s(w, proof, from, vk.numPermChunks);
    var lookups :- ReadG1s(w, proof, perm.1, vk.NumLookups());
    var shuffles :- ReadG1s(w, proof, lookups.1, vk.NumShuffles());
    var random :- ReadG1(w, proof, shuffles.1);
    var h :- ReadG1s(w, proof, random.1, Pieces(vk.csDegree));
    return Ok((Products(perm.0, lookups.0, shuffles.0, random.0, h.0), h.1));
  }

  method ReadChunks<F(!new)>(w: Wire<F>, proof: seq<byte>, from: nat, count: nat) returns (r: Result<(seq<(F, F, F)>, nat), Error>)
    requires from <= |proof|
    ensures Reached(ParseChunks(w, count, proof[from..]), r, proof)
  {
    hide ParseFr, Prepend, ParseChunks;
    var out: seq<(F, F, F)>, cur: nat := [], from;
    PrependTwice([], [], ParseChunks(w, count, proof[from..]));
    for i := 0 to count
      invariant cur <= |proof|
      invariant Prepend(out, ParseChunks(w, count - i, proof[cur..])) == ParseChunks(w, count, proof[from..])
    {
      ChunkStep(w, count - i, out, proof[cur..], []);
      var z :- ReadScalar(w, proof, cur);
      var zOmega :- ReadScalar(w, proof, z.1);
      if i + 1 < count {
        var zLast :- ReadScalar(w, proof, zOmega.1);
        out, cur := out + [(z.0, zOmega.0, zLast.0)], zLast.1;
      } else {
        out, cur := out + [(z.0, zOmega.0, w.f.Zero())], zOmega.1;
      }
    }
    NoChunks(w, out, proof[cur..], []);
    return Ok((out, cur));
  }

  method ReadLookupEvals<F(!new)>(w: Wire<F>, proof: seq<byte>, from: nat, count: nat) returns (r: Result<(seq<LookupEvals<F>>, nat), Error>)
    requires from <= |proof|
    ensures Reached(Many(ParseLookupEvals(w), count, proof[from..]), r, proof)
  {
    hide ParseFr, ParseLookupEvals, Many, Prepend;
    var out: seq<LookupEvals<F>>, cur: nat := [], from;
    ManyStart(ParseLookupEvals(w), count, proof[from..]);
    for i := 0 to count
      invariant cur <= |proof|
      invariant Prepend(out, Many(ParseLookupEvals(w), count - i, proof[cur..])) == Many(ParseLookupEvals(w), count, proof[from..])
    {
      ManyStep(ParseLookupEvals(w), count - i, out, proof[cur..]);
      FiveScalars(w, proof[cur..], []);
      var product :- ReadScalar(w, proof, cur);
      var productNext :- ReadScalar(w, proof, product.1);
      var input :- ReadScalar(w, proof, productNext.1);
      var inputInv :- ReadScalar(w, proof, input.1);
      var table :- ReadScalar(w, proof, inputInv.1);
      out, cur := out + [LookupEvals(product.0, productNext.0, input.0, inputInv.0, table.0)], table.1;
    }
    ManyDone(ParseLookupEvals(w), out, proof[cur..]);
    return Ok((out, cur));
  }

  method ReadShuffleEvals<F(!new)>(w: Wire<F>, proof: seq<byte>, from: nat, count: nat) returns (r: Result<(seq<(F, F)>, nat), Error>)
    requires from <= |proof|
    ensures Reached(Many(ParseTwo(ParseFr(w)), count, proof[from..]), r, proof)
  {
    hide ParseFr, Many, Prepend;
    var out: seq<(F, F)>, cur: nat := [], from;
    ghost var two := ParseTwo(ParseFr(w));
    ManyStart(two, count, proof[from..]);
    for i := 0 to count
      invariant cur <= |proof|
      invariant Prepend(out, Many(two, count - i, proof[cur..])) == Many(two, count, proof[from..])
    {
      ManyStep(two, count - i, out, proof[cur..]);
      var a :- ReadScalar(w, proof, cur);
      var b :- ReadScalar(w, proof, a.1);
      out, cur := out + [(a.0, b.0)], b.1;
    }
    ManyDone(two, out, proof[cur..]);
    return Ok((out, cur));
  }

  method ReadEvaluations<F(!new)>(w: Wire<F>, vk: Key<F>, proof: seq<byte>, from: nat) returns (r: Result<(Evals<F>, nat), Error>)
    requires from <= |proof|
    ensures Reached(ParseEvals(w, vk, proof[from..]), r, proof)
  {
    hide ParseFr, ParseTwo, Many, ParseChunks, ParseLookupEvals;
    var advice :- ReadScalars(w, proof, from, vk.numAdviceQueries);
    var fixed :- ReadScalars(w, proof, advice.1, vk.numFixedQueries);
    var random :- ReadScalar(w, proof, fixed.1);
    var common :- ReadScalars(w, proof, random.1, vk.NumPermColumns());
    var products :- ReadChunks(w, proof, common.1, vk.numPermChunks);
    var lookups :- ReadLookupEvals(w, proof, products.1, vk.NumLookups());
    var shuffles :- ReadShuffleEvals(w, proof, lookups.1, vk.NumShuffles());
    return Ok((Evals(advice.0, fixed.0, random.0, common.0, products.0, lookups.0, shuffles.0), shuffles.1));
  }

  /** Parses a SHPLONK proof alone: the same contents as the reader with the transcript. */
  method ParseProofNoFs<F(!new)>(w: Wire<F>, vk: Key<F>, proof: seq<byte>, ghost witnesses: nat) returns (r: Result<WireProof<F>, Error>)
    requires w.scheme == Shplonk
    ensures var c := ParseProof(w, vk, witnesses, proof);
      r == if c.Err? then Err(c.error) else Ok(ProofOf(c.value, c.value.opening[0], c.value.opening[1]))
  {
    hide ParseG1, ParseTwo, Many, ParseProducts, ParseEvals, WireOrder, Placed;
    var advice :- ReadAdvice(w, vk, proof);
    var permuted :- ReadPermuted(w, proof, advice.1, vk.NumLookups());
    var products :- ReadProducts(w, vk, proof, permuted.2);
    var evals :- ReadEvaluations(w, vk, proof, products.1);
    TwoPoints(w, proof[evals.1..]);
    var openingW :- ReadG1(w, proof, evals.1);
    var openingWPrime :- ReadG1(w, proof, openingW.1);
    if openingWPrime.1 != |proof| {
      return Err(InvalidProofEncoding);
    }
    var p, e := products.0, evals.0;
    return Ok(PlonkProof(advice.0, p.perm, p.randomPoly, p.h, e.advice, e.fixed, e.randomPoly, e.common, e.products, permuted.0, permuted.1,
                         p.lookups, e.lookups, p.shuffles, e.shuffles, openingW.0, openingWPrime.0));
  }

  lemma TwoPoints<F(!new)>(w: Wire<F>, b: seq<byte>)
    ensures var g := ParseG1(w);
      Many(g, 2, b) ==
      if g(b).Err? then Err(g(b).error)
      else if g(g(b).value.1).Err? then Err(g(g(b).value.1).error)
      else Ok(([g(b).value.0, g(g(b).value.1).value.0], g(g(b).value.1).value.1))
  {
    hide ParseG1, Many, Prepend;
    var g := ParseG1(w);
    ManyStart(g, 2, b);
    ManyStep(g, 2, [], b);
    if g(b).Ok? {
      assert [] + [g(b).value.0] == [g(b).value.0];
      ManyStep(g, 1, [g(b).value.0], g(b).value.1);
      if g(g(b).value.1).Ok? {
        assert [g(b).value.0] + [g(g(b).value.1).value.0] == [g(b).value.0, g(g(b).value.1).value.0];
        ManyDone(g, [g(b).value.0, g(g(b).value.1).value.0], g(g(b).value.1).value.1);
      }
    }
  }
}
