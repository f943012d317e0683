/**
 The proof readers as they run. One interleaves reading with the transcript, the other reads alone;
 both return what the format says. The transcript is tracked against the script, read by read.
 */
module ProofReader {
  import opened Wrappers
  import opened Bytes
  import opened Fields
  import opened Plonk
  import opened Expression
  import opened Formats
  import opened Transcript
  import opened ProofFormat
  import opened ProofScript

  // ----- following the script -----

  /** Where a reader is: the events before it started, the script and what is left of it, the cursor,
      and every challenge drawn so far. */
  datatype Track<F> = Track(start: seq<Event>, script: seq<Op>, left: seq<Op>, cur: nat, drawn: seq<F>)

  ghost predicate Fits(scheme: Scheme, e: Event, op: Op) {
    match op
    case Squeeze => e.Squeezed?
    case _ => e.Absorbed? && |e.bytes| == Width(scheme, op)
  }

  ghost predicate Matches(scheme: Scheme, run: seq<Event>, ops: seq<Op>) {
    |run| == |ops| && forall i :: 0 <= i < |run| ==> Fits(scheme, run[i], ops[i])
  }

  /** The absorbed bytes, in order. */
  ghost function Data(run: seq<Event>): seq<byte> {
    if run == [] then []
    else
      var last := run[|run| - 1];
      Data(run[..|run| - 1]) + if last.Absorbed? then last.bytes else []
  }

  ghost function Draw<F(!new)>(f: Field<F>, hash: Digest, inputs: seq<seq<byte>>): (d: seq<F>)
    ensures |d| == |inputs|
  {
    seq(|inputs|, i requires 0 <= i < |inputs| => ChallengeOf(f, hash, inputs[i]))
  }

  /** The events since the start are the script's reads and squeezes so far, their data is the proof up
      to the cursor, and the challenges are the digests of the hashed inputs. */
  ghost predicate TracksAt<F(!new)>(f: Field<F>, scheme: Scheme, hash: Digest, events: seq<Event>, proof: seq<byte>, k: Track<F>) {
    && k.start <= events && |k.left| <= |k.script| && k.left == k.script[|k.script| - |k.left|..]
    && Matches(scheme, events[|k.start|..], k.script[..|k.script| - |k.left|])
    && k.cur <= |proof| && Data(events[|k.start|..]) == proof[..k.cur]
    && k.drawn == Draw(f, hash, HashInputs(scheme, hash, events))
  }

  ghost predicate Tracks<F(!new)>(f: Field<F>, t: Transcript, proof: seq<byte>, k: Track<F>)
    reads t
  {
    t.Valid() && TracksAt(f, t.scheme, t.hash, t.events, proof, k)
  }

  /** One more event for one more operation. */
  lemma MatchesSnoc(scheme: Scheme, run: seq<Event>, script: seq<Op>, m: nat, e: Event)
    requires m < |script| && Matches(scheme, run, script[..m]) && Fits(scheme, e, script[m])
    ensures Matches(scheme, run + [e], script[..m + 1])
    ensures Data(run + [e]) == Data(run) + if e.Absorbed? then e.bytes else []
  {
    hide Fits;
    assert (run + [e])[..|run|] == run;
    assert script[..m + 1] == script[..m] + [script[m]];
  }

  lemma SuffixSnoc(start: seq<Event>, events: seq<Event>, e: Event)
    requires start <= events
    ensures start <= events + [e] && (events + [e])[|start|..] == events[|start|..] + [e]
  {
  }

  lemma LeftSnoc(script: seq<Op>, left: seq<Op>)
    requires |left| <= |script| && left == script[|script| - |left|..] && left != []
    ensures script[|script| - |left|] == left[0] && left[1..] == script[|script| - |left| + 1..]
  {
  }

  lemma StepRead<F(!new)>(f: Field<F>, scheme: Scheme, hash: Digest, events: seq<Event>, proof: seq<byte>, k: Track<F>)
    requires TracksAt(f, scheme, hash, events, proof, k) && k.left != [] && k.left[0] != Squeeze
    requires k.cur + Width(scheme, k.left[0]) <= |proof|
    ensures var n := Width(scheme, k.left[0]);
      TracksAt(f, scheme, hash, events + [Absorbed(proof[k.cur..k.cur + n])], proof, k.(left := k.left[1..], cur := k.cur + n))
  {
    hide Draw, PointLen, Matches, Data, HashInputs;
    var n := Width(scheme, k.left[0]);
    var e := Absorbed(proof[k.cur..k.cur + n]);
    LeftSnoc(k.script, k.left);
    SuffixSnoc(k.start, events, e);
    MatchesSnoc(scheme, events[|k.start|..], k.script, |k.script| - |k.left|, e);
    assert proof[..k.cur + n] == proof[..k.cur] + proof[k.cur..k.cur + n];
    HashInputsSnoc(scheme, hash, events, e);
    assert HashInputs(scheme, hash, events) + [] == HashInputs(scheme, hash, events);
  }

  lemma StepSqueeze<F(!new)>(f: Field<F>, scheme: Scheme, hash: Digest, events: seq<Event>, proof: seq<byte>, k: Track<F>)
    requires TracksAt(f, scheme, hash, events, proof, k) && k.left != [] && k.left[0] == Squeeze
    ensures var c := ChallengeOf(f, hash, HashInput(scheme, hash, events));
      TracksAt(f, scheme, hash, events + [Squeezed], proof, k.(left := k.left[1..], drawn := k.drawn + [c]))
  {
    hide HashInput, ChallengeOf, Matches, Data, HashInputs;
    LeftSnoc(k.script, k.left);
    SuffixSnoc(k.start, events, Squeezed);
    MatchesSnoc(scheme, events[|k.start|..], k.script, |k.script| - |k.left|, Squeezed);
    assert proof[..k.cur] + [] == proof[..k.cur];
    HashInputsSnoc(scheme, hash, events, Squeezed);
  }

  // ----- one read, one squeeze -----

  /** A read returned what the format says, and the cursor points behind it. */
  ghost predicate Reached<V>(parsed: Result<(V, seq<byte>), Error>, r: Result<(V, nat), Error>, proof: seq<byte>) {
    if parsed.Err? then r == Err(parsed.error)
    else r.Ok? && r.value.0 == parsed.value.0 && r.value.1 <= |proof| && parsed.value.1 == proof[r.value.1..]
  }

  ghost function WireOf<F(!new)>(f: Field<F>, t: Transcript): Wire<F> {
    Wire(f, t.scheme, t.decompress)
  }

  method NextPoint<F(!new)>(f: Field<F>, t: Transcript, proof: seq<byte>, cur: nat, ghost k0: Track<F>)
    returns (r: Result<(seq<byte>, nat), Error>, ghost k: Track<F>)
    requires Tracks(f, t, proof, k0) && k0.cur == cur && k0.left != [] && k0.left[0] == Point
    modifies t
    ensures Tracks(f, t, proof, k) && k.start == k0.start && k.script == k0.script
    ensures Reached(ParseG1(WireOf(f, t))(proof[cur..]), r, proof)
    ensures r.Ok? ==> k == k0.(left := k0.left[1..], cur := r.value.1)
  {
    hide Digests, DecodePoint, PointLen, TracksAt, BufferOf, ParseG1;
    k := k0;
    ghost var events := t.events;
    CursorBound(f, t, proof, k0);
    PointAt(WireOf(f, t), proof, cur);
    var p := t.ReadG1(proof, cur);
    if p.Err? {
      return Err(p.error), k;
    }
    var n := PointLen(t.scheme);
    StepRead(f, t.scheme, t.hash, events, proof, k0);
    k := k0.(left := k0.left[1..], cur := cur + n);
    return Ok((p.value, cur + n)), k;
  }

  /** Reading a point off a suffix of the proof. */
  lemma PointAt<F(!new)>(w: Wire<F>, proof: seq<byte>, cur: nat)
    requires cur <= |proof|
    ensures var n := PointLen(w.scheme);
      ParseG1(w)(proof[cur..]) ==
      if |proof| < cur + n then Err(InvalidProofEncoding)
      else
        var p := DecodePoint(w.scheme, w.decompress, proof[cur..cur + n]);
        if p.Err? then Err(p.error) else Ok((p.value, proof[cur + n..]))
  {
    hide DecodePoint, PointLen;
    var n := PointLen(w.scheme);
    if |proof| >= cur + n {
      assert proof[cur..][..n] == proof[cur..cur + n] && proof[cur..][n..] == proof[cur + n..];
    }
  }

  lemma CursorBound<F(!new)>(f: Field<F>, t: Transcript, proof: seq<byte>, k: Track<F>)
    requires Tracks(f, t, proof, k)
    ensures k.cur <= |proof|
  {
  }

  method NextScalar<F(!new)>(f: Field<F>, t: Transcript, proof: seq<byte>, cur: nat, ghost k0: Track<F>)
    returns (r: Result<(F, nat), Error>, ghost k: Track<F>)
    requires Tracks(f, t, proof, k0) && k0.cur == cur && k0.left != [] && k0.left[0] == Scalar
    modifies t
    ensures Tracks(f, t, proof, k) && k.start == k0.start && k.script == k0.script
    ensures Reached(ParseFr(WireOf(f, t))(proof[cur..]), r, proof)
    ensures r.Ok? ==> k == k0.(left := k0.left[1..], cur := r.value.1)
  {
    hide Digests, ScalarFromBytes, TracksAt, BufferOf;
    k := k0;
    ghost var events := t.events;
    CursorBound(f, t, proof, k0);
    var a := t.ReadScalar(f, proof, cur);
    ghost var rest := proof[cur..];
    assert |proof| >= cur + 32 ==> rest[..32] == proof[cur..cur + 32] && rest[32..] == proof[cur + 32..];
    if a.Err? {
      return Err(a.error), k;
    }
    StepRead(f, t.scheme, t.hash, events, proof, k0);
    k := k0.(left := k0.left[1..], cur := cur + 32);
    return Ok((a.value, cur + 32)), k;
  }

  method NextChallenge<F(!new)>(f: Field<F>, t: Transcript, ghost proof: seq<byte>, ghost k0: Track<F>)
    returns (c: F, ghost k: Track<F>)
    requires Tracks(f, t, proof, k0) && k0.left != [] && k0.left[0] == Squeeze
    modifies t
    ensures Tracks(f, t, proof, k) && k == k0.(left := k0.left[1..], drawn := k0.drawn + [c])
  {
    hide Digests, TracksAt, BufferOf, HashInput, ChallengeOf;
    ghost var events := t.events;
    c := t.SqueezeChallenge(f);
    StepSqueeze(f, t.scheme, t.hash, events, proof, k0);
    k := k0.(left := k0.left[1..], drawn := k0.drawn + [c]);
  }

  // ----- counted reads -----

  lemma Unfold(unit: seq<Op>, n: nat, tail: seq<Op>)
    requires n > 0
    ensures Times(unit, n) + tail == unit + (Times(unit, n - 1) + tail)
  {
  }

  lemma Folded(unit: seq<Op>, tail: seq<Op>)
    ensures Times(unit, 0) + tail == tail
  {
  }

  method ReadG1s<F(!new)>(f: Field<F>, t: Transcript, proof: seq<byte>, from: nat, count: nat, ghost tail: seq<Op>, ghost k0: Track<F>)
    returns (r: Result<(seq<seq<byte>>, nat), Error>, ghost k: Track<F>)
    requires Tracks(f, t, proof, k0) && k0.cur == from && k0.left == Times([Point], count) + tail
    modifies t
    ensures Tracks(f, t, proof, k) && k.start == k0.start && k.script == k0.script
    ensures from <= |proof| && Reached(Many(ParseG1(WireOf(f, t)), count, proof[from..]), r, proof)
    ensures r.Ok? ==> k == k0.(left := tail, cur := r.value.1)
  {
    hide Tracks, Times, ParseG1, Many, Prepend;
    assert from <= |proof| by { CursorBound(f, t, proof, k0); }
    ghost var g := ParseG1(WireOf(f, t));
    var out: seq<seq<byte>>, cur: nat := [], from;
    k := k0;
    ManyStart(g, count, proof[from..]);
    Folded([Point], tail);
    for i := 0 to count
      invariant cur <= |proof| && Tracks(f, t, proof, k)
      invariant k == k0.(left := Times([Point], count - i) + tail, cur := cur)
      invariant Prepend(out, Many(g, count - i, proof[cur..])) == Many(g, count, proof[from..])
    {
      Unfold([Point], count - i, tail);
      ManyStep(g, count - i, out, proof[cur..]);
      var p;
      p, k := NextPoint(f, t, proof, cur, k);
      if p.Err? {
        return Err(p.error), k;
      }
      out, cur := out + [p.value.0], p.value.1;
    }
    ManyDone(g, out, proof[cur..]);
    return Ok((out, cur)), k;
  }

  method ReadScalars<F(!new)>(f: Field<F>, t: Transcript, proof: seq<byte>, from: nat, count: nat, ghost tail: seq<Op>, ghost k0: Track<F>)
    returns (r: Result<(seq<F>, nat), Error>, ghost k: Track<F>)
    requires Tracks(f, t, proof, k0) && k0.cur == from && k0.left == Times([Scalar], count) + tail
    modifies t
    ensures Tracks(f, t, proof, k) && k.start == k0.start && k.script == k0.script
    ensures from <= |proof| && Reached(Many(ParseFr(WireOf(f, t)), count, proof[from..]), r, proof)
    ensures r.Ok? ==> k == k0.(left := tail, cur := r.value.1)
  {
    hide Tracks, Times, ParseFr, Many, Prepend;
    assert from <= |proof| by { CursorBound(f, t, proof, k0); }
    ghost var s := ParseFr(WireOf(f, t));
    var out: seq<F>, cur: nat := [], from;
    k := k0;
    ManyStart(s, count, proof[from..]);
    Folded([Scalar], tail);
    for i := 0 to count
      invariant cur <= |proof| && Tracks(f, t, proof, k)
      invariant k == k0.(left := Times([Scalar], count - i) + tail, cur := cur)
      invariant Prepend(out, Many(s, count - i, proof[cur..])) == Many(s, count, proof[from..])
    {
      Unfold([Scalar], count - i, tail);
      ManyStep(s, count - i, out, proof[cur..]);
      var a;
      a, k := NextScalar(f, t, proof, cur, k);
      if a.Err? {
        return Err(a.error), k;
      }
      out, cur := out + [a.value.0], a.value.1;
    }
    ManyDone(s, out, proof[cur..]);
    return Ok((out, cur)), k;
  }

  // ----- advice commitments and user challenges, phase by phase -----

  ghost function ChallengeOrder<F>(vk: Key<F>): seq<nat> {
    if SinglePhase(vk) then Ascending(vk.numChallenges) else PhaseOrder(vk.challengePhase, vk.numPhases)
  }

  ghost function ZeroScalars<F(!new)>(f: Field<F>, n: nat): (s: seq<F>)
    ensures |s| == n
  {
    seq(n, _ => f.Zero())
  }

  /** Points read so far, in wire order, and where they have been stored. */
  ghost predicate Stored<V>(initial: seq<V>, order: seq<nat>, values: seq<V>, stored: seq<V>) {
    |values| == |order| && Below(order, |initial|) && stored == Placed(initial, order, values)
  }

  lemma StoreNothing<V>(initial: seq<V>)
    ensures Stored(initial, [], [], initial)
  {
  }

  lemma StoreOne<V>(initial: seq<V>, order: seq<nat>, values: seq<V>, stored: seq<V>, c: nat, v: V)
    requires Stored(initial, order, values, stored) && c < |initial|
    ensures |stored| == |initial| && Stored(initial, order + [c], values + [v], stored[c := v])
  {
    assert (order + [c])[..|order|] == order && (values + [v])[..|values|] == values;
  }

  /** The order up to column c of phase p. */
  ghost function OrderTo(phases: seq<byte>, p: nat, c: nat): (s: seq<nat>)
    requires c <= |phases|
    ensures Below(s, |phases|)
  {
    PhaseOrder(phases, p) + ColumnsOf(phases, p, c)
  }

  lemma OrderToStep(phases: seq<byte>, p: nat, c: nat, n: nat)
    requires c < |phases| && p < n
    ensures OrderTo(phases, p, 0) == PhaseOrder(phases, p)
    ensures OrderTo(phases, p, c + 1) == if phases[c] == p then OrderTo(phases, p, c) + [c] else OrderTo(phases, p, c)
    ensures OrderTo(phases, p, |phases|) == PhaseOrder(phases, p + 1)
    ensures phases[c] == p ==> |OrderTo(phases, p, c)| < |PhaseOrder(phases, n)|
  {
    hide PhaseOrder;
    OrderEnds(phases, p, 0);
    CountMeets(phases, p, c);
    OrderGrowsTo(phases, p + 1, n);
    var before := PhaseOrder(phases, p);
    assert before + ColumnsOf(phases, p, c) + [c] == before + (ColumnsOf(phases, p, c) + [c]);
    assert before + ColumnsOf(phases, p, c) + [] == before + (ColumnsOf(phases, p, c) + []);
  }

  lemma OrderEnds(phases: seq<byte>, p: nat, n: nat)
    ensures OrderTo(phases, p, 0) == PhaseOrder(phases, p) && OrderTo(phases, p, |phases|) == PhaseOrder(phases, p + 1)
    ensures PhaseOrder(phases, 0) == []
  {
    hide ColumnsOf;
    NoColumns(phases, p);
  }

  lemma {:induction false} OrderGrowsTo(phases: seq<byte>, p: nat, n: nat)
    requires p <= n
    ensures |PhaseOrder(phases, p)| <= |PhaseOrder(phases, n)|
    decreases n - p
  {
    hide PhaseOrder;
    if p < n {
      OrderGrowsTo(phases, p + 1, n);
      OrderEnds(phases, p, n);
    }
  }

  lemma CountStep(phases: seq<byte>, p: nat, c: nat, unit: seq<Op>, tail: seq<Op>)
    requires c < |phases|
    ensures Times(unit, CountFrom(phases, p, c)) + tail ==
            if phases[c] == p then unit + (Times(unit, CountFrom(phases, p, c + 1)) + tail) else Times(unit, CountFrom(phases, p, c + 1)) + tail
  {
    hide Times;
    if phases[c] == p {
      Unfold(unit, CountFrom(phases, p, c), tail);
    }
  }

  lemma CountEnd(phases: seq<byte>, p: nat, unit: seq<Op>, tail: seq<Op>)
    ensures Times(unit, CountFrom(phases, p, |phases|)) + tail == tail
  {
  }

  /** Reads the next point of the wire order and stores it for column c. */
  method TakePoint<F(!new)>(f: Field<F>, t: Transcript, proof: seq<byte>, from: nat, commits: seq<seq<byte>>, c: nat,
                            ghost initial: seq<seq<byte>>, ghost order: seq<nat>, ghost total: nat, ghost points0: seq<seq<byte>>,
                            ghost whole: Result<(seq<seq<byte>>, seq<byte>), Error>, ghost k0: Track<F>)
    returns (r: Result<(seq<seq<byte>>, nat), Error>, ghost points: seq<seq<byte>>, ghost k: Track<F>)
    requires Tracks(f, t, proof, k0) && k0.cur == from <= |proof| && k0.left != [] && k0.left[0] == Point
    requires Stored(initial, order, points0, commits) && c < |initial| && |points0| < total
    requires whole == Prepend(points0, Many(ParseG1(WireOf(f, t)), total - |points0|, proof[from..]))
    modifies t
    ensures Tracks(f, t, proof, k) && k.start == k0.start && k.script == k0.script
    ensures r.Err? ==> whole == Err(r.error)
    ensures r.Ok? ==>
      && k == k0.(left := k0.left[1..], cur := r.value.1) && r.value.1 <= |proof| && |points| == |points0| + 1 <= total
      && |r.value.0| == |commits| && Stored(initial, order + [c], points, r.value.0)
      && whole == Prepend(points, Many(ParseG1(WireOf(f, t)), total - |points|, proof[r.value.1..]))
  {
    hide Tracks, ParseG1, Many, Prepend, Stored;
    points := points0;
    StoredLength(initial, order, points, commits);
    ManyStep(ParseG1(WireOf(f, t)), total - |points|, points, proof[from..]);
    var point;
    point, k := NextPoint(f, t, proof, from, k0);
    if point.Err? {
      return Err(point.error), points, k;
    }
    StoreOne(initial, order, points, commits, c, point.value.0);
    points := points + [point.value.0];
    return Ok((commits[c := point.value.0], point.value.1)), points, k;
  }

  /** Column c in the pass over phase p: its commitment if it belongs to the phase, nothing otherwise. */
  method ReadColumn<F(!new)>(f: Field<F>, t: Transcript, proof: seq<byte>, from: nat, phases: seq<byte>, p: byte, c: nat,
                             commits: seq<seq<byte>>, ghost n: nat, ghost points0: seq<seq<byte>>,
                             ghost whole: Result<(seq<seq<byte>>, seq<byte>), Error>, ghost tail: seq<Op>, ghost k0: Track<F>)
    returns (r: Result<(seq<seq<byte>>, nat), Error>, ghost points: seq<seq<byte>>, ghost k: Track<F>)
    requires c < |phases| == |commits| && p < n && |points0| <= |PhaseOrder(phases, n)|
    requires Tracks(f, t, proof, k0) && k0.cur == from <= |proof| && k0.left == Times([Point], CountFrom(phases, p, c)) + tail
    requires Stored(ZeroPoints(|phases|), OrderTo(phases, p, c), points0, commits)
    requires whole == Prepend(points0, Many(ParseG1(WireOf(f, t)), |PhaseOrder(phases, n)| - |points0|, proof[from..]))
    modifies t
    ensures Tracks(f, t, proof, k) && k.start == k0.start && k.script == k0.script
    ensures r.Err? ==> whole == Err(r.error)
    ensures r.Ok? ==>
      && k == k0.(left := Times([Point], CountFrom(phases, p, c + 1)) + tail, cur := r.value.1) && r.value.1 <= |proof|
      && |points| <= |PhaseOrder(phases, n)| && |r.value.0| == |phases|
      && Stored(ZeroPoints(|phases|), OrderTo(phases, p, c + 1), points, r.value.0)
      && whole == Prepend(points, Many(ParseG1(WireOf(f, t)), |PhaseOrder(phases, n)| - |points|, proof[r.value.1..]))
  {
    hide Tracks, Times, ParseG1, Many, Prepend, Stored, PhaseOrder, OrderTo, CountFrom, Below, ZeroPoints;
    OrderToStep(phases, p, c, n);
    CountStep(phases, p, c, [Point], tail);
    points, k := points0, k0;
    if phases[c] == p {
      StoredLength(ZeroPoints(|phases|), OrderTo(phases, p, c), points, commits);
      r, points, k := TakePoint(f, t, proof, from, commits, c, ZeroPoints(|phases|), OrderTo(phases, p, c), |PhaseOrder(phases, n)|, points, whole, k0);
    } else {
      r := Ok((commits, from));
    }
  }

  /** The advice commitments of one phase. */
  method ReadAdviceOfPhase<F(!new)>(f: Field<F>, t: Transcript, proof: seq<byte>, from: nat, phases: seq<byte>, p: byte,
                                    commits0: seq<seq<byte>>, ghost n: nat, ghost points0: seq<seq<byte>>,
                                    ghost whole: Result<(seq<seq<byte>>, seq<byte>), Error>, ghost tail: seq<Op>, ghost k0: Track<F>)
    returns (r: Result<(seq<seq<byte>>, nat), Error>, ghost points: seq<seq<byte>>, ghost k: Track<F>)
    requires Tracks(f, t, proof, k0) && k0.cur == from <= |proof| && k0.left == Times([Point], CountFrom(phases, p, 0)) + tail
    requires p < n && |commits0| == |phases| && Stored(ZeroPoints(|phases|), PhaseOrder(phases, p), points0, commits0)
    requires |points0| <= |PhaseOrder(phases, n)|
    requires whole == Prepend(points0, Many(ParseG1(WireOf(f, t)), |PhaseOrder(phases, n)| - |points0|, proof[from..]))
    modifies t
    ensures Tracks(f, t, proof, k) && k.start == k0.start && k.script == k0.script
    ensures r.Err? ==> whole == Err(r.error)
    ensures r.Ok? ==>
      && k == k0.(left := tail, cur := r.value.1) && r.value.1 <= |proof| && |points| <= |PhaseOrder(phases, n)|
      && Stored(ZeroPoints(|phases|), PhaseOrder(phases, p + 1), points, r.value.0)
      && whole == Prepend(points, Many(ParseG1(WireOf(f, t)), |PhaseOrder(phases, n)| - |points|, proof[r.value.1..]))
  {
    hide Tracks, Times, ParseG1, Many, Prepend, Stored, PhaseOrder, OrderTo, CountFrom, Below, ZeroPoints;
    var commits, cur: nat := commits0, from;
    points, k := points0, k0;
    ghost var total := |PhaseOrder(phases, n)|;
    OrderEnds(phases, p, n);
    for c := 0 to |phases|
      invariant Tracks(f, t, proof, k) && cur <= |proof| && |commits| == |phases| && |points| <= total
      invariant k == k0.(left := Times([Point], CountFrom(phases, p, c)) + tail, cur := cur)
      invariant Stored(ZeroPoints(|phases|), OrderTo(phases, p, c), points, commits)
      invariant whole == Prepend(points, Many(ParseG1(WireOf(f, t)), total - |points|, proof[cur..]))
    {
      var step;
      step, points, k := ReadColumn(f, t, proof, cur, phases, p, c, commits, n, points, whole, tail, k);
      if step.Err? {
        return Err(step.error), points, k;
      }
      commits, cur := step.value.0, step.value.1;
    }
    CountEnd(phases, p, [Point], tail);
    return Ok((commits, cur)), points, k;
  }

  lemma StoredLength<V>(initial: seq<V>, order: seq<nat>, values: seq<V>, stored: seq<V>)
    requires Stored(initial, order, values, stored)
    ensures |values| == |order| && |stored| == |initial|
  {
  }

  /** Challenge i in the pass over phase p. */
  method DrawIfInPhase<F(!new)>(f: Field<F>, t: Transcript, ghost proof: seq<byte>, phases: seq<byte>, p: byte, i: nat,
                                challenges0: seq<F>, ghost drawn0: seq<F>, ghost tail: seq<Op>, ghost k0: Track<F>)
    returns (challenges: seq<F>, ghost drawn: seq<F>, ghost k: Track<F>)
    requires i < |phases| == |challenges0|
    requires Tracks(f, t, proof, k0) && k0.left == Times([Squeeze], CountFrom(phases, p, i)) + tail
    requires Stored(ZeroScalars(f, |phases|), OrderTo(phases, p, i), drawn0, challenges0)
    modifies t
    ensures Tracks(f, t, proof, k) && |challenges| == |phases| && drawn0 <= drawn
    ensures k == k0.(left := Times([Squeeze], CountFrom(phases, p, i + 1)) + tail, drawn := k0.drawn + drawn[|drawn0|..])
    ensures Stored(ZeroScalars(f, |phases|), OrderTo(phases, p, i + 1), drawn, challenges)
  {
    hide Tracks, Times, Stored, PhaseOrder, OrderTo, CountFrom, Below, ZeroScalars;
    OrderToStep(phases, p, i, p as nat + 1);
    CountStep(phases, p, i, [Squeeze], tail);
    challenges, drawn, k := challenges0, drawn0, k0;
    if phases[i] == p {
      var c;
      c, k := NextChallenge(f, t, proof, k0);
      StoreOne(ZeroScalars(f, |phases|), OrderTo(phases, p, i), drawn, challenges, i, c);
      challenges, drawn := challenges[i := c], drawn + [c];
      assert drawn[|drawn0|..] == [c];
    } else {
      assert k0.drawn + drawn0[|drawn0|..] == k0.drawn;
    }
  }

  /** The user challenges of one phase. */
  method DrawChallengesOfPhase<F(!new)>(f: Field<F>, t: Transcript, ghost proof: seq<byte>, phases: seq<byte>, p: byte,
                                        challenges0: seq<F>, ghost drawn0: seq<F>, ghost tail: seq<Op>, ghost k0: Track<F>)
    returns (challenges: seq<F>, ghost drawn: seq<F>, ghost k: Track<F>)
    requires Tracks(f, t, proof, k0) && k0.left == Times([Squeeze], CountFrom(phases, p, 0)) + tail
    requires |challenges0| == |phases| && Stored(ZeroScalars(f, |phases|), PhaseOrder(phases, p), drawn0, challenges0)
    modifies t
    ensures Tracks(f, t, proof, k) && k == k0.(left := tail, drawn := k.drawn)
    ensures |challenges| == |phases| && Stored(ZeroScalars(f, |phases|), PhaseOrder(phases, p + 1), drawn, challenges)
    ensures drawn0 <= drawn && k.drawn == k0.drawn + drawn[|drawn0|..]
  {
    hide Tracks, Times, Stored, PhaseOrder, OrderTo, CountFrom, Below, ZeroScalars;
    challenges := challenges0;
    drawn, k := drawn0, k0;
    OrderEnds(phases, p, 0);
    assert k0.drawn + drawn0[|drawn0|..] == k0.drawn;
    for i := 0 to |phases|
      invariant Tracks(f, t, proof, k) && |challenges| == |phases| && drawn0 <= drawn
      invariant k == k0.(left := Times([Squeeze], CountFrom(phases, p, i)) + tail, drawn := k0.drawn + drawn[|drawn0|..])
      invariant Stored(ZeroScalars(f, |phases|), OrderTo(phases, p, i), drawn, challenges)
    {
      ghost var before := drawn;
      challenges, drawn, k := DrawIfInPhase(f, t, proof, phases, p, i, challenges, drawn, tail, k);
      DrawnMore(k0.drawn, drawn0, before, drawn);
    }
    CountEnd(phases, p, [Squeeze], tail);
  }

  lemma DrawnMore<F>(start: seq<F>, a: seq<F>, b: seq<F>, c: seq<F>)
    requires a <= b <= c
    ensures a <= c && start + b[|a|..] + c[|b|..] == start + c[|a|..]
  {
  }

  /** Without tables everything is in one phase. */
  method ReadSinglePhase<F(!new)>(f: Field<F>, t: Transcript, vk: Key<F>, proof: seq<byte>, from: nat, ghost tail: seq<Op>, ghost k0: Track<F>)
    returns (r: Result<(seq<seq<byte>>, seq<F>, nat), Error>, ghost k: Track<F>)
    requires SinglePhase(vk) && Tracks(f, t, proof, k0) && k0.cur == from <= |proof| && k0.left == PhaseOps(vk) + tail
    modifies t
    ensures Tracks(f, t, proof, k) && k.start == k0.start && k.script == k0.script
    ensures PhasesRead(f, WireOf(f, t), vk, proof, from, r, tail, k0, k)
  {
    hide Tracks, Times, ParseG1, Many, Prepend, Stored;
    var commits: seq<seq<byte>> := seq(vk.numAdvice, _ => seq(64, _ => 0 as byte));
    assert commits == ZeroPoints(vk.numAdvice);
    var challenges := seq(vk.numChallenges, _ => f.Zero());
    assert challenges == ZeroScalars(f, vk.numChallenges);
    var cur: nat := from;
    k := k0;
    ghost var points: seq<seq<byte>>, drawn: seq<F> := [], [];
    ghost var g := ParseG1(WireOf(f, t));
    ghost var squeezed := Times([Squeeze], vk.numChallenges) + tail;
    assert PhaseOps(vk) + tail == Times([Point], vk.numAdvice) + squeezed;
    ghost var whole := Many(g, vk.numAdvice, proof[from..]);
    ManyStart(g, vk.numAdvice, proof[from..]);
    StoreNothing(ZeroPoints(vk.numAdvice));
    Folded([Point], squeezed);
    for c := 0 to vk.numAdvice
      invariant Tracks(f, t, proof, k) && cur <= |proof| && |commits| == vk.numAdvice && |points| == c
      invariant k == k0.(left := Times([Point], vk.numAdvice - c) + squeezed, cur := cur)
      invariant Stored(ZeroPoints(vk.numAdvice), Ascending(c), points, commits)
      invariant whole == Prepend(points, Many(g, vk.numAdvice - c, proof[cur..]))
    {
      Unfold([Point], vk.numAdvice - c, squeezed);
      var step;
      step, points, k := TakePoint(f, t, proof, cur, commits, c, ZeroPoints(vk.numAdvice), Ascending(c), vk.numAdvice, points, whole, k);
      if step.Err? {
        return Err(step.error), k;
      }
      commits, cur := step.value.0, step.value.1;
      assert Ascending(c) + [c] == Ascending(c + 1);
    }
    ManyDone(g, points, proof[cur..]);
    StoreNothing(ZeroScalars(f, vk.numChallenges));
    Folded([Squeeze], tail);
    for i := 0 to vk.numChallenges
      invariant Tracks(f, t, proof, k) && |challenges| == vk.numChallenges && |drawn| == i
      invariant k == k0.(left := Times([Squeeze], vk.numChallenges - i) + tail, cur := cur, drawn := k0.drawn + drawn)
      invariant Stored(ZeroScalars(f, vk.numChallenges), Ascending(i), drawn, challenges)
    {
      Unfold([Squeeze], vk.numChallenges - i, tail);
      var c;
      c, k := NextChallenge(f, t, proof, k);
      StoreOne(ZeroScalars(f, vk.numChallenges), Ascending(i), drawn, challenges, i, c);
      assert Ascending(i) + [i] == Ascending(i + 1);
      challenges := challenges[i := c];
      drawn := drawn + [c];
    }
    UserDrawn(f, vk, drawn, challenges, k0, k);
    return Ok((commits, challenges, cur)), k;
  }

  /** The user challenges are the ones drawn meanwhile, stored by index. */
  ghost predicate UserChallenges<F(!new)>(f: Field<F>, vk: Key<F>, challenges: seq<F>, k0: Track<F>, k: Track<F>) {
    && k0.drawn <= k.drawn
    && Stored(ZeroScalars(f, vk.numChallenges), ChallengeOrder(vk), k.drawn[|k0.drawn|..], challenges)
  }

  lemma UserDrawn<F(!new)>(f: Field<F>, vk: Key<F>, drawn: seq<F>, challenges: seq<F>, k0: Track<F>, k: Track<F>)
    requires Stored(ZeroScalars(f, vk.numChallenges), ChallengeOrder(vk), drawn, challenges) && k.drawn == k0.drawn + drawn
    ensures UserChallenges(f, vk, challenges, k0, k)
  {
    assert k.drawn[|k0.drawn|..] == drawn;
  }

  ghost predicate PhasesRead<F(!new)>(f: Field<F>, w: Wire<F>, vk: Key<F>, proof: seq<byte>, from: nat,
                                      r: Result<(seq<seq<byte>>, seq<F>, nat), Error>, tail: seq<Op>, k0: Track<F>, k: Track<F>)
    requires from <= |proof|
  {
    var wire := Many(ParseG1(w), |WireOrder(vk)|, proof[from..]);
    if wire.Err? then r == Err(wire.error)
    else
      && r.Ok? && r.value.2 <= |proof| && wire.value.1 == proof[r.value.2..]
      && Stored(ZeroPoints(vk.numAdvice), WireOrder(vk), wire.value.0, r.value.0)
      && UserChallenges(f, vk, r.value.1, k0, k) && k == k0.(left := tail, cur := r.value.2, drawn := k.drawn)
  }

  lemma PhaseOpsStep(advice: seq<byte>, challenges: seq<byte>, p: nat, n: nat, tail: seq<Op>)
    requires p < n
    ensures PhasesFrom(advice, challenges, p, n) + tail ==
            Times([Point], CountFrom(advice, p, 0)) + (Times([Squeeze], CountFrom(challenges, p, 0)) + (PhasesFrom(advice, challenges, p + 1, n) + tail))
  {
    hide Times, CountFrom;
    var a, b, c := Times([Point], CountFrom(advice, p, 0)), Times([Squeeze], CountFrom(challenges, p, 0)), PhasesFrom(advice, challenges, p + 1, n);
    assert PhasesFrom(advice, challenges, p, n) == a + (b + c);
    FourParts(a, b, c, tail);
  }

  lemma FourParts(a: seq<Op>, b: seq<Op>, c: seq<Op>, d: seq<Op>)
    ensures (a + (b + c)) + d == a + (b + (c + d))
  {
  }

  lemma PhaseOpsEnds(advice: seq<byte>, challenges: seq<byte>, n: nat, tail: seq<Op>)
    ensures PhasesFrom(advice, challenges, n, n) + tail == tail
  {
  }

  /** One phase: its advice commitments, then its challenges. */
  method ReadPhase<F(!new)>(f: Field<F>, t: Transcript, vk: Key<F>, proof: seq<byte>, from: nat, p: byte,
                            commits0: seq<seq<byte>>, challenges0: seq<F>, ghost points0: seq<seq<byte>>, ghost drawn0: seq<F>,
                            ghost whole: Result<(seq<seq<byte>>, seq<byte>), Error>, ghost tail: seq<Op>, ghost k0: Track<F>)
    returns (r: Result<(seq<seq<byte>>, seq<F>, nat), Error>, ghost points: seq<seq<byte>>, ghost drawn: seq<F>, ghost k: Track<F>)
    requires Tabled(vk) && p < vk.numPhases && Tracks(f, t, proof, k0) && k0.cur == from <= |proof|
    requires k0.left == PhasesFrom(vk.adviceColumnPhase, vk.challengePhase, p, vk.numPhases) + tail
    requires |commits0| == vk.numAdvice && Stored(ZeroPoints(vk.numAdvice), PhaseOrder(vk.adviceColumnPhase, p), points0, commits0)
    requires |challenges0| == vk.numChallenges && Stored(ZeroScalars(f, vk.numChallenges), PhaseOrder(vk.challengePhase, p), drawn0, challenges0)
    requires |points0| <= |PhaseOrder(vk.adviceColumnPhase, vk.numPhases)|
    requires whole == Prepend(points0, Many(ParseG1(WireOf(f, t)), |PhaseOrder(vk.adviceColumnPhase, vk.numPhases)| - |points0|, proof[from..]))
    modifies t
    ensures Tracks(f, t, proof, k) && k.start == k0.start && k.script == k0.script
    ensures r.Err? ==> whole == Err(r.error)
    ensures r.Ok? ==>
      && r.value.2 <= |proof| && |points| <= |PhaseOrder(vk.adviceColumnPhase, vk.numPhases)|
      && |r.value.0| == vk.numAdvice && Stored(ZeroPoints(vk.numAdvice), PhaseOrder(vk.adviceColumnPhase, p + 1), points, r.value.0)
      && |r.value.1| == vk.numChallenges && Stored(ZeroScalars(f, vk.numChallenges), PhaseOrder(vk.challengePhase, p + 1), drawn, r.value.1)
      && whole == Prepend(points, Many(ParseG1(WireOf(f, t)), |PhaseOrder(vk.adviceColumnPhase, vk.numPhases)| - |points|, proof[r.value.2..]))
      && drawn0 <= drawn
      && k == k0.(left := PhasesFrom(vk.adviceColumnPhase, vk.challengePhase, p as nat + 1, vk.numPhases) + tail, cur := r.value.2,
                  drawn := k0.drawn + drawn[|drawn0|..])
  {
    hide Tracks, Times, ParseG1, Many, Prepend, Stored, PhaseOrder, PhasesFrom, CountFrom;
    PhaseOpsStep(vk.adviceColumnPhase, vk.challengePhase, p, vk.numPhases, tail);
    ghost var rest := PhasesFrom(vk.adviceColumnPhase, vk.challengePhase, p as nat + 1, vk.numPhases) + tail;
    var step;
    drawn := drawn0;
    step, points, k := ReadAdviceOfPhase(f, t, proof, from, vk.adviceColumnPhase, p, commits0, vk.numPhases, points0, whole,
                                         Times([Squeeze], CountFrom(vk.challengePhase, p, 0)) + rest, k0);
    if step.Err? {
      return Err(step.error), points, drawn, k;
    }
    StoredLength(ZeroPoints(vk.numAdvice), PhaseOrder(vk.adviceColumnPhase, p + 1), points, step.value.0);
    var challenges;
    challenges, drawn, k := DrawChallengesOfPhase(f, t, proof, vk.challengePhase, p, challenges0, drawn0, rest, k);
    return Ok((step.value.0, challenges, step.value.1)), points, drawn, k;
  }

  lemma PhasesStart<F(!new)>(f: Field<F>, w: Wire<F>, vk: Key<F>, b: seq<byte>)
    requires Tabled(vk)
    ensures Stored(ZeroPoints(vk.numAdvice), PhaseOrder(vk.adviceColumnPhase, 0), [], ZeroPoints(vk.numAdvice))
    ensures Stored(ZeroScalars(f, vk.numChallenges), PhaseOrder(vk.challengePhase, 0), [], ZeroScalars(f, vk.numChallenges))
    ensures Many(ParseG1(w), |PhaseOrder(vk.adviceColumnPhase, vk.numPhases)|, b)
         == Prepend([], Many(ParseG1(w), |PhaseOrder(vk.adviceColumnPhase, vk.numPhases)|, b))
  {
    hide Many, Prepend, PhaseOrder, Stored;
    OrderEnds(vk.adviceColumnPhase, 0, 0);
    OrderEnds(vk.challengePhase, 0, 0);
    StoreNothing(ZeroPoints(vk.numAdvice));
    StoreNothing(ZeroScalars(f, vk.numChallenges));
    ManyStart(ParseG1(w), |PhaseOrder(vk.adviceColumnPhase, vk.numPhases)|, b);
  }

  /** With tables, phase after phase. */
  method ReadManyPhases<F(!new)>(f: Field<F>, t: Transcript, vk: Key<F>, proof: seq<byte>, from: nat, ghost tail: seq<Op>, ghost k0: Track<F>)
    returns (r: Result<(seq<seq<byte>>, seq<F>, nat), Error>, ghost k: Track<F>)
    requires !SinglePhase(vk) && Tabled(vk) && Tracks(f, t, proof, k0) && k0.cur == from <= |proof| && k0.left == PhaseOps(vk) + tail
    modifies t
    ensures Tracks(f, t, proof, k) && k.start == k0.start && k.script == k0.script
    ensures PhasesRead(f, WireOf(f, t), vk, proof, from, r, tail, k0, k)
  {
    hide Tracks, ParseG1, Many, Prepend, Stored, PhaseOrder, PhasesFrom, UserChallenges, WireOrder, ChallengeOrder, Tabled;
    var commits: seq<seq<byte>> := seq(vk.numAdvice, _ => seq(64, _ => 0 as byte));
    assert commits == ZeroPoints(vk.numAdvice);
    var challenges := seq(vk.numChallenges, _ => f.Zero());
    assert challenges == ZeroScalars(f, vk.numChallenges);
    var cur: nat := from;
    k := k0;
    ghost var points: seq<seq<byte>>, drawn: seq<F> := [], [];
    ghost var total := |PhaseOrder(vk.adviceColumnPhase, vk.numPhases)|;
    ghost var whole := Many(ParseG1(WireOf(f, t)), total, proof[from..]);
    PhasesStart(f, WireOf(f, t), vk, proof[from..]);
    TabledOrders(vk);
    assert k0.drawn + drawn == k0.drawn;
    for p := 0 to vk.numPhases
      invariant Tracks(f, t, proof, k) && cur <= |proof| && |points| <= total
      invariant |commits| == vk.numAdvice && |challenges| == vk.numChallenges
      invariant k == k0.(left := PhasesFrom(vk.adviceColumnPhase, vk.challengePhase, p, vk.numPhases) + tail, cur := cur, drawn := k0.drawn + drawn)
      invariant Stored(ZeroPoints(vk.numAdvice), PhaseOrder(vk.adviceColumnPhase, p), points, commits)
      invariant Stored(ZeroScalars(f, vk.numChallenges), PhaseOrder(vk.challengePhase, p), drawn, challenges)
      invariant whole == Prepend(points, Many(ParseG1(WireOf(f, t)), total - |points|, proof[cur..]))
    {
      ghost var before := drawn;
      var step;
      step, points, drawn, k := ReadPhase(f, t, vk, proof, cur, p, commits, challenges, points, drawn, whole, tail, k);
      if step.Err? {
        return Err(step.error), k;
      }
      commits, challenges, cur := step.value.0, step.value.1, step.value.2;
      assert k0.drawn + before + drawn[|before|..] == k0.drawn + drawn;
    }
    PhasesEnd(f, WireOf(f, t), vk, points, commits, proof[cur..], tail);
    UserDrawn(f, vk, drawn, challenges, k0, k);
    return Ok((commits, challenges, cur)), k;
  }

  lemma PhasesEnd<F(!new)>(f: Field<F>, w: Wire<F>, vk: Key<F>, points: seq<seq<byte>>, commits: seq<seq<byte>>, b: seq<byte>, tail: seq<Op>)
    requires Stored(ZeroPoints(vk.numAdvice), PhaseOrder(vk.adviceColumnPhase, vk.numPhases), points, commits)
    ensures PhasesFrom(vk.adviceColumnPhase, vk.challengePhase, vk.numPhases, vk.numPhases) + tail == tail
    ensures |points| == |PhaseOrder(vk.adviceColumnPhase, vk.numPhases)|
    ensures Prepend(points, Many(ParseG1(w), 0, b)) == Ok((points, b))
  {
    hide Many, Prepend, PhaseOrder, Stored;
    PhaseOpsEnds(vk.adviceColumnPhase, vk.challengePhase, vk.numPhases, tail);
    StoredLength(ZeroPoints(vk.numAdvice), PhaseOrder(vk.adviceColumnPhase, vk.numPhases), points, commits);
    ManyDone(ParseG1(w), points, b);
  }

  lemma TabledOrders<F>(vk: Key<F>)
    requires !SinglePhase(vk) && Tabled(vk)
    ensures WireOrder(vk) == PhaseOrder(vk.adviceColumnPhase, vk.numPhases) && ChallengeOrder(vk) == PhaseOrder(vk.challengePhase, vk.numPhases)
  {
    hide PhaseOrder;
    if vk.adviceColumnPhase == [] {
      EmptyOrder(vk.numPhases);
    }
  }

  // ----- the commitments and the challenges between them -----

  /** The challenges of the common part, in the order they are drawn. */
  datatype CommonChallenges<F> = CommonChallenges(user: seq<F>, theta: F, beta: F, gamma: F, y: F, x: F)

  /** The user challenges by index, then theta, beta, gamma, y and x. */
  ghost predicate CommonDrawn<F(!new)>(f: Field<F>, vk: Key<F>, c: CommonChallenges<F>, drawn: seq<F>) {
    var n := |ChallengeOrder(vk)|;
    && |drawn| == n + 5 && Stored(ZeroScalars(f, vk.numChallenges), ChallengeOrder(vk), drawn[..n], c.user)
    && drawn[n..] == [c.theta, c.beta, c.gamma, c.y, c.x]
  }

  ghost function After<F>(k0: Track<F>, k: Track<F>): seq<F>
    requires k0.drawn <= k.drawn
  {
    k.drawn[|k0.drawn|..]
  }

  method ReadAdvicePhases<F(!new)>(f: Field<F>, t: Transcript, vk: Key<F>, proof: seq<byte>, from: nat, ghost tail: seq<Op>, ghost k0: Track<F>)
    returns (r: Result<(seq<seq<byte>>, seq<F>, nat), Error>, ghost k: Track<F>)
    requires (SinglePhase(vk) || Tabled(vk)) && Tracks(f, t, proof, k0) && k0.cur == from <= |proof| && k0.left == PhaseOps(vk) + tail
    modifies t
    ensures Tracks(f, t, proof, k) && k.start == k0.start && k.script == k0.script
    ensures PhasesRead(f, WireOf(f, t), vk, proof, from, r, tail, k0, k)
  {
    hide Tracks, PhasesRead, PhaseOps, Tabled;
    if vk.numPhases <= 1 && vk.adviceColumnPhase == [] && vk.challengePhase == [] {
      r, k := ReadSinglePhase(f, t, vk, proof, from, tail, k0);
    } else {
      r, k := ReadManyPhases(f, t, vk, proof, from, tail, k0);
    }
  }

  /** The permuted input and table commitments, two per lookup. */
  method ReadPermuted<F(!new)>(f: Field<F>, t: Transcript, proof: seq<byte>, from: nat, count: nat, ghost tail: seq<Op>, ghost k0: Track<F>)
    returns (r: Result<(seq<seq<byte>>, seq<seq<byte>>, nat), Error>, ghost k: Track<F>)
    requires Tracks(f, t, proof, k0) && k0.cur == from <= |proof| && k0.left == Times([Point, Point], count) + tail
    modifies t
    ensures Tracks(f, t, proof, k) && k.start == k0.start && k.script == k0.script
    ensures var pairs := Many(ParseTwo(ParseG1(WireOf(f, t))), count, proof[from..]);
      if pairs.Err? then r == Err(pairs.error)
      else
        && r.Ok? && r.value.2 <= |proof| && pairs.value.1 == proof[r.value.2..]
        && r.value.0 == Firsts(pairs.value.0) && r.value.1 == Seconds(pairs.value.0) && k == k0.(left := tail, cur := r.value.2)
  {
    hide Tracks, Times, ParseG1, Many, Prepend;
    var inputs: seq<seq<byte>>, tables: seq<seq<byte>>, cur: nat := [], [], from;
    ghost var pairs: seq<(seq<byte>, seq<byte>)> := [];
    k := k0;
    ghost var g := ParseG1(WireOf(f, t));
    ManyStart(ParseTwo(g), count, proof[from..]);
    Folded([Point, Point], tail);
    for i := 0 to count
      invariant Tracks(f, t, proof, k) && cur <= |proof|
      invariant k == k0.(left := Times([Point, Point], count - i) + tail, cur := cur)
      invariant inputs == Firsts(pairs) && tables == Seconds(pairs)
      invariant Prepend(pairs, Many(ParseTwo(g), count - i, proof[cur..])) == Many(ParseTwo(g), count, proof[from..])
    {
      Unfold([Point, Point], count - i, tail);
      ManyStep(ParseTwo(g), count - i, pairs, proof[cur..]);
      var a, b;
      a, k := NextPoint(f, t, proof, cur, k);
      if a.Err? {
        return Err(a.error), k;
      }
      b, k := NextPoint(f, t, proof, a.value.1, k);
      if b.Err? {
        return Err(b.error), k;
      }
      inputs, tables, cur := inputs + [a.value.0], tables + [b.value.0], b.value.1;
      pairs := pairs + [(a.value.0, b.value.0)];
    }
    ManyDone(ParseTwo(g), pairs, proof[cur..]);
    return Ok((inputs, tables, cur)), k;
  }

  lemma RegroupTail(a: seq<Op>, b: seq<Op>, tail: seq<Op>)
    ensures (a + b) + tail == a + (b + tail)
  {
  }

  lemma ProductOpsSplit<F>(vk: Key<F>, tail: seq<Op>)
    ensures ProductOps(vk) + tail ==
            Times([Point], vk.numPermChunks) + (Times([Point], vk.NumLookups()) + (Times([Point], vk.NumShuffles())
            + ([Point] + ([Squeeze] + (Times([Point], Pieces(vk.csDegree)) + ([Squeeze] + tail))))))
  {
    hide Times;
    var h, s, l, c := Times([Point], Pieces(vk.csDegree)), Times([Point], vk.NumShuffles()), Times([Point], vk.NumLookups()), Times([Point], vk.numPermChunks);
    RegroupTail(h, [Squeeze], tail);
    RegroupTail([Squeeze], h + [Squeeze], tail);
    RegroupTail([Point], [Squeeze] + (h + [Squeeze]), tail);
    RegroupTail(s, [Point] + ([Squeeze] + (h + [Squeeze])), tail);
    RegroupTail(l, s + ([Point] + ([Squeeze] + (h + [Squeeze]))), tail);
    RegroupTail(c, l + (s + ([Point] + ([Squeeze] + (h + [Squeeze])))), tail);
  }

  lemma FirstOp(op: Op, tail: seq<Op>)
    ensures ([op] + tail)[0] == op && ([op] + tail)[1..] == tail
  {
  }

  /** The grand products, the random polynomial, y, the quotient pieces and x. */
  method ReadProducts<F(!new)>(f: Field<F>, t: Transcript, vk: Key<F>, proof: seq<byte>, from: nat, ghost tail: seq<Op>, ghost k0: Track<F>)
    returns (r: Result<(Products, F, F, nat), Error>, ghost k: Track<F>)
    requires Tracks(f, t, proof, k0) && k0.cur == from <= |proof| && k0.left == ProductOps(vk) + tail
    modifies t
    ensures Tracks(f, t, proof, k) && k.start == k0.start && k.script == k0.script
    ensures var p := ParseProducts(WireOf(f, t), vk, proof[from..]);
      if p.Err? then r == Err(p.error)
      else
        && r.Ok? && r.value.0 == p.value.0 && r.value.3 <= |proof| && p.value.1 == proof[r.value.3..]
        && k == k0.(left := tail, cur := r.value.3, drawn := k0.drawn + [r.value.1, r.value.2])
  {
    hide Tracks, Times, ParseG1, Many, ProductOps;
    ghost var t10 := [Squeeze] + tail;
    ghost var t9 := Times([Point], Pieces(vk.csDegree)) + t10;
    ghost var t8 := [Squeeze] + t9;
    ghost var t7 := [Point] + t8;
    ghost var t6 := Times([Point], vk.NumShuffles()) + t7;
    ghost var t5 := Times([Point], vk.NumLookups()) + t6;
    ProductOpsSplit(vk, tail);
    var perm, lookups, shuffles, random, h, y, x;
    perm, k := ReadG1s(f, t, proof, from, vk.numPermChunks, t5, k0);
    if perm.Err? { return Err(perm.error), k; }
    lookups, k := ReadG1s(f, t, proof, perm.value.1, vk.NumLookups(), t6, k);
    if lookups.Err? { return Err(lookups.error), k; }
    shuffles, k := ReadG1s(f, t, proof, lookups.value.1, vk.NumShuffles(), t7, k);
    if shuffles.Err? { return Err(shuffles.error), k; }
    FirstOp(Point, t8);
    random, k := NextPoint(f, t, proof, shuffles.value.1, k);
    if random.Err? { return Err(random.error), k; }
    FirstOp(Squeeze, t9);
    y, k := NextChallenge(f, t, proof, k);
    h, k := ReadG1s(f, t, proof, random.value.1, Pieces(vk.csDegree), t10, k);
    if h.Err? { return Err(h.error), k; }
    FirstOp(Squeeze, tail);
    x, k := NextChallenge(f, t, proof, k);
    assert k0.drawn + [y] + [x] == k0.drawn + [y, x];
    return Ok((Products(perm.value.0, lookups.value.0, shuffles.value.0, random.value.0, h.value.0), y, x, h.value.1)), k;
  }

  lemma CommitOpsSplit<F>(vk: Key<F>, tail: seq<Op>)
    ensures CommitOps(vk) + tail ==
            PhaseOps(vk) + ([Squeeze] + (Times([Point, Point], vk.NumLookups()) + ([Squeeze] + ([Squeeze] + (ProductOps(vk) + tail)))))
  {
    hide Times, PhaseOps, ProductOps;
    var permuted, products := Times([Point, Point], vk.NumLookups()), ProductOps(vk);
    RegroupTail([Squeeze, Squeeze], products, tail);
    assert [Squeeze, Squeeze] + (products + tail) == [Squeeze] + ([Squeeze] + (products + tail));
    RegroupTail(permuted, [Squeeze, Squeeze] + products, tail);
    RegroupTail([Squeeze], permuted + ([Squeeze, Squeeze] + products), tail);
    RegroupTail(PhaseOps(vk), [Squeeze] + (permuted + ([Squeeze, Squeeze] + products)), tail);
  }

  /** Everything up to the challenge x. */
  method ReadCommitments<F(!new)>(f: Field<F>, t: Transcript, vk: Key<F>, proof: seq<byte>, from: nat, ghost tail: seq<Op>, ghost k0: Track<F>)
    returns (r: Result<(Commits, CommonChallenges<F>, nat), Error>, ghost k: Track<F>)
    requires (SinglePhase(vk) || Tabled(vk)) && Tracks(f, t, proof, k0) && k0.cur == from <= |proof| && k0.left == CommitOps(vk) + tail
    modifies t
    ensures Tracks(f, t, proof, k) && k.start == k0.start && k.script == k0.script
    ensures AdviceTabled(vk)
    ensures var c := ParseCommits(WireOf(f, t), vk, proof[from..]);
      if c.Err? then r == Err(c.error)
      else
        && r.Ok? && r.value.0 == c.value.0 && r.value.2 <= |proof| && c.value.1 == proof[r.value.2..]
        && k0.drawn <= k.drawn && CommonDrawn(f, vk, r.value.1, After(k0, k)) && k == k0.(left := tail, cur := r.value.2, drawn := k.drawn)
  {
    hide Tracks, Times, ParseG1, ParseTwo, Many, PhaseOps, WireOrder, ChallengeOrder, ProductOps, ParseProducts, CommonDrawn, UserChallenges, CommitOps, Placed;
    ghost var t5 := ProductOps(vk) + tail;
    ghost var t4 := [Squeeze] + t5;
    ghost var t3 := [Squeeze] + t4;
    ghost var t2 := Times([Point, Point], vk.NumLookups()) + t3;
    CommitOpsSplit(vk, tail);
    var phases, theta, permuted, beta, gamma, products;
    phases, k := ReadAdvicePhases(f, t, vk, proof, from, [Squeeze] + t2, k0);
    if phases.Err? { return Err(phases.error), k; }
    ghost var k1 := k;
    FirstOp(Squeeze, t2);
    theta, k := NextChallenge(f, t, proof, k);
    permuted, k := ReadPermuted(f, t, proof, phases.value.2, vk.NumLookups(), t3, k);
    if permuted.Err? { return Err(permuted.error), k; }
    FirstOp(Squeeze, t4);
    beta, k := NextChallenge(f, t, proof, k);
    FirstOp(Squeeze, t5);
    gamma, k := NextChallenge(f, t, proof, k);
    products, k := ReadProducts(f, t, vk, proof, permuted.value.2, tail, k);
    if products.Err? { return Err(products.error), k; }
    var p, challenges := products.value.0, CommonChallenges(phases.value.1, theta, beta, gamma, products.value.1, products.value.2);
    CommonOrder(f, vk, challenges, k0, k1, k);
    return Ok((Commits(phases.value.0, permuted.value.0, permuted.value.1, p.perm, p.lookups, p.shuffles, p.randomPoly, p.h),
               challenges, products.value.3)), k;
  }

  lemma CommonOrder<F(!new)>(f: Field<F>, vk: Key<F>, c: CommonChallenges<F>, k0: Track<F>, k1: Track<F>, k: Track<F>)
    requires UserChallenges(f, vk, c.user, k0, k1)
    requires k.drawn == k1.drawn + [c.theta] + [c.beta] + [c.gamma] + [c.y, c.x]
    ensures k0.drawn <= k.drawn && CommonDrawn(f, vk, c, After(k0, k))
  {
    hide ChallengeOrder, Placed;
    var user, after := k1.drawn[|k0.drawn|..], After(k0, k);
    assert after == user + [c.theta, c.beta, c.gamma, c.y, c.x];
    assert after[..|user|] == user;
  }

  // ----- the evaluations -----

  /** Three values per chunk, two for the last. */
  method ReadChunks<F(!new)>(f: Field<F>, t: Transcript, proof: seq<byte>, from: nat, count: nat, ghost tail: seq<Op>, ghost k0: Track<F>)
    returns (r: Result<(seq<(F, F, F)>, nat), Error>, ghost k: Track<F>)
    requires Tracks(f, t, proof, k0) && k0.cur == from <= |proof| && k0.left == ChunkOps(count) + tail
    modifies t
    ensures Tracks(f, t, proof, k) && k.start == k0.start && k.script == k0.script
    ensures Reached(ParseChunks(WireOf(f, t), count, proof[from..]), r, proof)
    ensures r.Ok? ==> k == k0.(left := tail, cur := r.value.1)
  {
    hide Tracks, ParseFr, Prepend, ChunkOps, ParseChunks;
    var out: seq<(F, F, F)>, cur: nat := [], from;
    k := k0;
    ghost var w := WireOf(f, t);
    PrependTwice([], [], ParseChunks(w, count, proof[from..]));
    for i := 0 to count
      invariant Tracks(f, t, proof, k) && cur <= |proof|
      invariant k == k0.(left := ChunkOps(count - i) + tail, cur := cur)
      invariant Prepend(out, ParseChunks(w, count - i, proof[cur..])) == ParseChunks(w, count, proof[from..])
    {
      var z, zOmega;
      ChunkStep(w, count - i, out, proof[cur..], tail);
      z, k := NextScalar(f, t, proof, cur, k);
      if z.Err? { return Err(z.error), k; }
      zOmega, k := NextScalar(f, t, proof, z.value.1, k);
      if zOmega.Err? { return Err(zOmega.error), k; }
      if i + 1 < count {
        var zLast;
        zLast, k := NextScalar(f, t, proof, zOmega.value.1, k);
        if zLast.Err? { return Err(zLast.error), k; }
        out, cur := out + [(z.value.0, zOmega.value.0, zLast.value.0)], zLast.value.1;
      } else {
        out, cur := out + [(z.value.0, zOmega.value.0, f.Zero())], zOmega.value.1;
      }
    }
    NoChunks(w, out, proof[cur..], tail);
    return Ok((out, cur)), k;
  }

  /** One chunk of the format and of the script. */
  lemma ChunkStep<F(!new)>(w: Wire<F>, left: nat, out: seq<(F, F, F)>, b: seq<byte>, tail: seq<Op>)
    requires left > 0
    ensures var s := ParseFr(w);
      Prepend(out, ParseChunks(w, left, b)) ==
      if s(b).Err? then Err(s(b).error)
      else
        var z := s(b).value;
        if s(z.1).Err? then Err(s(z.1).error)
        else
          var zOmega := s(z.1).value;
          if left == 1 then Prepend(out + [(z.0, zOmega.0, w.f.Zero())], ParseChunks(w, 0, zOmega.1))
          else if s(zOmega.1).Err? then Err(s(zOmega.1).error)
          else Prepend(out + [(z.0, zOmega.0, s(zOmega.1).value.0)], ParseChunks(w, left - 1, s(zOmega.1).value.1))
    ensures ChunkOps(left) + tail ==
            if left == 1 then [Scalar] + ([Scalar] + (ChunkOps(0) + tail)) else [Scalar] + ([Scalar] + ([Scalar] + (ChunkOps(left - 1) + tail)))
  {
    hide ParseFr, Prepend;
    var s := ParseFr(w);
    if s(b).Ok? {
      var z := s(b).value;
      if s(z.1).Ok? {
        var zOmega := s(z.1).value;
        PrependTwice(out, [(z.0, zOmega.0, w.f.Zero())], ParseChunks(w, 0, zOmega.1));
        if left > 1 && s(zOmega.1).Ok? {
          PrependTwice(out, [(z.0, zOmega.0, s(zOmega.1).value.0)], ParseChunks(w, left - 1, s(zOmega.1).value.1));
        }
      }
    }
    PrependError(out, ParseChunks(w, left, b));
  }

  lemma PrependError<V>(out: seq<V>, r: Result<(seq<V>, seq<byte>), Error>)
    ensures r.Err? ==> Prepend(out, r) == r
  {
  }

  lemma NoChunks<F(!new)>(w: Wire<F>, out: seq<(F, F, F)>, b: seq<byte>, tail: seq<Op>)
    ensures Prepend(out, ParseChunks(w, 0, b)) == Ok((out, b)) && ChunkOps(0) + tail == tail
  {
    assert out + [] == out;
  }

  /** Five values per lookup. */
  method ReadLookupEvals<F(!new)>(f: Field<F>, t: Transcript, proof: seq<byte>, from: nat, count: nat, ghost tail: seq<Op>, ghost k0: Track<F>)
    returns (r: Result<(seq<LookupEvals<F>>, nat), Error>, ghost k: Track<F>)
    requires Tracks(f, t, proof, k0) && k0.cur == from <= |proof| && k0.left == Times(Times([Scalar], 5), count) + tail
    modifies t
    ensures Tracks(f, t, proof, k) && k.start == k0.start && k.script == k0.script
    ensures Reached(Many(ParseLookupEvals(WireOf(f, t)), count, proof[from..]), r, proof)
    ensures r.Ok? ==> k == k0.(left := tail, cur := r.value.1)
  {
    hide Tracks, Times, ParseLookupEvals, Many, Prepend;
    var out: seq<LookupEvals<F>>, cur: nat := [], from;
    k := k0;
    ghost var five := ParseLookupEvals(WireOf(f, t));
    ManyStart(five, count, proof[from..]);
    Folded(Times([Scalar], 5), tail);
    for i := 0 to count
      invariant Tracks(f, t, proof, k) && cur <= |proof|
      invariant k == k0.(left := Times(Times([Scalar], 5), count - i) + tail, cur := cur)
      invariant Prepend(out, Many(five, count - i, proof[cur..])) == Many(five, count, proof[from..])
    {
      Unfold(Times([Scalar], 5), count - i, tail);
      ManyStep(five, count - i, out, proof[cur..]);
      var e;
      e, k := ReadOneLookup(f, t, proof, cur, Times(Times([Scalar], 5), count - i - 1) + tail, k);
      if e.Err? { return Err(e.error), k; }
      out, cur := out + [e.value.0], e.value.1;
    }
    ManyDone(five, out, proof[cur..]);
    return Ok((out, cur)), k;
  }

  method ReadOneLookup<F(!new)>(f: Field<F>, t: Transcript, proof: seq<byte>, from: nat, ghost tail: seq<Op>, ghost k0: Track<F>)
    returns (r: Result<(LookupEvals<F>, nat), Error>, ghost k: Track<F>)
    requires Tracks(f, t, proof, k0) && k0.cur == from <= |proof| && k0.left == Times([Scalar], 5) + tail
    modifies t
    ensures Tracks(f, t, proof, k) && k.start == k0.start && k.script == k0.script
    ensures Reached(ParseLookupEvals(WireOf(f, t))(proof[from..]), r, proof)
    ensures r.Ok? ==> k == k0.(left := tail, cur := r.value.1)
  {
    hide Tracks, ParseFr, Times;
    FiveScalars(WireOf(f, t), proof[from..], tail);
    var product, productNext, input, inputInv, table;
    product, k := NextScalar(f, t, proof, from, k0);
    if product.Err? { return Err(product.error), k; }
    productNext, k := NextScalar(f, t, proof, product.value.1, k);
    if productNext.Err? { return Err(productNext.error), k; }
    input, k := NextScalar(f, t, proof, productNext.value.1, k);
    if input.Err? { return Err(input.error), k; }
    inputInv, k := NextScalar(f, t, proof, input.value.1, k);
    if inputInv.Err? { return Err(inputInv.error), k; }
    table, k := NextScalar(f, t, proof, inputInv.value.1, k);
    if table.Err? { return Err(table.error), k; }
    return Ok((LookupEvals(product.value.0, productNext.value.0, input.value.0, inputInv.value.0, table.value.0), table.value.1)), k;
  }

  /** Reading five scalars one by one. */
  lemma FiveScalars<F(!new)>(w: Wire<F>, b: seq<byte>, tail: seq<Op>)
    ensures Times([Scalar], 5) + tail == [Scalar] + ([Scalar] + ([Scalar] + ([Scalar] + ([Scalar] + tail))))
    ensures var s := ParseFr(w);
      ParseLookupEvals(w)(b) ==
      if s(b).Err? then Err(s(b).error) else var a := s(b).value;
      if s(a.1).Err? then Err(s(a.1).error) else var c := s(a.1).value;
      if s(c.1).Err? then Err(s(c.1).error) else var d := s(c.1).value;
      if s(d.1).Err? then Err(s(d.1).error) else var e := s(d.1).value;
      if s(e.1).Err? then Err(s(e.1).error) else var g := s(e.1).value;
      Ok((LookupEvals(a.0, c.0, d.0, e.0, g.0), g.1))
  {
    hide ParseFr, Times, Many, Prepend;
    var s := ParseFr(w);
    Unfold([Scalar], 5, tail);
    Unfold([Scalar], 4, tail);
    Unfold([Scalar], 3, tail);
    Unfold([Scalar], 2, tail);
    Unfold([Scalar], 1, tail);
    Folded([Scalar], tail);
    ManyStart(s, 5, b);
    ManyStep(s, 5, [], b);
    if s(b).Ok? {
      var a := s(b).value;
      assert [] + [a.0] == [a.0];
      ManyStep(s, 4, [a.0], a.1);
      if s(a.1).Ok? {
        var c := s(a.1).value;
        assert [a.0] + [c.0] == [a.0, c.0];
        ManyStep(s, 3, [a.0, c.0], c.1);
        if s(c.1).Ok? {
          var d := s(c.1).value;
          assert [a.0, c.0] + [d.0] == [a.0, c.0, d.0];
          ManyStep(s, 2, [a.0, c.0, d.0], d.1);
          if s(d.1).Ok? {
            var e := s(d.1).value;
            assert [a.0, c.0, d.0] + [e.0] == [a.0, c.0, d.0, e.0];
            ManyStep(s, 1, [a.0, c.0, d.0, e.0], e.1);
            if s(e.1).Ok? {
              var g := s(e.1).value;
              assert [a.0, c.0, d.0, e.0] + [g.0] == [a.0, c.0, d.0, e.0, g.0];
              ManyDone(s, [a.0, c.0, d.0, e.0, g.0], g.1);
            }
          }
        }
      }
    }
  }

  /** Two values per shuffle. */
  method ReadShuffleEvals<F(!new)>(f: Field<F>, t: Transcript, proof: seq<byte>, from: nat, count: nat, ghost tail: seq<Op>, ghost k0: Track<F>)
    returns (r: Result<(seq<(F, F)>, nat), Error>, ghost k: Track<F>)
    requires Tracks(f, t, proof, k0) && k0.cur == from <= |proof| && k0.left == Times([Scalar, Scalar], count) + tail
    modifies t
    ensures Tracks(f, t, proof, k) && k.start == k0.start && k.script == k0.script
    ensures Reached(Many(ParseTwo(ParseFr(WireOf(f, t))), count, proof[from..]), r, proof)
    ensures r.Ok? ==> k == k0.(left := tail, cur := r.value.1)
  {
    hide Tracks, Times, ParseFr, Many, Prepend;
    var out: seq<(F, F)>, cur: nat := [], from;
    k := k0;
    ghost var two := ParseTwo(ParseFr(WireOf(f, t)));
    ManyStart(two, count, proof[from..]);
    Folded([Scalar, Scalar], tail);
    for i := 0 to count
      invariant Tracks(f, t, proof, k) && cur <= |proof|
      invariant k == k0.(left := Times([Scalar, Scalar], count - i) + tail, cur := cur)
      invariant Prepend(out, Many(two, count - i, proof[cur..])) == Many(two, count, proof[from..])
    {
      Unfold([Scalar, Scalar], count - i, tail);
      ManyStep(two, count - i, out, proof[cur..]);
      var a, b;
      a, k := NextScalar(f, t, proof, cur, k);
      if a.Err? { return Err(a.error), k; }
      b, k := NextScalar(f, t, proof, a.value.1, k);
      if b.Err? { return Err(b.error), k; }
      out, cur := out + [(a.value.0, b.value.0)], b.value.1;
    }
    ManyDone(two, out, proof[cur..]);
    return Ok((out, cur)), k;
  }

  lemma EvalOpsSplit<F>(vk: Key<F>, tail: seq<Op>)
    ensures EvalOps(vk) + tail ==
            Times([Scalar], vk.numAdviceQueries) + (Times([Scalar], vk.numFixedQueries) + ([Scalar] + (Times([Scalar], vk.NumPermColumns())
            + (ChunkOps(vk.numPermChunks) + (Times(Times([Scalar], 5), vk.NumLookups()) + (Times([Scalar, Scalar], vk.NumShuffles()) + tail))))))
  {
    hide Times, ChunkOps;
    var g, e, d := Times([Scalar, Scalar], vk.NumShuffles()), Times(Times([Scalar], 5), vk.NumLookups()), ChunkOps(vk.numPermChunks);
    var c, b, a := Times([Scalar], vk.NumPermColumns()), Times([Scalar], vk.numFixedQueries), Times([Scalar], vk.numAdviceQueries);
    RegroupTail(e, g, tail);
    RegroupTail(d, e + g, tail);
    RegroupTail(c, d + (e + g), tail);
    RegroupTail([Scalar], c + (d + (e + g)), tail);
    RegroupTail(b, [Scalar] + (c + (d + (e + g))), tail);
    RegroupTail(a, b + ([Scalar] + (c + (d + (e + g)))), tail);
  }

  method ReadEvaluations<F(!new)>(f: Field<F>, t: Transcript, vk: Key<F>, proof: seq<byte>, from: nat, ghost tail: seq<Op>, ghost k0: Track<F>)
    returns (r: Result<(Evals<F>, nat), Error>, ghost k: Track<F>)
    requires Tracks(f, t, proof, k0) && k0.cur == from <= |proof| && k0.left == EvalOps(vk) + tail
    modifies t
    ensures Tracks(f, t, proof, k) && k.start == k0.start && k.script == k0.script
    ensures Reached(ParseEvals(WireOf(f, t), vk, proof[from..]), r, proof)
    ensures r.Ok? ==> k == k0.(left := tail, cur := r.value.1)
  {
    hide Tracks, Times, ParseFr, ParseTwo, Many, EvalOps, ChunkOps, ParseChunks, ParseLookupEvals;
    ghost var t6 := Times([Scalar, Scalar], vk.NumShuffles()) + tail;
    ghost var t5 := Times(Times([Scalar], 5), vk.NumLookups()) + t6;
    ghost var t4 := ChunkOps(vk.numPermChunks) + t5;
    ghost var t3 := Times([Scalar], vk.NumPermColumns()) + t4;
    ghost var t2 := [Scalar] + t3;
    ghost var t1 := Times([Scalar], vk.numFixedQueries) + t2;
    EvalOpsSplit(vk, tail);
    var advice, fixed, random, common, products, lookups, shuffles;
    advice, k := ReadScalars(f, t, proof, from, vk.numAdviceQueries, t1, k0);
    if advice.Err? { return Err(advice.error), k; }
    fixed, k := ReadScalars(f, t, proof, advice.value.1, vk.numFixedQueries, t2, k);
    if fixed.Err? { return Err(fixed.error), k; }
    FirstOp(Scalar, t3);
    random, k := NextScalar(f, t, proof, fixed.value.1, k);
    if random.Err? { return Err(random.error), k; }
    common, k := ReadScalars(f, t, proof, random.value.1, vk.NumPermColumns(), t4, k);
    if common.Err? { return Err(common.error), k; }
    products, k := ReadChunks(f, t, proof, common.value.1, vk.numPermChunks, t5, k);
    if products.Err? { return Err(products.error), k; }
    lookups, k := ReadLookupEvals(f, t, proof, products.value.1, vk.NumLookups(), t6, k);
    if lookups.Err? { return Err(lookups.error), k; }
    shuffles, k := ReadShuffleEvals(f, t, proof, lookups.value.1, vk.NumShuffles(), tail, k);
    if shuffles.Err? { return Err(shuffles.error), k; }
    return Ok((Evals(advice.value.0, fixed.value.0, random.value.0, common.value.0, products.value.0, lookups.value.0, shuffles.value.0),
               shuffles.value.1)), k;
  }
}
