/**
 The byte format of a proof: which points and scalars follow each other, into which fields they go,
 how long a proof is, and when it is accepted.
 */
module ProofFormat {
  import opened Wrappers
  import opened Bytes
  import opened Fields
  import opened Plonk
  import opened Expression
  import opened Formats
  import opened Transcript

  type Key<F> = PlonkProtocol<F, seq<byte>>
  type WireProof<F> = PlonkProof<F, seq<byte>>

  // ----- one point, one scalar -----

  datatype Wire<!F(!new)> = Wire(f: Field<F>, scheme: Scheme, decompress: Decompress)

  ghost function ParseG1<F(!new)>(w: Wire<F>): Parse<seq<byte>> {
    (b: seq<byte>) =>
      if |b| < PointLen(w.scheme) then Err(InvalidProofEncoding)
      else
        var p := DecodePoint(w.scheme, w.decompress, b[..PointLen(w.scheme)]);
        if p.Err? then Err(p.error) else Ok((p.value, b[PointLen(w.scheme)..]))
  }

  ghost function ParseFr<F(!new)>(w: Wire<F>): Parse<F> {
    (b: seq<byte>) =>
      if |b| < 32 then Err(InvalidProofEncoding)
      else
        var a := ScalarFromBytes(w.f, b[..32]);
        if a.None? then Err(PublicInputOutOfRange) else Ok((a.value, b[32..]))
  }

  /** Two of a kind. */
  ghost function ParseTwo<V>(p: Parse<V>): Parse<(V, V)> {
    (b: seq<byte>) =>
      var first := p(b);
      if first.Err? then Err(first.error)
      else
        var second := p(first.value.1);
        if second.Err? then Err(second.error) else Ok(((first.value.0, second.value.0), second.value.1))
  }

  ghost function Firsts<A, B>(s: seq<(A, B)>): (r: seq<A>)
    ensures |r| == |s|
  {
    seq(|s|, i requires 0 <= i < |s| => s[i].0)
  }

  ghost function Seconds<A, B>(s: seq<(A, B)>): (r: seq<B>)
    ensures |r| == |s|
  {
    seq(|s|, i requires 0 <= i < |s| => s[i].1)
  }

  // ----- advice commitments: read phase by phase, stored by column -----

  ghost predicate Below(s: seq<nat>, m: nat) {
    forall i :: 0 <= i < |s| ==> s[i] < m
  }

  /** The columns below m that belong to a phase, in order. */
  ghost function ColumnsOf(phases: seq<byte>, p: nat, m: nat): (s: seq<nat>)
    requires m <= |phases|
    ensures Below(s, m)
  {
    if m == 0 then []
    else ColumnsOf(phases, p, m - 1) + if phases[m - 1] == p then [m - 1] else []
  }

  /** The columns of the first n phases, phase by phase. */
  ghost function PhaseOrder(phases: seq<byte>, n: nat): (s: seq<nat>)
    ensures Below(s, |phases|)
  {
    if n == 0 then [] else PhaseOrder(phases, n - 1) + ColumnsOf(phases, n - 1, |phases|)
  }

  /** These are the columns below m of a phase, each once and in order. */
  ghost predicate OfPhase(phases: seq<byte>, s: seq<nat>, p: nat, m: nat)
    requires m <= |phases|
  {
    && (forall i :: 0 <= i < |s| ==> s[i] < m && phases[s[i]] == p)
    && (forall i, j :: 0 <= i < j < |s| ==> s[i] < s[j])
    && (forall c: nat :: c < m && phases[c] == p ==> c in s)
  }

  lemma {:induction false} ColumnsOfSpec(phases: seq<byte>, p: nat, m: nat)
    requires m <= |phases|
    ensures OfPhase(phases, ColumnsOf(phases, p, m), p, m)
  {
    if m > 0 {
      ColumnsOfSpec(phases, p, m - 1);
    }
  }

  lemma ColumnAt(phases: seq<byte>, p: nat, i: nat)
    requires i < |ColumnsOf(phases, p, |phases|)|
    ensures ColumnsOf(phases, p, |phases|)[i] < |phases| && phases[ColumnsOf(phases, p, |phases|)[i]] == p
  {
    hide ColumnsOf;
    var s := ColumnsOf(phases, p, |phases|);
    ColumnsOfSpec(phases, p, |phases|);
    assert s[i] < |phases|;
  }

  /** These columns, all of them, belong to the first n phases. */
  ghost predicate InPhases(phases: seq<byte>, s: seq<nat>, n: nat) {
    && (forall i :: 0 <= i < |s| ==> s[i] < |phases| && phases[s[i]] < n)
    && (forall c: nat :: c < |phases| && phases[c] < n ==> c in s)
  }

  lemma PhaseJoins(phases: seq<byte>, before: seq<nat>, last: seq<nat>, n: nat)
    requires InPhases(phases, before, n) && OfPhase(phases, last, n, |phases|)
    ensures InPhases(phases, before + last, n + 1)
  {
    var s := before + last;
    forall i | 0 <= i < |s| ensures s[i] < |phases| && phases[s[i]] < n + 1 {
      if i < |before| {
        assert s[i] == before[i];
      } else {
        assert s[i] == last[i - |before|];
      }
    }
  }

  lemma {:induction false} PhaseOrderSpec(phases: seq<byte>, n: nat)
    ensures InPhases(phases, PhaseOrder(phases, n), n)
  {
    hide ColumnsOf;
    if n > 0 {
      PhaseOrderSpec(phases, n - 1);
      ColumnsOfSpec(phases, n - 1, |phases|);
      PhaseJoins(phases, PhaseOrder(phases, n - 1), ColumnsOf(phases, n - 1, |phases|), n - 1);
    }
  }

  lemma OrderAt(phases: seq<byte>, n: nat, i: nat)
    requires i < |PhaseOrder(phases, n)|
    ensures PhaseOrder(phases, n)[i] < |phases| && phases[PhaseOrder(phases, n)[i]] < n
  {
    hide PhaseOrder;
    var s := PhaseOrder(phases, n);
    PhaseOrderSpec(phases, n);
    assert s[i] < |phases|;
  }

  ghost function Ascending(n: nat): (s: seq<nat>)
    ensures |s| == n && Below(s, n)
  {
    seq(n, i => i)
  }

  /** The encoding of the identity. */
  ghost function ZeroPoint(): (p: seq<byte>)
    ensures |p| == 64
  {
    seq(64, _ => 0)
  }

  ghost function ZeroPoints(n: nat): (s: seq<seq<byte>>)
    ensures |s| == n
  {
    seq(n, _ => ZeroPoint())
  }

  /** The points put at the positions the order lists. */
  ghost function Placed<V>(initial: seq<V>, order: seq<nat>, values: seq<V>): (s: seq<V>)
    requires |values| == |order| && Below(order, |initial|)
    ensures |s| == |initial|
  {
    if order == [] then initial
    else
      var n := |order| - 1;
      Placed(initial, order[..n], values[..n])[order[n] := values[n]]
  }

  ghost predicate Lex(phases: seq<byte>, a: nat, b: nat)
    requires a < |phases| && b < |phases|
  {
    phases[a] < phases[b] || (phases[a] == phases[b] && a < b)
  }

  /** The order is increasing in (phase, column). */
  lemma {:induction false} PhaseOrderSorted(phases: seq<byte>, n: nat, i: nat, j: nat)
    requires i < j < |PhaseOrder(phases, n)|
    ensures Lex(phases, PhaseOrder(phases, n)[i], PhaseOrder(phases, n)[j])
  {
    hide ColumnsOf;
    if n > 0 {
      var before, last := PhaseOrder(phases, n - 1), ColumnsOf(phases, n - 1, |phases|);
      var order := PhaseOrder(phases, n);
      assert order == before + last;
      ColumnsOfSpec(phases, n - 1, |phases|);
      if j < |before| {
        PhaseOrderSorted(phases, n - 1, i, j);
      } else {
        ColumnAt(phases, n - 1, j - |before|);
        assert order[j] == last[j - |before|] && phases[order[j]] == n - 1;
        if i < |before| {
          OrderAt(phases, n - 1, i);
          assert order[i] == before[i] && phases[order[i]] < n - 1;
        } else {
          ColumnAt(phases, n - 1, i - |before|);
          assert order[i] == last[i - |before|] && phases[order[i]] == n - 1;
        }
      }
    }
  }

  lemma {:induction false} PlacedAt<V>(initial: seq<V>, order: seq<nat>, values: seq<V>, i: nat)
    requires |values| == |order| && Below(order, |initial|) && i < |order|
    requires forall a, b :: 0 <= a < b < |order| ==> order[a] != order[b]
    ensures Placed(initial, order, values)[order[i]] == values[i]
  {
    var n := |order| - 1;
    if i < n {
      PlacedAt(initial, order[..n], values[..n], i);
    }
  }

  /** Each column's commitment is the wire point at the rank of (phase, column): the points before
      it belong to exactly the lexicographically smaller columns. */
  lemma AdviceCommitmentsByRank(phases: seq<byte>, n: nat, points: seq<seq<byte>>, c: nat) returns (rank: nat)
    requires (forall d :: 0 <= d < |phases| ==> phases[d] < n) && |points| == |PhaseOrder(phases, n)| && c < |phases|
    ensures rank < |points| && Placed(ZeroPoints(|phases|), PhaseOrder(phases, n), points)[c] == points[rank]
    ensures forall d :: 0 <= d < |phases| ==> (Lex(phases, d, c) <==> d in PhaseOrder(phases, n)[..rank])
  {
    hide PhaseOrder, Placed;
    var order := PhaseOrder(phases, n);
    PhaseOrderSpec(phases, n);
    assert c in order;
    rank :| 0 <= rank < |order| && order[rank] == c;
    forall a, b | 0 <= a < b < |order| ensures order[a] != order[b] && Lex(phases, order[a], order[b]) {
      PhaseOrderSorted(phases, n, a, b);
    }
    PlacedAt(ZeroPoints(|phases|), order, points, rank);
    forall d | 0 <= d < |phases| ensures Lex(phases, d, c) <==> d in order[..rank] {
      assert d in order;
      var i :| 0 <= i < |order| && order[i] == d;
      if i < rank {
        assert order[..rank][i] == d;
      } else if i > rank {
        assert Lex(phases, order[rank], order[i]);
      }
      if d in order[..rank] {
        var j :| 0 <= j < rank && order[..rank][j] == d;
        assert Lex(phases, order[j], order[rank]);
      }
    }
  }

  // ----- the whole proof -----

  ghost function WireOrder<F>(vk: Key<F>): seq<nat> {
    if vk.numPhases <= 1 && vk.adviceColumnPhase == [] then Ascending(vk.numAdvice)
    else PhaseOrder(vk.adviceColumnPhase, vk.numPhases)
  }

  /** The phase tables have one entry per column and per challenge, as every parsed key's do. */
  ghost predicate Tabled<F>(vk: Key<F>) {
    |vk.adviceColumnPhase| == vk.numAdvice && |vk.challengePhase| == vk.numChallenges
  }

  ghost predicate AdviceTabled<F>(vk: Key<F>) {
    (vk.numPhases <= 1 && vk.adviceColumnPhase == []) || |vk.adviceColumnPhase| == vk.numAdvice
  }

  lemma WireOrderInRange<F>(vk: Key<F>)
    requires AdviceTabled(vk)
    ensures Below(WireOrder(vk), vk.numAdvice)
  {
  }

  datatype Commits = Commits(advice: seq<seq<byte>>, lookupInputs: seq<seq<byte>>, lookupTables: seq<seq<byte>>,
                             permProducts: seq<seq<byte>>, lookupProducts: seq<seq<byte>>, shuffleProducts: seq<seq<byte>>,
                             randomPoly: seq<byte>, h: seq<seq<byte>>)

  function Pieces(csDegree: nat): nat {
    if csDegree == 0 then 0 else csDegree - 1
  }

  /** The grand product, random and quotient commitments. */
  datatype Products = Products(perm: seq<seq<byte>>, lookups: seq<seq<byte>>, shuffles: seq<seq<byte>>, randomPoly: seq<byte>, h: seq<seq<byte>>)

  ghost function ParseProducts<F(!new)>(w: Wire<F>, vk: Key<F>, b: seq<byte>): Result<(Products, seq<byte>), Error> {
    var g := ParseG1(w);
    var perm := Many(g, vk.numPermChunks, b);
    if perm.Err? then Err(perm.error)
    else
      var lookups := Many(g, vk.NumLookups(), perm.value.1);
      if lookups.Err? then Err(lookups.error)
      else
        var shuffles := Many(g, vk.NumShuffles(), lookups.value.1);
        if shuffles.Err? then Err(shuffles.error)
        else
          var random := g(shuffles.value.1);
          if random.Err? then Err(random.error)
          else
            var h := Many(g, Pieces(vk.csDegree), random.value.1);
            if h.Err? then Err(h.error)
            else Ok((Products(perm.value.0, lookups.value.0, shuffles.value.0, random.value.0, h.value.0), h.value.1))
  }

  ghost function ParseCommits<F(!new)>(w: Wire<F>, vk: Key<F>, b: seq<byte>): Result<(Commits, seq<byte>), Error>
    requires AdviceTabled(vk)
  {
    var g := ParseG1(w);
    var advice := Many(g, |WireOrder(vk)|, b);
    if advice.Err? then Err(advice.error)
    else
      var permuted := Many(ParseTwo(g), vk.NumLookups(), advice.value.1);
      if permuted.Err? then Err(permuted.error)
      else
        var products := ParseProducts(w, vk, permuted.value.1);
        if products.Err? then Err(products.error)
        else
          WireOrderInRange(vk);
          ManyCount(g, |WireOrder(vk)|, b);
          var p := products.value.0;
          Ok((Commits(Placed(ZeroPoints(vk.numAdvice), WireOrder(vk), advice.value.0), Firsts(permuted.value.0),
                      Seconds(permuted.value.0), p.perm, p.lookups, p.shuffles, p.randomPoly, p.h), products.value.1))
  }

  lemma {:induction false} ManyCount<V>(p: Parse<V>, n: nat, b: seq<byte>)
    ensures Many(p, n, b).Ok? ==> |Many(p, n, b).value.0| == n
  {
    if n > 0 && p(b).Ok? {
      ManyCount(p, n - 1, p(b).value.1);
    }
  }

  datatype Evals<F> = Evals(advice: seq<F>, fixed: seq<F>, randomPoly: F, common: seq<F>, products: seq<(F, F, F)>,
                            lookups: seq<LookupEvals<F>>, shuffles: seq<(F, F)>)

  /** Three values per chunk, two for the last one. */
  ghost function ParseChunks<F(!new)>(w: Wire<F>, left: nat, b: seq<byte>): Result<(seq<(F, F, F)>, seq<byte>), Error> {
    if left == 0 then Ok(([], b))
    else
      var two := ParseTwo(ParseFr(w))(b);
      if two.Err? then Err(two.error)
      else if left == 1 then Prepend([(two.value.0.0, two.value.0.1, w.f.Zero())], ParseChunks(w, 0, two.value.1))
      else
        var last := ParseFr(w)(two.value.1);
        if last.Err? then Err(last.error)
        else Prepend([(two.value.0.0, two.value.0.1, last.value.0)], ParseChunks(w, left - 1, last.value.1))
  }

  /** The five values of a lookup in transcript order. */
  ghost function ParseLookupEvals<F(!new)>(w: Wire<F>): Parse<LookupEvals<F>> {
    (b: seq<byte>) =>
      var five := Many(ParseFr(w), 5, b);
      if five.Err? then Err(five.error)
      else
        ManyCount(ParseFr(w), 5, b);
        var v := five.value.0;
        Ok((LookupEvals(v[0], v[1], v[2], v[3], v[4]), five.value.1))
  }

  ghost function ParseEvals<F(!new)>(w: Wire<F>, vk: Key<F>, b: seq<byte>): Result<(Evals<F>, seq<byte>), Error> {
    var s := ParseFr(w);
    var advice := Many(s, vk.numAdviceQueries, b);
    if advice.Err? then Err(advice.error)
    else
      var fixed := Many(s, vk.numFixedQueries, advice.value.1);
      if fixed.Err? then Err(fixed.error)
      else
        var random := s(fixed.value.1);
        if random.Err? then Err(random.error)
        else
          var common := Many(s, vk.NumPermColumns(), random.value.1);
          if common.Err? then Err(common.error)
          else
            var products := ParseChunks(w, vk.numPermChunks, common.value.1);
            if products.Err? then Err(products.error)
            else
              var lookups := Many(ParseLookupEvals(w), vk.NumLookups(), products.value.1);
              if lookups.Err? then Err(lookups.error)
              else
                var shuffles := Many(ParseTwo(s), vk.NumShuffles(), lookups.value.1);
                if shuffles.Err? then Err(shuffles.error)
                else Ok((Evals(advice.value.0, fixed.value.0, random.value.0, common.value.0, products.value.0,
                               lookups.value.0, shuffles.value.0), shuffles.value.1))
  }

  /** The opening points: two for SHPLONK, one per witness for GWC. */
  function OpeningPoints(scheme: Scheme, witnesses: nat): nat {
    if scheme == Gwc then witnesses else 2
  }

  datatype Contents<F> = Contents(commits: Commits, evals: Evals<F>, opening: seq<seq<byte>>)

  /** What a proof's bytes contain; nothing may be left over. */
  ghost function ParseProof<F(!new)>(w: Wire<F>, vk: Key<F>, witnesses: nat, b: seq<byte>): (r: Result<Contents<F>, Error>)
    ensures r.Ok? ==> |r.value.opening| == OpeningPoints(w.scheme, witnesses)
  {
    if !AdviceTabled(vk) then Err(Protocol)
    else
      var commits := ParseCommits(w, vk, b);
      if commits.Err? then Err(commits.error)
      else
        var evals := ParseEvals(w, vk, commits.value.1);
        if evals.Err? then Err(evals.error)
        else
          var opening := Many(ParseG1(w), OpeningPoints(w.scheme, witnesses), evals.value.1);
          if opening.Err? then Err(opening.error)
          else if opening.value.1 != [] then Err(InvalidProofEncoding)
          else
            ManyCount(ParseG1(w), OpeningPoints(w.scheme, witnesses), evals.value.1);
            Ok(Contents(commits.value.0, evals.value.0, opening.value.0))
  }

  /** The record handed to the verifier. */
  ghost function ProofOf<F>(c: Contents<F>, w1: seq<byte>, w2: seq<byte>): WireProof<F> {
    PlonkProof(c.commits.advice, c.commits.permProducts, c.commits.randomPoly, c.commits.h, c.evals.advice, c.evals.fixed,
               c.evals.randomPoly, c.evals.common, c.evals.products, c.commits.lookupInputs, c.commits.lookupTables,
               c.commits.lookupProducts, c.evals.lookups, c.commits.shuffleProducts, c.evals.shuffles, w1, w2)
  }
}
