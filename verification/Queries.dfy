/**
 The list of opening queries the verifier checks, and the number of distinct points among them
 that the proof reader derives from the verifying key alone.
 */
module Queries {
  import opened Wrappers
  import opened PowersOfTwo
  import opened Fields
  import opened Polynomials
  import opened Domain
  import opened Lagrange
  import opened Kzg
  import opened Grouping
  import opened Plonk

  /** Where a polynomial is opened: at a rotation of the challenge, or at the last usable row. */
  datatype Place = Rotation(r: int) | LastRow

  /** A query before points are filled in: a commitment slot, a place and the claimed value. */
  datatype Opening<F> = Opening(id: nat, at: Place, eval: F)

  /** What turns openings into queries: the domain, the challenge and the commitment slots. */
  datatype Setting<F> = Setting(omega: F, omegaLast: F, n: nat, x: F, table: seq<F>)

  type Vk<F> = PlonkProtocol<F, F>
  type Proof<F> = PlonkProof<F, F>

  // ----- the commitments, in the order their slot numbers are handed out -----

  ghost function Table<F>(vk: Vk<F>, proof: Proof<F>, h: F): seq<F> {
    proof.adviceCommits + proof.permutationProductCommits + proof.lookupProductCommits
    + proof.lookupPermutedInputCommits + proof.lookupPermutedTableCommits + proof.shuffleProductCommits
    + vk.fixedCommitments + vk.permutationCommitments + [h] + [proof.randomPolyCommit]
  }

  /** The first slot number of each kind of commitment. */
  datatype Bases = Bases(permProd: nat, lookupProduct: nat, lookupInput: nat, lookupTable: nat,
                         shuffleProduct: nat, fixed: nat, permCommon: nat, h: nat, random: nat)

  function BasesOf<F>(vk: Vk<F>, proof: Proof<F>): Bases {
    var b1 := |proof.adviceCommits|;
    var b2 := b1 + |proof.permutationProductCommits|;
    var b3 := b2 + |proof.lookupProductCommits|;
    var b4 := b3 + |proof.lookupPermutedInputCommits|;
    var b5 := b4 + |proof.lookupPermutedTableCommits|;
    var b6 := b5 + |proof.shuffleProductCommits|;
    var b7 := b6 + |vk.fixedCommitments|;
    var b8 := b7 + |vk.permutationCommitments|;
    Bases(b1, b2, b3, b4, b5, b6, b7, b8, b8 + 1)
  }

  /** Slots `base, base + 1, ...` hold exactly these commitments. */
  ghost predicate Slots<F>(table: seq<F>, base: nat, commits: seq<F>) {
    base + |commits| <= |table| && table[base..base + |commits|] == commits
  }

  lemma SlotsGrow<F(!new)>(t: seq<F>, d: seq<F>)
    ensures Slots(t + d, |t|, d)
    ensures forall base: nat, c: seq<F> :: Slots(t, base, c) ==> Slots(t + d, base, c)
  {
    forall base: nat, c: seq<F> | Slots(t, base, c) ensures Slots(t + d, base, c) {
      assert (t + d)[base..base + |c|] == t[base..base + |c|];
    }
  }

  lemma SlotsOfTable<F(!new)>(vk: Vk<F>, proof: Proof<F>, h: F)
    ensures var t, b := Table(vk, proof, h), BasesOf(vk, proof);
      && Slots(t, 0, proof.adviceCommits) && Slots(t, b.permProd, proof.permutationProductCommits)
      && Slots(t, b.lookupProduct, proof.lookupProductCommits)
      && Slots(t, b.lookupInput, proof.lookupPermutedInputCommits)
      && Slots(t, b.lookupTable, proof.lookupPermutedTableCommits)
      && Slots(t, b.shuffleProduct, proof.shuffleProductCommits)
      && Slots(t, b.fixed, vk.fixedCommitments) && Slots(t, b.permCommon, vk.permutationCommitments)
      && Slots(t, b.h, [h]) && Slots(t, b.random, [proof.randomPolyCommit])
  {
    hide Slots;
    var t1 := proof.adviceCommits;
    SlotsGrow([], t1);
    assert [] + t1 == t1;
    SlotsGrow(t1, proof.permutationProductCommits);
    var t2 := t1 + proof.permutationProductCommits;
    SlotsGrow(t2, proof.lookupProductCommits);
    var t3 := t2 + proof.lookupProductCommits;
    SlotsGrow(t3, proof.lookupPermutedInputCommits);
    var t4 := t3 + proof.lookupPermutedInputCommits;
    SlotsGrow(t4, proof.lookupPermutedTableCommits);
    var t5 := t4 + proof.lookupPermutedTableCommits;
    SlotsGrow(t5, proof.shuffleProductCommits);
    var t6 := t5 + proof.shuffleProductCommits;
    SlotsGrow(t6, vk.fixedCommitments);
    var t7 := t6 + vk.fixedCommitments;
    SlotsGrow(t7, vk.permutationCommitments);
    var t8 := t7 + vk.permutationCommitments;
    SlotsGrow(t8, [h]);
    SlotsGrow(t8 + [h], [proof.randomPolyCommit]);
  }

  // ----- what is opened, and where -----

  ghost function ColumnOpenings<F>(queries: seq<(u32, i32)>, evals: seq<F>, base: nat): (os: seq<Opening<F>>)
    requires |queries| <= |evals|
    ensures |os| == |queries|
  {
    seq(|queries|, i requires 0 <= i < |queries| => Opening(base + queries[i].0, Rotation(queries[i].1), evals[i]))
  }

  ghost function PermOpenings<F>(evals: seq<(F, F, F)>, base: nat, n: nat): seq<Opening<F>>
    requires n <= |evals|
  {
    if n == 0 then []
    else
      PermOpenings(evals, base, n - 1) +
      [Opening(base + n - 1, Rotation(0), evals[n - 1].0), Opening(base + n - 1, Rotation(1), evals[n - 1].1)]
  }

  /** All chunks but the last are also opened at the last usable row, last chunk first. */
  ghost function PermLastOpenings<F>(evals: seq<(F, F, F)>, base: nat, lo: nat, hi: nat): seq<Opening<F>>
    requires lo <= hi <= |evals|
    decreases hi - lo
  {
    if lo == hi then [] else PermLastOpenings(evals, base, lo + 1, hi) + [Opening(base + lo, LastRow, evals[lo].2)]
  }

  ghost function LookupOpenings<F>(evals: seq<LookupEvals<F>>, b: Bases, n: nat): seq<Opening<F>>
    requires n <= |evals|
  {
    if n == 0 then []
    else
      var e, i := evals[n - 1], n - 1;
      LookupOpenings(evals, b, n - 1) +
      [Opening(b.lookupProduct + i, Rotation(0), e.productEval),
       Opening(b.lookupInput + i, Rotation(0), e.permutedInputEval),
       Opening(b.lookupTable + i, Rotation(0), e.permutedTableEval),
       Opening(b.lookupInput + i, Rotation(-1), e.permutedInputInvEval),
       Opening(b.lookupProduct + i, Rotation(1), e.productNextEval)]
  }

  ghost function ShuffleOpenings<F>(evals: seq<(F, F)>, base: nat, n: nat): seq<Opening<F>>
    requires n <= |evals|
  {
    if n == 0 then []
    else
      ShuffleOpenings(evals, base, n - 1) +
      [Opening(base + n - 1, Rotation(0), evals[n - 1].0), Opening(base + n - 1, Rotation(1), evals[n - 1].1)]
  }

  ghost function CommonOpenings<F>(evals: seq<F>, base: nat, n: nat): (os: seq<Opening<F>>)
    requires n <= |evals|
    ensures |os| == n
  {
    seq(n, i requires 0 <= i < n => Opening(base + i, Rotation(0), evals[i]))
  }

  function Min(a: nat, b: nat): nat {
    if a < b then a else b
  }

  function LastIndex(chunks: nat): nat {
    if chunks == 0 then 0 else chunks - 1
  }

  /** Where the query builder indexes the permutation parts of the proof without a check. */
  ghost predicate PermIndexable<F>(vk: Vk<F>, proof: Proof<F>) {
    LastIndex(vk.numPermChunks) <= |proof.permutationProductCommits|
    && LastIndex(vk.numPermChunks) <= |proof.permutationProductEvals|
  }

  ghost predicate ColumnsBuildable<F>(queries: seq<(u32, i32)>, evals: seq<F>, commits: seq<F>) {
    |queries| <= |evals| && forall i :: 0 <= i < |queries| ==> queries[i].0 < |commits|
  }

  ghost predicate LookupsBuildable<F>(vk: Vk<F>, proof: Proof<F>) {
    vk.NumLookups() == |proof.lookupEvals| == |proof.lookupProductCommits|
    == |proof.lookupPermutedInputCommits| == |proof.lookupPermutedTableCommits|
  }

  ghost predicate ShufflesBuildable<F>(vk: Vk<F>, proof: Proof<F>) {
    vk.NumShuffles() == |proof.shuffleEvals| == |proof.shuffleProductCommits|
  }

  /** The query builder accepts: every query refers to an existing column and evaluation, and the
      lookup and shuffle parts have the announced sizes. */
  ghost predicate Buildable<F>(vk: Vk<F>, proof: Proof<F>) {
    && ColumnsBuildable(vk.adviceQueries, proof.adviceEvals, proof.adviceCommits)
    && ColumnsBuildable(vk.fixedQueries, proof.fixedEvals, vk.fixedCommitments)
    && LookupsBuildable(vk, proof) && ShufflesBuildable(vk, proof)
  }

  ghost function Openings<F>(vk: Vk<F>, proof: Proof<F>, hEval: F): seq<Opening<F>>
    requires Buildable(vk, proof) && PermIndexable(vk, proof)
  {
    var b := BasesOf(vk, proof);
    ColumnOpenings(vk.adviceQueries, proof.adviceEvals, 0)
    + PermOpenings(proof.permutationProductEvals, b.permProd, Min(|proof.permutationProductCommits|, |proof.permutationProductEvals|))
    + PermLastOpenings(proof.permutationProductEvals, b.permProd, 0, LastIndex(vk.numPermChunks))
    + LookupOpenings(proof.lookupEvals, b, |proof.lookupEvals|)
    + ShuffleOpenings(proof.shuffleEvals, b.shuffleProduct, |proof.shuffleEvals|)
    + ColumnOpenings(vk.fixedQueries, proof.fixedEvals, b.fixed)
    + CommonOpenings(proof.permutationCommonEvals, b.permCommon, Min(|vk.permutationCommitments|, |proof.permutationCommonEvals|))
    + [Opening(b.h, Rotation(0), hEval)] + [Opening(b.random, Rotation(0), proof.randomPolyEval)]
  }

  // ----- from openings to queries -----

  /** The exponent of omega a rotation stands for, with negative rotations wrapped around. */
  function RotationExponent(rotation: int, n: nat): nat
    requires n > 0
  {
    if rotation >= 0 then rotation else n - (-rotation) % n
  }

  ghost function PointAt<F(!new)>(f: Field<F>, s: Setting<F>, at: Place): F
    requires s.n > 0
  {
    match at
    case Rotation(r) => f.mul(s.x, Pow(f, s.omega, RotationExponent(r, s.n)))
    case LastRow => f.mul(s.x, s.omegaLast)
  }

  ghost function QueryOf<F(!new)>(f: Field<F>, s: Setting<F>, o: Opening<F>): VerifierQuery<F>
    requires s.n > 0
  {
    VerifierQuery(o.id, if o.id < |s.table| then s.table[o.id] else f.Zero(), PointAt(f, s, o.at), o.eval)
  }

  /** The queries the openings stand for: the commitment comes from the slot alone. */
  ghost function QueriesOf<F(!new)>(f: Field<F>, s: Setting<F>, os: seq<Opening<F>>): (qs: seq<VerifierQuery<F>>)
    requires s.n > 0
    ensures |qs| == |os|
  {
    seq(|os|, i requires 0 <= i < |os| => QueryOf(f, s, os[i]))
  }

  lemma QueriesOfConcat<F(!new)>(f: Field<F>, s: Setting<F>, a: seq<Opening<F>>, b: seq<Opening<F>>)
    requires s.n > 0
    ensures QueriesOf(f, s, a + b) == QueriesOf(f, s, a) + QueriesOf(f, s, b)
  {
  }

  // ----- rotations -----

  /** `x * omega^rotation`, with the exponent made non-negative modulo n. */
  method RotatePoint<F(!new)>(f: Field<F>, x: F, omega: F, rotation: int, n: nat) returns (r: F)
    requires f.Valid() && n > 0
    ensures r == f.mul(x, Pow(f, omega, RotationExponent(rotation, n)))
    ensures HasOrder(f, omega, n) ==> r == Rotated(f, omega, n, x, rotation)
  {
    hide Field.Valid, HasOrder, Pow, PowZ;
    var exp: nat;
    if rotation >= 0 {
      exp := rotation;
    } else {
      var m := (-rotation) % n;
      exp := n - m;
    }
    var w := PowU64(f, omega, exp);
    r := f.mul(x, w);
    if HasOrder(f, omega, n) {
      ExponentIsRotation(f, omega, n, rotation);
    }
  }

  lemma ExponentIsRotation<F(!new)>(f: Field<F>, omega: F, n: nat, rotation: int)
    requires f.Valid() && HasOrder(f, omega, n)
    ensures Pow(f, omega, RotationExponent(rotation, n)) == PowZ(f, omega, n, rotation)
  {
    hide Field.Valid, HasOrder, Pow, PowZ;
    if rotation >= 0 {
      PowZNat(f, omega, n, rotation);
    } else {
      NegativeExponent(f, omega, n, -rotation);
    }
  }

  lemma NegativeExponent<F(!new)>(f: Field<F>, omega: F, n: nat, m: nat)
    requires f.Valid() && HasOrder(f, omega, n)
    ensures m % n <= n && Pow(f, omega, n - m % n) == PowZ(f, omega, n, -(m as int))
  {
    hide Field.Valid, HasOrder, Pow;
    var q := m / n;
    assert m == q * n + m % n;
    NegativeRemainder(m, n);
    if m % n == 0 {
      PowPeriodic(f, omega, n, 0, 1);
    }
  }

  lemma NegativeRemainder(m: nat, n: nat)
    requires n > 0
    ensures (-(m as int)) % n == if m % n == 0 then 0 else n - m % n
  {
    var q, r := m / n, m % n;
    assert m == q * n + r;
    if r == 0 {
      UniqueRemainder(-(m as int), n, -q, 0);
    } else {
      assert -(m as int) == (-q - 1) * n + (n - r);
      UniqueRemainder(-(m as int), n, -q - 1, n - r);
    }
  }

  lemma UniqueRemainder(a: int, n: nat, q: int, r: nat)
    requires n > 0 && r < n && a == q * n + r
    ensures a % n == r
  {
    var q', r' := a / n, a % n;
    assert a == q' * n + r';
    assert (q - q') * n == r' - r;
    assert q - q' >= 1 ==> (q - q') * n >= n;
    assert q - q' <= -1 ==> (q - q') * n <= -(n as int);
  }

  // ----- building the query list -----

  /** The next `count` slot numbers. */
  method AllocateIds(start: nat, count: nat) returns (ids: seq<nat>, next: nat)
    ensures |ids| == count && next == start + count
    ensures forall i :: 0 <= i < count ==> ids[i] == start + i
  {
    ids, next := [], start;
    for i := 0 to count
      invariant |ids| == i && next == start + i
      invariant forall j :: 0 <= j < i ==> ids[j] == start + j
    {
      ids := ids + [next];
      next := next + 1;
    }
  }

  /** Slot numbers starting at `base` for these commitments. */
  ghost predicate Named<F(!new)>(s: Setting<F>, base: nat, ids: seq<nat>, commits: seq<F>) {
    && |ids| == |commits|
    && Slots(s.table, base, commits)
    && forall i :: 0 <= i < |ids| ==> ids[i] == base + i
  }

  /** One query appended for one opening. */
  lemma Push<F(!new)>(f: Field<F>, s: Setting<F>, q: seq<VerifierQuery<F>>, os: seq<Opening<F>>, o: Opening<F>, v: VerifierQuery<F>)
    requires s.n > 0 && QueryOf(f, s, o) == v
    ensures q + QueriesOf(f, s, os) + [v] == q + QueriesOf(f, s, os + [o])
  {
    QueriesOfConcat(f, s, os, [o]);
  }

  lemma NamedQuery<F(!new)>(f: Field<F>, s: Setting<F>, base: nat, ids: seq<nat>, commits: seq<F>, i: nat, at: Place, eval: F)
    requires s.n > 0 && Named(s, base, ids, commits) && i < |commits|
    ensures QueryOf(f, s, Opening(base + i, at, eval)) == VerifierQuery(ids[i], commits[i], PointAt(f, s, at), eval)
  {
    assert s.table[base..base + |commits|][i] == commits[i];
  }

  /** The challenge itself, and the next row. */
  lemma NearPoints<F(!new)>(f: Field<F>, s: Setting<F>)
    requires f.Valid() && s.n > 0
    ensures PointAt(f, s, Rotation(0)) == s.x && PointAt(f, s, Rotation(1)) == f.mul(s.x, s.omega)
  {
    hide Field.Valid, Pow;
    PowOne(f, s.omega);
    MulOne(f, s.x);
  }

  /** One query per entry of an advice or fixed query list. */
  method ColumnQueries<F(!new)>(f: Field<F>, ghost s: Setting<F>, x: F, omega: F, n: nat, queries: seq<(u32, i32)>,
                                evals: seq<F>, commits: seq<F>, ids: seq<nat>, ghost base: nat, q: seq<VerifierQuery<F>>)
    returns (r: Result<seq<VerifierQuery<F>>, Error>)
    requires f.Valid() && n > 0 && s.x == x && s.omega == omega && s.n == n
    requires Named(s, base, ids, commits)
    ensures r == if ColumnsBuildable(queries, evals, commits)
                 then Ok(q + QueriesOf(f, s, ColumnOpenings(queries, evals, base))) else Err(Protocol)
  {
    hide Field.Valid, Pow, Named, QueryOf, PointAt;
    var out := q;
    assert |commits| == |ids| by { NamedLengths(s, base, ids, commits); }
    for i := 0 to |queries|
      invariant i <= |evals|
      invariant forall j :: 0 <= j < i ==> queries[j].0 < |commits|
      invariant out == q + QueriesOf(f, s, ColumnOpenings(queries[..i], evals, base))
    {
      var (col, rotation) := queries[i];
      if col >= |commits| {
        return Err(Protocol);
      }
      var point := RotatePoint(f, x, omega, rotation, n);
      if i >= |evals| {
        return Err(Protocol);
      }
      ghost var os := ColumnOpenings(queries[..i], evals, base);
      assert ColumnOpenings(queries[..i + 1], evals, base) == os + [Opening(base + col, Rotation(rotation), evals[i])];
      NamedQuery(f, s, base, ids, commits, col, Rotation(rotation), evals[i]);
      RotationPoint(f, s, rotation);
      Push(f, s, q, os, Opening(base + col, Rotation(rotation), evals[i]), VerifierQuery(ids[col], commits[col], point, evals[i]));
      out := out + [VerifierQuery(ids[col], commits[col], point, evals[i])];
    }
    assert queries[..|queries|] == queries;
    return Ok(out);
  }

  lemma NamedLengths<F(!new)>(s: Setting<F>, base: nat, ids: seq<nat>, commits: seq<F>)
    requires Named(s, base, ids, commits)
    ensures |ids| == |commits|
  {
  }

  lemma RotationPoint<F(!new)>(f: Field<F>, s: Setting<F>, rotation: int)
    requires s.n > 0
    ensures PointAt(f, s, Rotation(rotation)) == f.mul(s.x, Pow(f, s.omega, RotationExponent(rotation, s.n)))
  {
  }

  /** Grand product commitments: at x and the next row, then all but the last at the last usable row. */
  method PermutationQueries<F(!new)>(f: Field<F>, ghost s: Setting<F>, x: F, xNext: F, xLast: F, lastIdx: nat,
                                     evals: seq<(F, F, F)>, commits: seq<F>, ids: seq<nat>, ghost base: nat,
                                     q: seq<VerifierQuery<F>>) returns (out: seq<VerifierQuery<F>>)
    requires f.Valid() && s.n > 0 && lastIdx <= |commits| && lastIdx <= |evals|
    requires x == PointAt(f, s, Rotation(0)) && xNext == PointAt(f, s, Rotation(1)) && xLast == PointAt(f, s, LastRow)
    requires Named(s, base, ids, commits)
    ensures out == q + QueriesOf(f, s, PermOpenings(evals, base, Min(|commits|, |evals|)) + PermLastOpenings(evals, base, 0, lastIdx))
  {
    hide Field.Valid, Pow, Named, QueryOf, PointAt, QueriesOf;
    out := q;
    NamedLengths(s, base, ids, commits);
    NoQueries(f, s);
    for i := 0 to Min(|commits|, |evals|)
      invariant out == q + QueriesOf(f, s, PermOpenings(evals, base, i))
    {
      var (z, zOmega, _) := evals[i];
      var here, next := VerifierQuery(ids[i], commits[i], x, z), VerifierQuery(ids[i], commits[i], xNext, zOmega);
      ghost var os := PermOpenings(evals, base, i);
      ghost var o1, o2 := Opening(base + i, Rotation(0), z), Opening(base + i, Rotation(1), zOmega);
      NamedQuery(f, s, base, ids, commits, i, Rotation(0), z);
      NamedQuery(f, s, base, ids, commits, i, Rotation(1), zOmega);
      Push(f, s, q, os, o1, here);
      Push(f, s, q, os + [o1], o2, next);
      assert PermOpenings(evals, base, i + 1) == os + [o1] + [o2];
      out := out + [here] + [next];
    }
    ghost var first := PermOpenings(evals, base, Min(|commits|, |evals|));
    assert first + [] == first;
    for i := lastIdx downto 0
      invariant out == q + QueriesOf(f, s, first + PermLastOpenings(evals, base, i, lastIdx))
    {
      var (_, _, zLast) := evals[i];
      var last := VerifierQuery(ids[i], commits[i], xLast, zLast);
      ghost var os := PermLastOpenings(evals, base, i + 1, lastIdx);
      NamedQuery(f, s, base, ids, commits, i, LastRow, zLast);
      Push(f, s, q, first + os, Opening(base + i, LastRow, zLast), last);
      assert first + (os + [Opening(base + i, LastRow, zLast)]) == first + os + [Opening(base + i, LastRow, zLast)];
      out := out + [last];
    }
  }

  lemma NoQueries<F(!new)>(f: Field<F>, s: Setting<F>)
    requires s.n > 0
    ensures QueriesOf(f, s, []) == []
  {
  }

  /** Five queries per lookup. */
  method LookupQueries<F(!new)>(f: Field<F>, ghost s: Setting<F>, x: F, xNext: F, omega: F, n: nat, evals: seq<LookupEvals<F>>,
                                products: seq<F>, inputs: seq<F>, tables: seq<F>,
                                productIds: seq<nat>, inputIds: seq<nat>, tableIds: seq<nat>, ghost b: Bases,
                                q: seq<VerifierQuery<F>>) returns (out: seq<VerifierQuery<F>>)
    requires f.Valid() && n > 0 && s.n == n && s.x == x && s.omega == omega
    requires |evals| == |products| == |inputs| == |tables|
    requires x == PointAt(f, s, Rotation(0)) && xNext == PointAt(f, s, Rotation(1))
    requires Named(s, b.lookupProduct, productIds, products) && Named(s, b.lookupInput, inputIds, inputs)
    requires Named(s, b.lookupTable, tableIds, tables)
    ensures out == q + QueriesOf(f, s, LookupOpenings(evals, b, |evals|))
  {
    hide Field.Valid, Pow, Named, QueryOf, PointAt, QueriesOf;
    out := q;
    NoQueries(f, s);
    if |evals| > 0 {
      NamedLengths(s, b.lookupProduct, productIds, products);
      NamedLengths(s, b.lookupInput, inputIds, inputs);
      NamedLengths(s, b.lookupTable, tableIds, tables);
      var xPrev := RotatePoint(f, x, omega, -1, n);
      RotationPoint(f, s, -1);
      for i := 0 to |evals|
        invariant out == q + QueriesOf(f, s, LookupOpenings(evals, b, i))
      {
        var e := evals[i];
        var q1 := VerifierQuery(productIds[i], products[i], x, e.productEval);
        var q2 := VerifierQuery(inputIds[i], inputs[i], x, e.permutedInputEval);
        var q3 := VerifierQuery(tableIds[i], tables[i], x, e.permutedTableEval);
        var q4 := VerifierQuery(inputIds[i], inputs[i], xPrev, e.permutedInputInvEval);
        var q5 := VerifierQuery(productIds[i], products[i], xNext, e.productNextEval);
        NamedQuery(f, s, b.lookupProduct, productIds, products, i, Rotation(0), e.productEval);
        NamedQuery(f, s, b.lookupInput, inputIds, inputs, i, Rotation(0), e.permutedInputEval);
        NamedQuery(f, s, b.lookupTable, tableIds, tables, i, Rotation(0), e.permutedTableEval);
        NamedQuery(f, s, b.lookupInput, inputIds, inputs, i, Rotation(-1), e.permutedInputInvEval);
        NamedQuery(f, s, b.lookupProduct, productIds, products, i, Rotation(1), e.productNextEval);
        PushFive(f, s, q, evals, b, i, q1, q2, q3, q4, q5);
        out := out + [q1] + [q2] + [q3] + [q4] + [q5];
      }
    }
  }

  lemma PushFive<F(!new)>(f: Field<F>, s: Setting<F>, q: seq<VerifierQuery<F>>, evals: seq<LookupEvals<F>>, b: Bases, i: nat,
                          q1: VerifierQuery<F>, q2: VerifierQuery<F>, q3: VerifierQuery<F>, q4: VerifierQuery<F>, q5: VerifierQuery<F>)
    requires s.n > 0 && i < |evals|
    requires QueryOf(f, s, Opening(b.lookupProduct + i, Rotation(0), evals[i].productEval)) == q1
    requires QueryOf(f, s, Opening(b.lookupInput + i, Rotation(0), evals[i].permutedInputEval)) == q2
    requires QueryOf(f, s, Opening(b.lookupTable + i, Rotation(0), evals[i].permutedTableEval)) == q3
    requires QueryOf(f, s, Opening(b.lookupInput + i, Rotation(-1), evals[i].permutedInputInvEval)) == q4
    requires QueryOf(f, s, Opening(b.lookupProduct + i, Rotation(1), evals[i].productNextEval)) == q5
    ensures q + QueriesOf(f, s, LookupOpenings(evals, b, i)) + [q1] + [q2] + [q3] + [q4] + [q5]
         == q + QueriesOf(f, s, LookupOpenings(evals, b, i + 1))
  {
    hide QueryOf, PointAt;
    var five := [Opening(b.lookupProduct + i, Rotation(0), evals[i].productEval),
                 Opening(b.lookupInput + i, Rotation(0), evals[i].permutedInputEval),
                 Opening(b.lookupTable + i, Rotation(0), evals[i].permutedTableEval),
                 Opening(b.lookupInput + i, Rotation(-1), evals[i].permutedInputInvEval),
                 Opening(b.lookupProduct + i, Rotation(1), evals[i].productNextEval)];
    assert QueriesOf(f, s, five) == [q1, q2, q3, q4, q5];
    QueriesOfConcat(f, s, LookupOpenings(evals, b, i), five);
  }

  /** Two queries per shuffle. */
  method ShuffleQueries<F(!new)>(f: Field<F>, ghost s: Setting<F>, x: F, xNext: F, evals: seq<(F, F)>, commits: seq<F>,
                                 ids: seq<nat>, ghost base: nat, q: seq<VerifierQuery<F>>) returns (out: seq<VerifierQuery<F>>)
    requires f.Valid() && s.n > 0 && |evals| == |commits|
    requires x == PointAt(f, s, Rotation(0)) && xNext == PointAt(f, s, Rotation(1))
    requires Named(s, base, ids, commits)
    ensures out == q + QueriesOf(f, s, ShuffleOpenings(evals, base, |evals|))
  {
    hide Field.Valid, Pow, Named, QueryOf, PointAt, QueriesOf;
    out := q;
    NamedLengths(s, base, ids, commits);
    NoQueries(f, s);
    for i := 0 to |evals|
      invariant out == q + QueriesOf(f, s, ShuffleOpenings(evals, base, i))
    {
      var (z, zOmega) := evals[i];
      var here, next := VerifierQuery(ids[i], commits[i], x, z), VerifierQuery(ids[i], commits[i], xNext, zOmega);
      ghost var os := ShuffleOpenings(evals, base, i);
      ghost var o1, o2 := Opening(base + i, Rotation(0), z), Opening(base + i, Rotation(1), zOmega);
      NamedQuery(f, s, base, ids, commits, i, Rotation(0), z);
      NamedQuery(f, s, base, ids, commits, i, Rotation(1), zOmega);
      Push(f, s, q, os, o1, here);
      Push(f, s, q, os + [o1], o2, next);
      assert ShuffleOpenings(evals, base, i + 1) == os + [o1] + [o2];
      out := out + [here] + [next];
    }
  }

  /** One query per permutation column. */
  method CommonQueries<F(!new)>(f: Field<F>, ghost s: Setting<F>, x: F, evals: seq<F>, commits: seq<F>, ids: seq<nat>,
                                ghost base: nat, q: seq<VerifierQuery<F>>) returns (out: seq<VerifierQuery<F>>)
    requires f.Valid() && s.n > 0 && x == PointAt(f, s, Rotation(0))
    requires Named(s, base, ids, commits)
    ensures out == q + QueriesOf(f, s, CommonOpenings(evals, base, Min(|commits|, |evals|)))
  {
    hide Field.Valid, Pow, Named, QueryOf, PointAt, QueriesOf;
    out := q;
    NamedLengths(s, base, ids, commits);
    NoQueries(f, s);
    for i := 0 to Min(|commits|, |evals|)
      invariant out == q + QueriesOf(f, s, CommonOpenings(evals, base, i))
    {
      ghost var os := CommonOpenings(evals, base, i);
      NamedQuery(f, s, base, ids, commits, i, Rotation(0), evals[i]);
      Push(f, s, q, os, Opening(base + i, Rotation(0), evals[i]), VerifierQuery(ids[i], commits[i], x, evals[i]));
      assert CommonOpenings(evals, base, i + 1) == os + [Opening(base + i, Rotation(0), evals[i])];
      out := out + [VerifierQuery(ids[i], commits[i], x, evals[i])];
    }
  }

  ghost function SettingOf<F>(vk: Vk<F>, proof: Proof<F>, x: F, h: F, omega: F, omegaLast: F): Setting<F> {
    Setting(omega, omegaLast, Pow2(vk.k), x, Table(vk, proof, h))
  }

  /** The whole query list: it is built exactly when the proof fits the verifying key, and each
      query carries the commitment its slot number stands for. */
  method BuildQueries<F(!new)>(f: Field<F>, vk: Vk<F>, proof: Proof<F>, x: F, h: F, hEval: F, omega: F, omegaLast: F)
    returns (r: Result<seq<VerifierQuery<F>>, Error>)
    requires f.Valid() && PermIndexable(vk, proof)
    ensures r == if Buildable(vk, proof)
                 then Ok(QueriesOf(f, SettingOf(vk, proof, x, h, omega, omegaLast), Openings(vk, proof, hEval)))
                 else Err(Protocol)
  {
    hide Field.Valid, Pow, Named, QueryOf, PointAt, QueriesOf, Slots, Table, Openings, Pow2,
         ColumnOpenings, PermOpenings, PermLastOpenings, LookupOpenings, ShuffleOpenings, CommonOpenings;
    ghost var s, b := SettingOf(vk, proof, x, h, omega, omegaLast), BasesOf(vk, proof);
    SlotsOfTable(vk, proof, h);
    var adviceIds, i1 := AllocateIds(0, |proof.adviceCommits|);
    var permIds, i2 := AllocateIds(i1, |proof.permutationProductCommits|);
    var productIds, i3 := AllocateIds(i2, |proof.lookupProductCommits|);
    var inputIds, i4 := AllocateIds(i3, |proof.lookupPermutedInputCommits|);
    var tableIds, i5 := AllocateIds(i4, |proof.lookupPermutedTableCommits|);
    var shuffleIds, i6 := AllocateIds(i5, |proof.shuffleProductCommits|);
    var fixedIds, i7 := AllocateIds(i6, |vk.fixedCommitments|);
    var commonIds, i8 := AllocateIds(i7, |vk.permutationCommitments|);
    var hId, randomId := i8, i8 + 1;
    AllNamed(vk, proof, s, h, adviceIds, permIds, productIds, inputIds, tableIds, shuffleIds, fixedIds, commonIds);
    var n := Pow2(vk.k);
    NearPoints(f, s);
    LastPoint(f, s);

    var advice := ColumnQueries(f, s, x, omega, n, vk.adviceQueries, proof.adviceEvals, proof.adviceCommits, adviceIds, 0, []);
    if advice.Err? {
      return advice;
    }
    var xNext, xLast := f.mul(x, omega), f.mul(x, omegaLast);
    var q := PermutationQueries(f, s, x, xNext, xLast, LastIndex(vk.numPermChunks), proof.permutationProductEvals,
                                proof.permutationProductCommits, permIds, b.permProd, advice.value);
    if vk.NumLookups() != |proof.lookupEvals| || vk.NumLookups() != |proof.lookupProductCommits|
       || vk.NumLookups() != |proof.lookupPermutedInputCommits| || vk.NumLookups() != |proof.lookupPermutedTableCommits| {
      return Err(Protocol);
    }
    q := LookupQueries(f, s, x, xNext, omega, n, proof.lookupEvals, proof.lookupProductCommits,
                       proof.lookupPermutedInputCommits, proof.lookupPermutedTableCommits, productIds, inputIds, tableIds, b, q);
    if vk.NumShuffles() != |proof.shuffleEvals| || vk.NumShuffles() != |proof.shuffleProductCommits| {
      return Err(Protocol);
    }
    q := ShuffleQueries(f, s, x, xNext, proof.shuffleEvals, proof.shuffleProductCommits, shuffleIds, b.shuffleProduct, q);
    var fixed := ColumnQueries(f, s, x, omega, n, vk.fixedQueries, proof.fixedEvals, vk.fixedCommitments, fixedIds, b.fixed, q);
    if fixed.Err? {
      return fixed;
    }
    q := CommonQueries(f, s, x, proof.permutationCommonEvals, vk.permutationCommitments, commonIds, b.permCommon, fixed.value);
    q := q + [VerifierQuery(hId, h, x, hEval)];
    q := q + [VerifierQuery(randomId, proof.randomPolyCommit, x, proof.randomPolyEval)];
    LastTwo(f, vk, proof, s, h, hEval);
    SectionsJoin(f, vk, proof, s, hEval);
    return Ok(q);
  }

  lemma LastPoint<F(!new)>(f: Field<F>, s: Setting<F>)
    requires s.n > 0
    ensures PointAt(f, s, LastRow) == f.mul(s.x, s.omegaLast)
  {
  }

  lemma AllNamed<F(!new)>(vk: Vk<F>, proof: Proof<F>, s: Setting<F>, h: F, adviceIds: seq<nat>, permIds: seq<nat>,
                          productIds: seq<nat>, inputIds: seq<nat>, tableIds: seq<nat>, shuffleIds: seq<nat>,
                          fixedIds: seq<nat>, commonIds: seq<nat>)
    requires s.table == Table(vk, proof, h)
    requires var b := BasesOf(vk, proof);
      && |adviceIds| == |proof.adviceCommits| && (forall i :: 0 <= i < |adviceIds| ==> adviceIds[i] == i)
      && |permIds| == |proof.permutationProductCommits| && (forall i :: 0 <= i < |permIds| ==> permIds[i] == b.permProd + i)
      && |productIds| == |proof.lookupProductCommits| && (forall i :: 0 <= i < |productIds| ==> productIds[i] == b.lookupProduct + i)
      && |inputIds| == |proof.lookupPermutedInputCommits| && (forall i :: 0 <= i < |inputIds| ==> inputIds[i] == b.lookupInput + i)
      && |tableIds| == |proof.lookupPermutedTableCommits| && (forall i :: 0 <= i < |tableIds| ==> tableIds[i] == b.lookupTable + i)
      && |shuffleIds| == |proof.shuffleProductCommits| && (forall i :: 0 <= i < |shuffleIds| ==> shuffleIds[i] == b.shuffleProduct + i)
      && |fixedIds| == |vk.fixedCommitments| && (forall i :: 0 <= i < |fixedIds| ==> fixedIds[i] == b.fixed + i)
      && |commonIds| == |vk.permutationCommitments| && (forall i :: 0 <= i < |commonIds| ==> commonIds[i] == b.permCommon + i)
    ensures var b := BasesOf(vk, proof);
      && Named(s, 0, adviceIds, proof.adviceCommits) && Named(s, b.permProd, permIds, proof.permutationProductCommits)
      && Named(s, b.lookupProduct, productIds, proof.lookupProductCommits)
      && Named(s, b.lookupInput, inputIds, proof.lookupPermutedInputCommits)
      && Named(s, b.lookupTable, tableIds, proof.lookupPermutedTableCommits)
      && Named(s, b.shuffleProduct, shuffleIds, proof.shuffleProductCommits)
      && Named(s, b.fixed, fixedIds, vk.fixedCommitments) && Named(s, b.permCommon, commonIds, vk.permutationCommitments)
  {
    hide Slots, Table, BasesOf;
    SlotsOfTable(vk, proof, h);
  }

  lemma LastTwo<F(!new)>(f: Field<F>, vk: Vk<F>, proof: Proof<F>, s: Setting<F>, h: F, hEval: F)
    requires f.Valid() && s.n > 0 && s.table == Table(vk, proof, h)
    ensures var b := BasesOf(vk, proof);
      && QueriesOf(f, s, [Opening(b.h, Rotation(0), hEval)]) == [VerifierQuery(b.h, h, s.x, hEval)]
      && QueriesOf(f, s, [Opening(b.random, Rotation(0), proof.randomPolyEval)])
         == [VerifierQuery(b.random, proof.randomPolyCommit, s.x, proof.randomPolyEval)]
  {
    hide Field.Valid, Pow, PointAt, BasesOf, Table;
    var b := BasesOf(vk, proof);
    SlotsOfTable(vk, proof, h);
    NearPoints(f, s);
    assert s.table[b.h..b.h + 1][0] == h;
    assert s.table[b.random..b.random + 1][0] == proof.randomPolyCommit;
  }

  lemma SectionsJoin<F(!new)>(f: Field<F>, vk: Vk<F>, proof: Proof<F>, s: Setting<F>, hEval: F)
    requires s.n > 0 && Buildable(vk, proof) && PermIndexable(vk, proof)
    ensures var b := BasesOf(vk, proof);
      QueriesOf(f, s, Openings(vk, proof, hEval))
      == [] + QueriesOf(f, s, ColumnOpenings(vk.adviceQueries, proof.adviceEvals, 0))
         + QueriesOf(f, s, PermOpenings(proof.permutationProductEvals, b.permProd, Min(|proof.permutationProductCommits|, |proof.permutationProductEvals|))
                           + PermLastOpenings(proof.permutationProductEvals, b.permProd, 0, LastIndex(vk.numPermChunks)))
         + QueriesOf(f, s, LookupOpenings(proof.lookupEvals, b, |proof.lookupEvals|))
         + QueriesOf(f, s, ShuffleOpenings(proof.shuffleEvals, b.shuffleProduct, |proof.shuffleEvals|))
         + QueriesOf(f, s, ColumnOpenings(vk.fixedQueries, proof.fixedEvals, b.fixed))
         + QueriesOf(f, s, CommonOpenings(proof.permutationCommonEvals, b.permCommon, Min(|vk.permutationCommitments|, |proof.permutationCommonEvals|)))
         + QueriesOf(f, s, [Opening(b.h, Rotation(0), hEval)])
         + QueriesOf(f, s, [Opening(b.random, Rotation(0), proof.randomPolyEval)])
  {
    hide QueriesOf, ColumnOpenings, PermOpenings, PermLastOpenings, LookupOpenings, ShuffleOpenings, CommonOpenings, BasesOf;
    var b := BasesOf(vk, proof);
    JoinSections(f, s, ColumnOpenings(vk.adviceQueries, proof.adviceEvals, 0),
                 PermOpenings(proof.permutationProductEvals, b.permProd, Min(|proof.permutationProductCommits|, |proof.permutationProductEvals|)),
                 PermLastOpenings(proof.permutationProductEvals, b.permProd, 0, LastIndex(vk.numPermChunks)),
                 LookupOpenings(proof.lookupEvals, b, |proof.lookupEvals|),
                 ShuffleOpenings(proof.shuffleEvals, b.shuffleProduct, |proof.shuffleEvals|),
                 ColumnOpenings(vk.fixedQueries, proof.fixedEvals, b.fixed),
                 CommonOpenings(proof.permutationCommonEvals, b.permCommon, Min(|vk.permutationCommitments|, |proof.permutationCommonEvals|)),
                 [Opening(b.h, Rotation(0), hEval)], [Opening(b.random, Rotation(0), proof.randomPolyEval)]);
  }

  lemma JoinSections<F(!new)>(f: Field<F>, s: Setting<F>, a: seq<Opening<F>>, b: seq<Opening<F>>, c: seq<Opening<F>>,
                              d: seq<Opening<F>>, e: seq<Opening<F>>, g: seq<Opening<F>>, h: seq<Opening<F>>,
                              i: seq<Opening<F>>, j: seq<Opening<F>>)
    requires s.n > 0
    ensures QueriesOf(f, s, a + b + c + d + e + g + h + i + j)
         == [] + QueriesOf(f, s, a) + QueriesOf(f, s, b + c) + QueriesOf(f, s, d) + QueriesOf(f, s, e) + QueriesOf(f, s, g)
            + QueriesOf(f, s, h) + QueriesOf(f, s, i) + QueriesOf(f, s, j)
  {
    hide QueriesOf, QueryOf, PointAt;
    QueriesOfConcat(f, s, b, c);
    QueriesOfConcat(f, s, a, b);
    QueriesOfConcat(f, s, a + b, c);
    QueriesOfConcat(f, s, a + b + c, d);
    QueriesOfConcat(f, s, a + b + c + d, e);
    QueriesOfConcat(f, s, a + b + c + d + e, g);
    QueriesOfConcat(f, s, a + b + c + d + e + g, h);
    QueriesOfConcat(f, s, a + b + c + d + e + g + h, i);
    QueriesOfConcat(f, s, a + b + c + d + e + g + h + i, j);
  }
}
