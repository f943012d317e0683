/** The order of the query list. Both sides must batch the openings in the same order, so the place of
    every query is stated outright: which commitment, which point and which value stands where. */
module QueryOrder {
  import opened PowersOfTwo
  import opened Fields
  import opened Polynomials
  import opened Domain
  import opened Lagrange
  import opened Kzg
  import opened Plonk
  import opened Queries
  import HonestQueries

  /** The query opens this commitment at this point to this value. */
  ghost predicate Asks<F(!new)>(q: VerifierQuery<F>, commitment: F, point: F, eval: F) {
    q.commitment == commitment && q.point == point && q.eval == eval
  }

  lemma AskAt<F(!new)>(f: Field<F>, s: Setting<F>, os: seq<Opening<F>>, k: nat, base: nat, commits: seq<F>, i: nat, at: Place, eval: F)
    requires s.n > 0 && k < |os| && os[k] == Opening(base + i, at, eval) && Slots(s.table, base, commits) && i < |commits|
    ensures Asks(QueriesOf(f, s, os)[k], commits[i], PointAt(f, s, at), eval)
  {
    hide PointAt;
    HonestQueries.SlotAt(s.table, base, commits, i);
  }

  // ----- where the openings of a kind stand among their kind -----

  lemma {:induction false} PermOpeningAt<F(!new)>(evals: seq<(F, F, F)>, base: nat, n: nat)
    requires n <= |evals|
    ensures |PermOpenings(evals, base, n)| == 2 * n
    ensures forall i :: 0 <= i < n ==> PermOpenings(evals, base, n)[2 * i] == Opening(base + i, Rotation(0), evals[i].0)
    ensures forall i :: 0 <= i < n ==> PermOpenings(evals, base, n)[2 * i + 1] == Opening(base + i, Rotation(1), evals[i].1)
  {
    if n > 0 {
      PermOpeningAt(evals, base, n - 1);
    }
  }

  lemma {:induction false} LastOpeningAt<F(!new)>(evals: seq<(F, F, F)>, base: nat, lo: nat, hi: nat)
    requires lo <= hi <= |evals|
    ensures |PermLastOpenings(evals, base, lo, hi)| == hi - lo
    ensures forall i :: lo <= i < hi ==> PermLastOpenings(evals, base, lo, hi)[hi - 1 - i] == Opening(base + i, LastRow, evals[i].2)
    decreases hi - lo
  {
    if lo < hi {
      LastOpeningAt(evals, base, lo + 1, hi);
    }
  }

  lemma {:induction false} ShuffleOpeningAt<F(!new)>(evals: seq<(F, F)>, base: nat, n: nat)
    requires n <= |evals|
    ensures |ShuffleOpenings(evals, base, n)| == 2 * n
    ensures forall i :: 0 <= i < n ==> ShuffleOpenings(evals, base, n)[2 * i] == Opening(base + i, Rotation(0), evals[i].0)
    ensures forall i :: 0 <= i < n ==> ShuffleOpenings(evals, base, n)[2 * i + 1] == Opening(base + i, Rotation(1), evals[i].1)
  {
    if n > 0 {
      ShuffleOpeningAt(evals, base, n - 1);
    }
  }

  lemma {:induction false} LookupOpeningAt<F(!new)>(evals: seq<LookupEvals<F>>, b: Bases, n: nat, i: nat)
    requires n <= |evals| && i <= n
    ensures |LookupOpenings(evals, b, n)| == 5 * n
    ensures i < n ==> var os, e := LookupOpenings(evals, b, n), evals[i];
      && os[5 * i] == Opening(b.lookupProduct + i, Rotation(0), e.productEval)
      && os[5 * i + 1] == Opening(b.lookupInput + i, Rotation(0), e.permutedInputEval)
      && os[5 * i + 2] == Opening(b.lookupTable + i, Rotation(0), e.permutedTableEval)
      && os[5 * i + 3] == Opening(b.lookupInput + i, Rotation(-1), e.permutedInputInvEval)
      && os[5 * i + 4] == Opening(b.lookupProduct + i, Rotation(1), e.productNextEval)
  {
    if n > 0 {
      LookupOpeningAt(evals, b, n - 1, if i < n - 1 then i else n - 1);
    }
  }

  // ----- where each kind stands in the list -----

  datatype Sections = Sections(products: nat, lastRows: nat, lookups: nat, shuffles: nat, fixed: nat, common: nat, quotient: nat)

  /** Advice queries, then permutation products, their last rows, lookups, shuffles, fixed queries, permutation
      columns, the quotient and the random polynomial. */
  ghost function SectionsOf<F>(vk: Vk<F>, proof: Proof<F>): Sections {
    var products := |vk.adviceQueries|;
    var lastRows := products + 2 * Min(|proof.permutationProductCommits|, |proof.permutationProductEvals|);
    var lookups := lastRows + LastIndex(vk.numPermChunks);
    var shuffles := lookups + 5 * |proof.lookupEvals|;
    var fixed := shuffles + 2 * |proof.shuffleEvals|;
    var common := fixed + |vk.fixedQueries|;
    Sections(products, lastRows, lookups, shuffles, fixed, common, common + Min(|vk.permutationCommitments|, |proof.permutationCommonEvals|))
  }

  ghost predicate PartAt<T(!new)>(s: seq<T>, offset: nat, part: seq<T>) {
    offset + |part| <= |s| && forall i :: 0 <= i < |part| ==> s[offset + i] == part[i]
  }

  lemma PartsStay<T(!new)>(s: seq<T>, d: seq<T>)
    ensures PartAt(s + d, |s|, d)
    ensures forall offset: nat, part: seq<T> :: PartAt(s, offset, part) ==> PartAt(s + d, offset, part)
  {
  }

  lemma SectionsStand<F(!new)>(vk: Vk<F>, proof: Proof<F>, hEval: F)
    requires Buildable(vk, proof) && PermIndexable(vk, proof)
    ensures var os, b, at := Openings(vk, proof, hEval), BasesOf(vk, proof), SectionsOf(vk, proof);
      && PartAt(os, 0, ColumnOpenings(vk.adviceQueries, proof.adviceEvals, 0))
      && PartAt(os, at.products, PermOpenings(proof.permutationProductEvals, b.permProd, Min(|proof.permutationProductCommits|, |proof.permutationProductEvals|)))
      && PartAt(os, at.lastRows, PermLastOpenings(proof.permutationProductEvals, b.permProd, 0, LastIndex(vk.numPermChunks)))
      && PartAt(os, at.lookups, LookupOpenings(proof.lookupEvals, b, |proof.lookupEvals|))
      && PartAt(os, at.shuffles, ShuffleOpenings(proof.shuffleEvals, b.shuffleProduct, |proof.shuffleEvals|))
      && PartAt(os, at.fixed, ColumnOpenings(vk.fixedQueries, proof.fixedEvals, b.fixed))
      && PartAt(os, at.common, CommonOpenings(proof.permutationCommonEvals, b.permCommon, Min(|vk.permutationCommitments|, |proof.permutationCommonEvals|)))
      && PartAt(os, at.quotient, [Opening(b.h, Rotation(0), hEval)])
      && PartAt(os, at.quotient + 1, [Opening(b.random, Rotation(0), proof.randomPolyEval)])
      && |os| == at.quotient + 2
  {
    hide PartAt, BasesOf, ColumnOpenings, PermOpenings, PermLastOpenings, LookupOpenings, ShuffleOpenings, CommonOpenings;
    var b := BasesOf(vk, proof);
    var pairs, commons := Min(|proof.permutationProductCommits|, |proof.permutationProductEvals|), Min(|vk.permutationCommitments|, |proof.permutationCommonEvals|);
    PermOpeningAt(proof.permutationProductEvals, b.permProd, pairs);
    LastOpeningAt(proof.permutationProductEvals, b.permProd, 0, LastIndex(vk.numPermChunks));
    LookupOpeningAt(proof.lookupEvals, b, |proof.lookupEvals|, 0);
    ShuffleOpeningAt(proof.shuffleEvals, b.shuffleProduct, |proof.shuffleEvals|);
    NineParts(ColumnOpenings(vk.adviceQueries, proof.adviceEvals, 0), PermOpenings(proof.permutationProductEvals, b.permProd, pairs),
              PermLastOpenings(proof.permutationProductEvals, b.permProd, 0, LastIndex(vk.numPermChunks)),
              LookupOpenings(proof.lookupEvals, b, |proof.lookupEvals|), ShuffleOpenings(proof.shuffleEvals, b.shuffleProduct, |proof.shuffleEvals|),
              ColumnOpenings(vk.fixedQueries, proof.fixedEvals, b.fixed), CommonOpenings(proof.permutationCommonEvals, b.permCommon, commons),
              [Opening(b.h, Rotation(0), hEval)], [Opening(b.random, Rotation(0), proof.randomPolyEval)]);
  }

  lemma NineParts<T(!new)>(a: seq<T>, b: seq<T>, c: seq<T>, d: seq<T>, e: seq<T>, g: seq<T>, h: seq<T>, i: seq<T>, j: seq<T>)
    ensures var os := a + b + c + d + e + g + h + i + j;
      && PartAt(os, 0, a) && PartAt(os, |a|, b) && PartAt(os, |a + b|, c) && PartAt(os, |a + b + c|, d) && PartAt(os, |a + b + c + d|, e)
      && PartAt(os, |a + b + c + d + e|, g) && PartAt(os, |a + b + c + d + e + g|, h) && PartAt(os, |a + b + c + d + e + g + h|, i)
      && PartAt(os, |a + b + c + d + e + g + h + i|, j)
  {
    hide PartAt;
    PartsStay([], a);
    assert [] + a == a;
    PartsStay(a, b);
    PartsStay(a + b, c);
    PartsStay(a + b + c, d);
    PartsStay(a + b + c + d, e);
    PartsStay(a + b + c + d + e, g);
    PartsStay(a + b + c + d + e + g, h);
    PartsStay(a + b + c + d + e + g + h, i);
    PartsStay(a + b + c + d + e + g + h + i, j);
  }

  // ----- what each query asks -----

  ghost predicate ColumnsAsked<F(!new)>(f: Field<F>, qs: seq<VerifierQuery<F>>, offset: nat, queries: seq<(u32, i32)>, evals: seq<F>,
                                        commits: seq<F>, omega: F, n: nat, x: F)
    requires n > 0
  {
    offset + |queries| <= |qs| && |queries| <= |evals|
    && forall i :: 0 <= i < |queries| ==>
         queries[i].0 < |commits| && Asks(qs[offset + i], commits[queries[i].0], Rotated(f, omega, n, x, queries[i].1), evals[i])
  }

  /** The pairs of openings of a kind of product: here, then at the next row. */
  ghost predicate PairAsked<F(!new)>(f: Field<F>, qs: seq<VerifierQuery<F>>, k: nat, commit: F, here: F, next: F, omega: F, x: F) {
    k + 1 < |qs| && Asks(qs[k], commit, x, here) && Asks(qs[k + 1], commit, f.mul(x, omega), next)
  }

  ghost predicate ProductsAsked<F(!new)>(f: Field<F>, qs: seq<VerifierQuery<F>>, offset: nat, count: nat, evals: seq<(F, F, F)>,
                                         commits: seq<F>, omega: F, x: F)
    requires count <= |evals| && count <= |commits|
  {
    forall i :: 0 <= i < count ==> PairAsked(f, qs, offset + 2 * i, commits[i], evals[i].0, evals[i].1, omega, x)
  }

  /** Last chunk first. */
  ghost predicate LastRowsAsked<F(!new)>(f: Field<F>, qs: seq<VerifierQuery<F>>, offset: nat, count: nat, evals: seq<(F, F, F)>,
                                         commits: seq<F>, omegaLast: F, x: F)
    requires count <= |evals| && count <= |commits|
  {
    offset + count <= |qs|
    && forall i :: 0 <= i < count ==> Asks(qs[offset + (count - 1 - i)], commits[i], f.mul(x, omegaLast), evals[i].2)
  }

  ghost predicate LookupAsked<F(!new)>(f: Field<F>, qs: seq<VerifierQuery<F>>, k: nat, e: LookupEvals<F>, product: F, input: F, table: F,
                                       omega: F, n: nat, x: F)
    requires n > 0
  {
    k + 4 < |qs|
    && Asks(qs[k], product, x, e.productEval)
    && Asks(qs[k + 1], input, x, e.permutedInputEval)
    && Asks(qs[k + 2], table, x, e.permutedTableEval)
    && Asks(qs[k + 3], input, Rotated(f, omega, n, x, -1), e.permutedInputInvEval)
    && Asks(qs[k + 4], product, f.mul(x, omega), e.productNextEval)
  }

  ghost predicate LookupsAsked<F(!new)>(f: Field<F>, qs: seq<VerifierQuery<F>>, offset: nat, proof: Proof<F>, omega: F, n: nat, x: F)
    requires n > 0 && |proof.lookupEvals| == |proof.lookupProductCommits| == |proof.lookupPermutedInputCommits| == |proof.lookupPermutedTableCommits|
  {
    forall i :: 0 <= i < |proof.lookupEvals| ==>
      LookupAsked(f, qs, offset + 5 * i, proof.lookupEvals[i], proof.lookupProductCommits[i], proof.lookupPermutedInputCommits[i],
                  proof.lookupPermutedTableCommits[i], omega, n, x)
  }

  ghost predicate ShufflesAsked<F(!new)>(f: Field<F>, qs: seq<VerifierQuery<F>>, offset: nat, evals: seq<(F, F)>, commits: seq<F>, omega: F, x: F)
    requires |evals| == |commits|
  {
    forall i :: 0 <= i < |evals| ==> PairAsked(f, qs, offset + 2 * i, commits[i], evals[i].0, evals[i].1, omega, x)
  }

  ghost predicate CommonAsked<F(!new)>(qs: seq<VerifierQuery<F>>, offset: nat, count: nat, evals: seq<F>, commits: seq<F>, x: F)
    requires count <= |evals| && count <= |commits|
  {
    offset + count <= |qs| && forall i :: 0 <= i < count ==> Asks(qs[offset + i], commits[i], x, evals[i])
  }

  lemma ColumnsAre<F(!new)>(f: Field<F>, s: Setting<F>, os: seq<Opening<F>>, offset: nat, queries: seq<(u32, i32)>, evals: seq<F>, base: nat, commits: seq<F>)
    requires f.Valid() && HasOrder(f, s.omega, s.n) && ColumnsBuildable(queries, evals, commits) && Slots(s.table, base, commits)
    requires PartAt(os, offset, ColumnOpenings(queries, evals, base))
    ensures ColumnsAsked(f, QueriesOf(f, s, os), offset, queries, evals, commits, s.omega, s.n, s.x)
  {
    hide Field.Valid, HasOrder, Pow, PowZ, Slots, QueriesOf, Asks, RotationExponent;
    forall i | 0 <= i < |queries|
      ensures Asks(QueriesOf(f, s, os)[offset + i], commits[queries[i].0], Rotated(f, s.omega, s.n, s.x, queries[i].1), evals[i])
    {
      assert os[offset + i] == ColumnOpenings(queries, evals, base)[i];
      AskAt(f, s, os, offset + i, base, commits, queries[i].0, Rotation(queries[i].1), evals[i]);
      ExponentIsRotation(f, s.omega, s.n, queries[i].1);
    }
  }

  lemma PairIs<F(!new)>(f: Field<F>, s: Setting<F>, os: seq<Opening<F>>, k: nat, base: nat, commits: seq<F>, i: nat, here: F, next: F)
    requires f.Valid() && HasOrder(f, s.omega, s.n) && Slots(s.table, base, commits) && i < |commits| && k + 1 < |os|
    requires os[k] == Opening(base + i, Rotation(0), here) && os[k + 1] == Opening(base + i, Rotation(1), next)
    ensures PairAsked(f, QueriesOf(f, s, os), k, commits[i], here, next, s.omega, s.x)
  {
    hide Field.Valid, HasOrder, Slots, QueriesOf, PointAt, Asks;
    HonestQueries.PlacesAre(f, s);
    AskAt(f, s, os, k, base, commits, i, Rotation(0), here);
    AskAt(f, s, os, k + 1, base, commits, i, Rotation(1), next);
  }

  lemma ProductsAre<F(!new)>(f: Field<F>, s: Setting<F>, os: seq<Opening<F>>, offset: nat, count: nat, evals: seq<(F, F, F)>, base: nat, commits: seq<F>)
    requires f.Valid() && HasOrder(f, s.omega, s.n) && Slots(s.table, base, commits) && count <= |evals| && count <= |commits|
    requires PartAt(os, offset, PermOpenings(evals, base, count))
    ensures ProductsAsked(f, QueriesOf(f, s, os), offset, count, evals, commits, s.omega, s.x)
  {
    hide Field.Valid, HasOrder, Slots, QueriesOf, PointAt, PairAsked, PermOpenings;
    var part := PermOpenings(evals, base, count);
    PermOpeningAt(evals, base, count);
    forall i | 0 <= i < count ensures PairAsked(f, QueriesOf(f, s, os), offset + 2 * i, commits[i], evals[i].0, evals[i].1, s.omega, s.x) {
      assert os[offset + 2 * i] == part[2 * i] && os[offset + (2 * i + 1)] == part[2 * i + 1];
      PairIs(f, s, os, offset + 2 * i, base, commits, i, evals[i].0, evals[i].1);
    }
  }

  lemma LastRowsAre<F(!new)>(f: Field<F>, s: Setting<F>, os: seq<Opening<F>>, offset: nat, count: nat, evals: seq<(F, F, F)>, base: nat, commits: seq<F>)
    requires s.n > 0 && Slots(s.table, base, commits) && count <= |evals| && count <= |commits|
    requires PartAt(os, offset, PermLastOpenings(evals, base, 0, count))
    ensures LastRowsAsked(f, QueriesOf(f, s, os), offset, count, evals, commits, s.omegaLast, s.x)
  {
    hide Slots, QueriesOf, Asks, PermLastOpenings;
    var part := PermLastOpenings(evals, base, 0, count);
    LastOpeningAt(evals, base, 0, count);
    forall i | 0 <= i < count ensures Asks(QueriesOf(f, s, os)[offset + (count - 1 - i)], commits[i], f.mul(s.x, s.omegaLast), evals[i].2) {
      assert os[offset + (count - 1 - i)] == part[count - 1 - i];
      AskAt(f, s, os, offset + (count - 1 - i), base, commits, i, LastRow, evals[i].2);
    }
  }

  lemma ShufflesAre<F(!new)>(f: Field<F>, s: Setting<F>, os: seq<Opening<F>>, offset: nat, evals: seq<(F, F)>, base: nat, commits: seq<F>)
    requires f.Valid() && HasOrder(f, s.omega, s.n) && Slots(s.table, base, commits) && |evals| == |commits|
    requires PartAt(os, offset, ShuffleOpenings(evals, base, |evals|))
    ensures ShufflesAsked(f, QueriesOf(f, s, os), offset, evals, commits, s.omega, s.x)
  {
    hide Field.Valid, HasOrder, Slots, QueriesOf, PointAt, PairAsked, ShuffleOpenings;
    var part := ShuffleOpenings(evals, base, |evals|);
    ShuffleOpeningAt(evals, base, |evals|);
    forall i | 0 <= i < |evals| ensures PairAsked(f, QueriesOf(f, s, os), offset + 2 * i, commits[i], evals[i].0, evals[i].1, s.omega, s.x) {
      assert os[offset + 2 * i] == part[2 * i] && os[offset + (2 * i + 1)] == part[2 * i + 1];
      PairIs(f, s, os, offset + 2 * i, base, commits, i, evals[i].0, evals[i].1);
    }
  }

  lemma LookupIs<F(!new)>(f: Field<F>, s: Setting<F>, os: seq<Opening<F>>, k: nat, b: Bases, proof: Proof<F>, i: nat)
    requires f.Valid() && HasOrder(f, s.omega, s.n) && k + 4 < |os|
    requires |proof.lookupEvals| == |proof.lookupProductCommits| == |proof.lookupPermutedInputCommits| == |proof.lookupPermutedTableCommits|
    requires Slots(s.table, b.lookupProduct, proof.lookupProductCommits) && Slots(s.table, b.lookupInput, proof.lookupPermutedInputCommits)
    requires Slots(s.table, b.lookupTable, proof.lookupPermutedTableCommits) && i < |proof.lookupEvals|
    requires var e := proof.lookupEvals[i];
      && os[k] == Opening(b.lookupProduct + i, Rotation(0), e.productEval)
      && os[k + 1] == Opening(b.lookupInput + i, Rotation(0), e.permutedInputEval)
      && os[k + 2] == Opening(b.lookupTable + i, Rotation(0), e.permutedTableEval)
      && os[k + 3] == Opening(b.lookupInput + i, Rotation(-1), e.permutedInputInvEval)
      && os[k + 4] == Opening(b.lookupProduct + i, Rotation(1), e.productNextEval)
    ensures LookupAsked(f, QueriesOf(f, s, os), k, proof.lookupEvals[i], proof.lookupProductCommits[i], proof.lookupPermutedInputCommits[i],
                        proof.lookupPermutedTableCommits[i], s.omega, s.n, s.x)
  {
    hide Field.Valid, HasOrder, Slots, QueriesOf, PointAt, Asks, Rotated;
    var e := proof.lookupEvals[i];
    HonestQueries.PlacesAre(f, s);
    AskAt(f, s, os, k, b.lookupProduct, proof.lookupProductCommits, i, Rotation(0), e.productEval);
    AskAt(f, s, os, k + 1, b.lookupInput, proof.lookupPermutedInputCommits, i, Rotation(0), e.permutedInputEval);
    AskAt(f, s, os, k + 2, b.lookupTable, proof.lookupPermutedTableCommits, i, Rotation(0), e.permutedTableEval);
    AskAt(f, s, os, k + 3, b.lookupInput, proof.lookupPermutedInputCommits, i, Rotation(-1), e.permutedInputInvEval);
    AskAt(f, s, os, k + 4, b.lookupProduct, proof.lookupProductCommits, i, Rotation(1), e.productNextEval);
  }

  lemma LookupsAre<F(!new)>(f: Field<F>, s: Setting<F>, os: seq<Opening<F>>, offset: nat, b: Bases, proof: Proof<F>)
    requires f.Valid() && HasOrder(f, s.omega, s.n)
    requires |proof.lookupEvals| == |proof.lookupProductCommits| == |proof.lookupPermutedInputCommits| == |proof.lookupPermutedTableCommits|
    requires Slots(s.table, b.lookupProduct, proof.lookupProductCommits) && Slots(s.table, b.lookupInput, proof.lookupPermutedInputCommits)
    requires Slots(s.table, b.lookupTable, proof.lookupPermutedTableCommits)
    requires PartAt(os, offset, LookupOpenings(proof.lookupEvals, b, |proof.lookupEvals|))
    ensures LookupsAsked(f, QueriesOf(f, s, os), offset, proof, s.omega, s.n, s.x)
  {
    hide Field.Valid, HasOrder, Slots, QueriesOf, PointAt, LookupAsked, LookupOpenings;
    var part := LookupOpenings(proof.lookupEvals, b, |proof.lookupEvals|);
    forall i | 0 <= i < |proof.lookupEvals|
      ensures LookupAsked(f, QueriesOf(f, s, os), offset + 5 * i, proof.lookupEvals[i], proof.lookupProductCommits[i], proof.lookupPermutedInputCommits[i],
                          proof.lookupPermutedTableCommits[i], s.omega, s.n, s.x)
    {
      LookupOpeningAt(proof.lookupEvals, b, |proof.lookupEvals|, i);
      assert os[offset + 5 * i] == part[5 * i] && os[offset + (5 * i + 1)] == part[5 * i + 1] && os[offset + (5 * i + 2)] == part[5 * i + 2]
          && os[offset + (5 * i + 3)] == part[5 * i + 3] && os[offset + (5 * i + 4)] == part[5 * i + 4];
      LookupIs(f, s, os, offset + 5 * i, b, proof, i);
    }
  }

  lemma CommonAre<F(!new)>(f: Field<F>, s: Setting<F>, os: seq<Opening<F>>, offset: nat, count: nat, evals: seq<F>, base: nat, commits: seq<F>)
    requires f.Valid() && HasOrder(f, s.omega, s.n) && Slots(s.table, base, commits) && count <= |evals| && count <= |commits|
    requires PartAt(os, offset, CommonOpenings(evals, base, count))
    ensures CommonAsked(QueriesOf(f, s, os), offset, count, evals, commits, s.x)
  {
    hide Field.Valid, HasOrder, Slots, QueriesOf, PointAt, Asks;
    HonestQueries.PlacesAre(f, s);
    forall i | 0 <= i < count ensures Asks(QueriesOf(f, s, os)[offset + i], commits[i], s.x, evals[i]) {
      assert os[offset + i] == CommonOpenings(evals, base, count)[i];
      AskAt(f, s, os, offset + i, base, commits, i, Rotation(0), evals[i]);
    }
  }

  /** Every query of the built list, by its place: which commitment it opens, where, and to which value. */
  lemma QueryPositions<F(!new)>(f: Field<F>, vk: Vk<F>, proof: Proof<F>, x: F, h: F, hEval: F, omegaLast: F)
    requires f.Valid() && HasOrder(f, vk.omega, Pow2(vk.k)) && Buildable(vk, proof) && PermIndexable(vk, proof)
    ensures var n, at := Pow2(vk.k), SectionsOf(vk, proof);
      var qs := QueriesOf(f, SettingOf(vk, proof, x, h, vk.omega, omegaLast), Openings(vk, proof, hEval));
      && |qs| == at.quotient + 2
      && ColumnsAsked(f, qs, 0, vk.adviceQueries, proof.adviceEvals, proof.adviceCommits, vk.omega, n, x)
      && ProductsAsked(f, qs, at.products, Min(|proof.permutationProductCommits|, |proof.permutationProductEvals|),
                       proof.permutationProductEvals, proof.permutationProductCommits, vk.omega, x)
      && LastRowsAsked(f, qs, at.lastRows, LastIndex(vk.numPermChunks), proof.permutationProductEvals, proof.permutationProductCommits, omegaLast, x)
      && LookupsAsked(f, qs, at.lookups, proof, vk.omega, n, x)
      && ShufflesAsked(f, qs, at.shuffles, proof.shuffleEvals, proof.shuffleProductCommits, vk.omega, x)
      && ColumnsAsked(f, qs, at.fixed, vk.fixedQueries, proof.fixedEvals, vk.fixedCommitments, vk.omega, n, x)
      && CommonAsked(qs, at.common, Min(|vk.permutationCommitments|, |proof.permutationCommonEvals|), proof.permutationCommonEvals,
                     vk.permutationCommitments, x)
      && Asks(qs[at.quotient], h, x, hEval) && Asks(qs[at.quotient + 1], proof.randomPolyCommit, x, proof.randomPolyEval)
  {
    hide Field.Valid, HasOrder, Pow2, Slots, Table, BasesOf, QueriesOf, Openings, PointAt, PartAt, Asks, ColumnsAsked, ProductsAsked, LastRowsAsked,
         LookupsAsked, ShufflesAsked, CommonAsked, ColumnOpenings, PermOpenings, PermLastOpenings, LookupOpenings, ShuffleOpenings, CommonOpenings;
    var s, b, at, os := SettingOf(vk, proof, x, h, vk.omega, omegaLast), BasesOf(vk, proof), SectionsOf(vk, proof), Openings(vk, proof, hEval);
    SlotsOfTable(vk, proof, h);
    SectionsStand(vk, proof, hEval);
    ColumnsAre(f, s, os, 0, vk.adviceQueries, proof.adviceEvals, 0, proof.adviceCommits);
    ProductsAre(f, s, os, at.products, Min(|proof.permutationProductCommits|, |proof.permutationProductEvals|), proof.permutationProductEvals,
                b.permProd, proof.permutationProductCommits);
    LastRowsAre(f, s, os, at.lastRows, LastIndex(vk.numPermChunks), proof.permutationProductEvals, b.permProd, proof.permutationProductCommits);
    LookupsAre(f, s, os, at.lookups, b, proof);
    ShufflesAre(f, s, os, at.shuffles, proof.shuffleEvals, b.shuffleProduct, proof.shuffleProductCommits);
    ColumnsAre(f, s, os, at.fixed, vk.fixedQueries, proof.fixedEvals, b.fixed, vk.fixedCommitments);
    CommonAre(f, s, os, at.common, Min(|vk.permutationCommitments|, |proof.permutationCommonEvals|), proof.permutationCommonEvals, b.permCommon,
              vk.permutationCommitments);
    LastPairIs(f, s, os, at.quotient, b, h, hEval, proof.randomPolyCommit, proof.randomPolyEval);
  }

  lemma LastPairIs<F(!new)>(f: Field<F>, s: Setting<F>, os: seq<Opening<F>>, k: nat, b: Bases, h: F, hEval: F, random: F, randomEval: F)
    requires f.Valid() && HasOrder(f, s.omega, s.n) && Slots(s.table, b.h, [h]) && Slots(s.table, b.random, [random])
    requires PartAt(os, k, [Opening(b.h, Rotation(0), hEval)]) && PartAt(os, k + 1, [Opening(b.random, Rotation(0), randomEval)])
    ensures Asks(QueriesOf(f, s, os)[k], h, s.x, hEval) && Asks(QueriesOf(f, s, os)[k + 1], random, s.x, randomEval)
  {
    hide Field.Valid, HasOrder, Slots, QueriesOf, PointAt, Asks;
    HonestQueries.PlacesAre(f, s);
    assert os[k + 0] == [Opening(b.h, Rotation(0), hEval)][0] && os[(k + 1) + 0] == [Opening(b.random, Rotation(0), randomEval)][0];
    AskAt(f, s, os, k, b.h, [h], 0, Rotation(0), hEval);
    AskAt(f, s, os, k + 1, b.random, [random], 0, Rotation(0), randomEval);
  }
}
