/**
 Which value is claimed of which polynomial at which point. The prover's polynomials are named kind by
 kind, and the honest proof is described field by field; every query the verifier builds is then true
 exactly for the honest proofs. With the completeness and soundness of the opening schemes this says what
 acceptance means for the fields of a proof.
 */
module HonestQueries {
  import opened PowersOfTwo
  import opened Bytes
  import opened Fields
  import opened Polynomials
  import opened Domain
  import opened Lagrange
  import opened Kzg
  import opened Plonk
  import opened Queries
  import opened ShplonkOpening
  import WitnessCount
  import Verifier
  import Gwc
  import GwcOpening
  import Grouping
  import RotationSets
  import Shplonk
  import ShplonkSoundness

  /** What the prover commits to. The quotient is committed in pieces. */
  datatype Polys<F> = Polys(
    advice: seq<seq<F>>,
    permProducts: seq<seq<F>>,
    lookupProducts: seq<seq<F>>,
    lookupInputs: seq<seq<F>>,
    lookupTables: seq<seq<F>>,
    shuffleProducts: seq<seq<F>>,
    fixed: seq<seq<F>>,
    permCommon: seq<seq<F>>,
    quotientPieces: seq<seq<F>>,
    random: seq<F>)

  /** The polynomials are as many as the proof and the key have commitments. */
  ghost predicate SameCounts<F(!new)>(vk: Vk<F>, proof: Proof<F>, p: Polys<F>) {
    && |p.advice| == |proof.adviceCommits| && |p.permProducts| == |proof.permutationProductCommits|
    && |p.lookupProducts| == |proof.lookupProductCommits| && |p.lookupInputs| == |proof.lookupPermutedInputCommits|
    && |p.lookupTables| == |proof.lookupPermutedTableCommits| && |p.shuffleProducts| == |proof.shuffleProductCommits|
    && |p.fixed| == |vk.fixedCommitments| && |p.permCommon| == |vk.permutationCommitments|
    && |p.quotientPieces| == |proof.vanishingHCommits|
  }

  // ----- the honest proof, field by field -----

  /** A query table is answered with the values of its columns at the rotated challenge. */
  ghost predicate ColumnsHonest<F(!new)>(f: Field<F>, queries: seq<(u32, i32)>, evals: seq<F>, columns: seq<seq<F>>, omega: F, n: nat, x: F)
    requires n > 0
  {
    |queries| <= |evals|
    && forall i :: 0 <= i < |queries| ==>
         queries[i].0 < |columns| && evals[i] == Eval(f, columns[queries[i].0], Rotated(f, omega, n, x, queries[i].1))
  }

  /** Every product is opened at x and at the next row. */
  ghost predicate ProductsHonest<F(!new)>(f: Field<F>, evals: seq<(F, F, F)>, zs: seq<seq<F>>, omega: F, x: F, count: nat)
    requires count <= |evals| && count <= |zs|
  {
    forall i :: 0 <= i < count ==> evals[i].0 == Eval(f, zs[i], x) && evals[i].1 == Eval(f, zs[i], f.mul(x, omega))
  }

  /** Every product but the last is opened at the last usable row. */
  ghost predicate LastRowsHonest<F(!new)>(f: Field<F>, evals: seq<(F, F, F)>, zs: seq<seq<F>>, omegaLast: F, x: F, lo: nat, hi: nat)
    requires hi <= |evals| && hi <= |zs|
  {
    forall i :: lo <= i < hi ==> evals[i].2 == Eval(f, zs[i], f.mul(x, omegaLast))
  }

  ghost predicate LookupHonest<F(!new)>(f: Field<F>, e: LookupEvals<F>, product: seq<F>, input: seq<F>, table: seq<F>, omega: F, n: nat, x: F)
    requires n > 0
  {
    && e.productEval == Eval(f, product, x)
    && e.productNextEval == Eval(f, product, f.mul(x, omega))
    && e.permutedInputEval == Eval(f, input, x)
    && e.permutedInputInvEval == Eval(f, input, Rotated(f, omega, n, x, -1))
    && e.permutedTableEval == Eval(f, table, x)
  }

  ghost predicate LookupsHonest<F(!new)>(f: Field<F>, evals: seq<LookupEvals<F>>, p: Polys<F>, omega: F, n: nat, x: F, count: nat)
    requires n > 0 && count <= |evals| && count <= |p.lookupProducts| && count <= |p.lookupInputs| && count <= |p.lookupTables|
  {
    forall i :: 0 <= i < count ==> LookupHonest(f, evals[i], p.lookupProducts[i], p.lookupInputs[i], p.lookupTables[i], omega, n, x)
  }

  ghost predicate ShufflesHonest<F(!new)>(f: Field<F>, evals: seq<(F, F)>, zs: seq<seq<F>>, omega: F, x: F, count: nat)
    requires count <= |evals| && count <= |zs|
  {
    forall i :: 0 <= i < count ==> evals[i].0 == Eval(f, zs[i], x) && evals[i].1 == Eval(f, zs[i], f.mul(x, omega))
  }

  ghost predicate CommonHonest<F(!new)>(f: Field<F>, evals: seq<F>, sigmas: seq<seq<F>>, x: F, count: nat)
    requires count <= |evals| && count <= |sigmas|
  {
    forall i :: 0 <= i < count ==> evals[i] == Eval(f, sigmas[i], x)
  }

  /** The proof and the key have matching parts, and as many polynomials. */
  ghost predicate Fits<F(!new)>(vk: Vk<F>, proof: Proof<F>, p: Polys<F>) {
    Buildable(vk, proof) && PermIndexable(vk, proof) && SameCounts(vk, proof, p)
  }

  /** Every evaluation in the proof is the value of its polynomial at its point. */
  ghost predicate FieldsHonest<F(!new)>(f: Field<F>, vk: Vk<F>, proof: Proof<F>, p: Polys<F>, x: F, omegaLast: F)
    requires Fits(vk, proof, p)
  {
    var n := Pow2(vk.k);
    && ColumnsHonest(f, vk.adviceQueries, proof.adviceEvals, p.advice, vk.omega, n, x)
    && ProductsHonest(f, proof.permutationProductEvals, p.permProducts, vk.omega, x,
                      Min(|proof.permutationProductCommits|, |proof.permutationProductEvals|))
    && LastRowsHonest(f, proof.permutationProductEvals, p.permProducts, omegaLast, x, 0, LastIndex(vk.numPermChunks))
    && LookupsHonest(f, proof.lookupEvals, p, vk.omega, n, x, |proof.lookupEvals|)
    && ShufflesHonest(f, proof.shuffleEvals, p.shuffleProducts, vk.omega, x, |proof.shuffleEvals|)
    && ColumnsHonest(f, vk.fixedQueries, proof.fixedEvals, p.fixed, vk.omega, n, x)
    && CommonHonest(f, proof.permutationCommonEvals, p.permCommon, x, Min(|vk.permutationCommitments|, |proof.permutationCommonEvals|))
    && proof.randomPolyEval == Eval(f, p.random, x)
  }

  /** The commitments are the values of the polynomials at the secret point. */
  ghost predicate CommittedTo<F(!new)>(f: Field<F>, commits: seq<F>, polys: seq<seq<F>>, tau: F) {
    |commits| == |polys| && forall i :: 0 <= i < |commits| ==> commits[i] == Eval(f, polys[i], tau)
  }

  ghost predicate CommitmentsHonest<F(!new)>(f: Field<F>, vk: Vk<F>, proof: Proof<F>, p: Polys<F>, tau: F) {
    && CommittedTo(f, proof.adviceCommits, p.advice, tau)
    && CommittedTo(f, proof.permutationProductCommits, p.permProducts, tau)
    && CommittedTo(f, proof.lookupProductCommits, p.lookupProducts, tau)
    && CommittedTo(f, proof.lookupPermutedInputCommits, p.lookupInputs, tau)
    && CommittedTo(f, proof.lookupPermutedTableCommits, p.lookupTables, tau)
    && CommittedTo(f, proof.shuffleProductCommits, p.shuffleProducts, tau)
    && CommittedTo(f, vk.fixedCommitments, p.fixed, tau)
    && CommittedTo(f, vk.permutationCommitments, p.permCommon, tau)
    && CommittedTo(f, proof.vanishingHCommits, p.quotientPieces, tau)
    && proof.randomPolyCommit == Eval(f, p.random, tau)
  }

  // ----- the polynomial of each slot -----

  /** The polynomials in slot order, with the recombined quotient in its slot. */
  ghost function SlotPolys<F>(p: Polys<F>, quotient: seq<F>): seq<seq<F>> {
    p.advice + p.permProducts + p.lookupProducts + p.lookupInputs + p.lookupTables + p.shuffleProducts
    + p.fixed + p.permCommon + [quotient] + [p.random]
  }

  ghost function PolyIn<F>(polys: seq<seq<F>>, id: nat): seq<F> {
    if id < |polys| then polys[id] else []
  }

  ghost function PolyOf<F>(p: Polys<F>, quotient: seq<F>): nat -> seq<F> {
    (id: nat) => PolyIn(SlotPolys(p, quotient), id)
  }

  lemma SlotsOfPolys<F(!new)>(vk: Vk<F>, proof: Proof<F>, p: Polys<F>, quotient: seq<F>)
    requires SameCounts(vk, proof, p)
    ensures var t, b := SlotPolys(p, quotient), BasesOf(vk, proof);
      && Slots(t, 0, p.advice) && Slots(t, b.permProd, p.permProducts) && Slots(t, b.lookupProduct, p.lookupProducts)
      && Slots(t, b.lookupInput, p.lookupInputs) && Slots(t, b.lookupTable, p.lookupTables)
      && Slots(t, b.shuffleProduct, p.shuffleProducts) && Slots(t, b.fixed, p.fixed) && Slots(t, b.permCommon, p.permCommon)
      && Slots(t, b.h, [quotient]) && Slots(t, b.random, [p.random])
  {
    hide Slots;
    var t1 := p.advice;
    SlotsGrow([], t1);
    assert [] + t1 == t1;
    SlotsGrow(t1, p.permProducts);
    var t2 := t1 + p.permProducts;
    SlotsGrow(t2, p.lookupProducts);
    var t3 := t2 + p.lookupProducts;
    SlotsGrow(t3, p.lookupInputs);
    var t4 := t3 + p.lookupInputs;
    SlotsGrow(t4, p.lookupTables);
    var t5 := t4 + p.lookupTables;
    SlotsGrow(t5, p.shuffleProducts);
    var t6 := t5 + p.shuffleProducts;
    SlotsGrow(t6, p.fixed);
    var t7 := t6 + p.fixed;
    SlotsGrow(t7, p.permCommon);
    var t8 := t7 + p.permCommon;
    SlotsGrow(t8, [quotient]);
    SlotsGrow(t8 + [quotient], [p.random]);
  }

  lemma SlotAt<T>(t: seq<T>, base: nat, part: seq<T>, i: nat)
    requires Slots(t, base, part) && i < |part|
    ensures base + i < |t| && t[base + i] == part[i]
  {
    assert t[base..base + |part|][i] == part[i];
  }

  // ----- true openings -----

  /** The claimed value is the value of the polynomial in that slot at that place. */
  ghost predicate Holds<F(!new)>(f: Field<F>, s: Setting<F>, polys: seq<seq<F>>, o: Opening<F>)
    requires s.n > 0
  {
    o.eval == Eval(f, PolyIn(polys, o.id), PointAt(f, s, o.at))
  }

  ghost predicate AllHold<F(!new)>(f: Field<F>, s: Setting<F>, polys: seq<seq<F>>, os: seq<Opening<F>>)
    requires s.n > 0
  {
    forall i :: 0 <= i < |os| ==> Holds(f, s, polys, os[i])
  }

  lemma AllHoldConcat<F(!new)>(f: Field<F>, s: Setting<F>, polys: seq<seq<F>>, a: seq<Opening<F>>, b: seq<Opening<F>>)
    requires s.n > 0
    ensures AllHold(f, s, polys, a + b) <==> AllHold(f, s, polys, a) && AllHold(f, s, polys, b)
  {
    hide Holds;
    if AllHold(f, s, polys, a + b) {
      forall i | 0 <= i < |a| ensures Holds(f, s, polys, a[i]) { assert (a + b)[i] == a[i]; }
      forall i | 0 <= i < |b| ensures Holds(f, s, polys, b[i]) { assert (a + b)[|a| + i] == b[i]; }
    }
  }

  lemma OneHolds<F(!new)>(f: Field<F>, s: Setting<F>, polys: seq<seq<F>>, o: Opening<F>)
    requires s.n > 0
    ensures AllHold(f, s, polys, [o]) <==> Holds(f, s, polys, o)
  {
    assert [o][0] == o;
  }

  /** An opening of slot `base + i` speaks about the i-th polynomial of its kind. */
  lemma HoldsInSlot<F(!new)>(f: Field<F>, s: Setting<F>, polys: seq<seq<F>>, base: nat, part: seq<seq<F>>, i: nat, at: Place, eval: F)
    requires s.n > 0 && Slots(polys, base, part) && i < |part|
    ensures Holds(f, s, polys, Opening(base + i, at, eval)) <==> eval == Eval(f, part[i], PointAt(f, s, at))
  {
    hide Slots, PointAt, Eval;
    SlotAt(polys, base, part, i);
  }

  lemma PlacesAre<F(!new)>(f: Field<F>, s: Setting<F>)
    requires f.Valid() && HasOrder(f, s.omega, s.n)
    ensures PointAt(f, s, Rotation(0)) == s.x && PointAt(f, s, Rotation(1)) == f.mul(s.x, s.omega)
    ensures PointAt(f, s, Rotation(-1)) == Rotated(f, s.omega, s.n, s.x, -1) && PointAt(f, s, LastRow) == f.mul(s.x, s.omegaLast)
  {
    hide Field.Valid, HasOrder, Pow;
    NearPoints(f, s);
    ExponentIsRotation(f, s.omega, s.n, -1);
  }

  lemma ColumnsHold<F(!new)>(f: Field<F>, s: Setting<F>, polys: seq<seq<F>>, base: nat, columns: seq<seq<F>>, queries: seq<(u32, i32)>, evals: seq<F>)
    requires f.Valid() && HasOrder(f, s.omega, s.n) && Slots(polys, base, columns)
    requires |queries| <= |evals| && forall i :: 0 <= i < |queries| ==> queries[i].0 < |columns|
    ensures AllHold(f, s, polys, ColumnOpenings(queries, evals, base)) <==> ColumnsHonest(f, queries, evals, columns, s.omega, s.n, s.x)
  {
    hide Field.Valid, HasOrder, Pow, PowZ, Eval, Slots, Holds, RotationExponent;
    var os := ColumnOpenings(queries, evals, base);
    forall i | 0 <= i < |queries|
      ensures Holds(f, s, polys, os[i]) <==> evals[i] == Eval(f, columns[queries[i].0], Rotated(f, s.omega, s.n, s.x, queries[i].1))
    {
      ExponentIsRotation(f, s.omega, s.n, queries[i].1);
      HoldsInSlot(f, s, polys, base, columns, queries[i].0, Rotation(queries[i].1), evals[i]);
    }
  }

  lemma {:induction false} ProductsHold<F(!new)>(f: Field<F>, s: Setting<F>, polys: seq<seq<F>>, base: nat, zs: seq<seq<F>>, evals: seq<(F, F, F)>, count: nat)
    requires f.Valid() && HasOrder(f, s.omega, s.n) && Slots(polys, base, zs) && count <= |evals| && count <= |zs|
    ensures AllHold(f, s, polys, PermOpenings(evals, base, count)) <==> ProductsHonest(f, evals, zs, s.omega, s.x, count)
  {
    hide Field.Valid, HasOrder, Eval, Slots, Holds, PointAt, AllHold;
    if count == 0 {
      NothingHolds(f, s, polys);
    } else {
      var i := count - 1;
      ProductsHold(f, s, polys, base, zs, evals, i);
      PlacesAre(f, s);
      HoldsInSlot(f, s, polys, base, zs, i, Rotation(0), evals[i].0);
      HoldsInSlot(f, s, polys, base, zs, i, Rotation(1), evals[i].1);
      PairHolds(f, s, polys, PermOpenings(evals, base, i), Opening(base + i, Rotation(0), evals[i].0), Opening(base + i, Rotation(1), evals[i].1));
    }
  }

  lemma NothingHolds<F(!new)>(f: Field<F>, s: Setting<F>, polys: seq<seq<F>>)
    requires s.n > 0
    ensures AllHold(f, s, polys, [])
  {
  }

  lemma PairHolds<F(!new)>(f: Field<F>, s: Setting<F>, polys: seq<seq<F>>, os: seq<Opening<F>>, a: Opening<F>, b: Opening<F>)
    requires s.n > 0
    ensures AllHold(f, s, polys, os + [a, b]) <==> AllHold(f, s, polys, os) && Holds(f, s, polys, a) && Holds(f, s, polys, b)
  {
    hide Holds, AllHold;
    AllHoldConcat(f, s, polys, os, [a, b]);
    assert [a, b] == [a] + [b];
    AllHoldConcat(f, s, polys, [a], [b]);
    OneHolds(f, s, polys, a);
    OneHolds(f, s, polys, b);
  }

  lemma {:induction false} LastRowsHold<F(!new)>(f: Field<F>, s: Setting<F>, polys: seq<seq<F>>, base: nat, zs: seq<seq<F>>, evals: seq<(F, F, F)>, lo: nat, hi: nat)
    requires s.n > 0 && Slots(polys, base, zs) && lo <= hi <= |evals| && hi <= |zs|
    ensures AllHold(f, s, polys, PermLastOpenings(evals, base, lo, hi)) <==> LastRowsHonest(f, evals, zs, s.omegaLast, s.x, lo, hi)
    decreases hi - lo
  {
    hide Eval, Slots, Holds, AllHold;
    if lo == hi {
      NothingHolds(f, s, polys);
    } else {
      LastRowsHold(f, s, polys, base, zs, evals, lo + 1, hi);
      HoldsInSlot(f, s, polys, base, zs, lo, LastRow, evals[lo].2);
      AllHoldConcat(f, s, polys, PermLastOpenings(evals, base, lo + 1, hi), [Opening(base + lo, LastRow, evals[lo].2)]);
      OneHolds(f, s, polys, Opening(base + lo, LastRow, evals[lo].2));
    }
  }

  lemma {:induction false} ShufflesHold<F(!new)>(f: Field<F>, s: Setting<F>, polys: seq<seq<F>>, base: nat, zs: seq<seq<F>>, evals: seq<(F, F)>, count: nat)
    requires f.Valid() && HasOrder(f, s.omega, s.n) && Slots(polys, base, zs) && count <= |evals| && count <= |zs|
    ensures AllHold(f, s, polys, ShuffleOpenings(evals, base, count)) <==> ShufflesHonest(f, evals, zs, s.omega, s.x, count)
  {
    hide Field.Valid, HasOrder, Eval, Slots, Holds, PointAt, AllHold;
    if count == 0 {
      NothingHolds(f, s, polys);
    } else {
      var i := count - 1;
      ShufflesHold(f, s, polys, base, zs, evals, i);
      PlacesAre(f, s);
      HoldsInSlot(f, s, polys, base, zs, i, Rotation(0), evals[i].0);
      HoldsInSlot(f, s, polys, base, zs, i, Rotation(1), evals[i].1);
      PairHolds(f, s, polys, ShuffleOpenings(evals, base, i), Opening(base + i, Rotation(0), evals[i].0), Opening(base + i, Rotation(1), evals[i].1));
    }
  }

  ghost predicate LookupSlots<F>(polys: seq<seq<F>>, b: Bases, p: Polys<F>) {
    Slots(polys, b.lookupProduct, p.lookupProducts) && Slots(polys, b.lookupInput, p.lookupInputs) && Slots(polys, b.lookupTable, p.lookupTables)
  }

  lemma OneLookupHolds<F(!new)>(f: Field<F>, s: Setting<F>, polys: seq<seq<F>>, b: Bases, p: Polys<F>, e: LookupEvals<F>, i: nat, os: seq<Opening<F>>)
    requires f.Valid() && HasOrder(f, s.omega, s.n) && LookupSlots(polys, b, p)
    requires i < |p.lookupProducts| && i < |p.lookupInputs| && i < |p.lookupTables|
    requires os == [Opening(b.lookupProduct + i, Rotation(0), e.productEval),
                    Opening(b.lookupInput + i, Rotation(0), e.permutedInputEval),
                    Opening(b.lookupTable + i, Rotation(0), e.permutedTableEval),
                    Opening(b.lookupInput + i, Rotation(-1), e.permutedInputInvEval),
                    Opening(b.lookupProduct + i, Rotation(1), e.productNextEval)]
    ensures AllHold(f, s, polys, os)
       <==> LookupHonest(f, e, p.lookupProducts[i], p.lookupInputs[i], p.lookupTables[i], s.omega, s.n, s.x)
  {
    hide Field.Valid, HasOrder, Eval, Slots, Holds, PointAt;
    PlacesAre(f, s);
    HoldsInSlot(f, s, polys, b.lookupProduct, p.lookupProducts, i, Rotation(0), e.productEval);
    HoldsInSlot(f, s, polys, b.lookupInput, p.lookupInputs, i, Rotation(0), e.permutedInputEval);
    HoldsInSlot(f, s, polys, b.lookupTable, p.lookupTables, i, Rotation(0), e.permutedTableEval);
    HoldsInSlot(f, s, polys, b.lookupInput, p.lookupInputs, i, Rotation(-1), e.permutedInputInvEval);
    HoldsInSlot(f, s, polys, b.lookupProduct, p.lookupProducts, i, Rotation(1), e.productNextEval);
    assert AllHold(f, s, polys, os) <==>
      Holds(f, s, polys, os[0]) && Holds(f, s, polys, os[1]) && Holds(f, s, polys, os[2]) && Holds(f, s, polys, os[3]) && Holds(f, s, polys, os[4]);
  }

  lemma {:induction false} LookupsHold<F(!new)>(f: Field<F>, s: Setting<F>, polys: seq<seq<F>>, b: Bases, p: Polys<F>, evals: seq<LookupEvals<F>>, count: nat)
    requires f.Valid() && HasOrder(f, s.omega, s.n) && LookupSlots(polys, b, p)
    requires count <= |evals| && count <= |p.lookupProducts| && count <= |p.lookupInputs| && count <= |p.lookupTables|
    ensures AllHold(f, s, polys, LookupOpenings(evals, b, count)) <==> LookupsHonest(f, evals, p, s.omega, s.n, s.x, count)
  {
    hide Field.Valid, HasOrder, Eval, LookupSlots, Holds, PointAt, AllHold, LookupHonest;
    if count == 0 {
      NothingHolds(f, s, polys);
    } else {
      var i, e := count - 1, evals[count - 1];
      var five := [Opening(b.lookupProduct + i, Rotation(0), e.productEval),
                   Opening(b.lookupInput + i, Rotation(0), e.permutedInputEval),
                   Opening(b.lookupTable + i, Rotation(0), e.permutedTableEval),
                   Opening(b.lookupInput + i, Rotation(-1), e.permutedInputInvEval),
                   Opening(b.lookupProduct + i, Rotation(1), e.productNextEval)];
      LookupsHold(f, s, polys, b, p, evals, i);
      OneLookupHolds(f, s, polys, b, p, e, i, five);
      AllHoldConcat(f, s, polys, LookupOpenings(evals, b, i), five);
    }
  }

  lemma CommonHold<F(!new)>(f: Field<F>, s: Setting<F>, polys: seq<seq<F>>, base: nat, sigmas: seq<seq<F>>, evals: seq<F>, count: nat)
    requires f.Valid() && HasOrder(f, s.omega, s.n) && Slots(polys, base, sigmas) && count <= |evals| && count <= |sigmas|
    ensures AllHold(f, s, polys, CommonOpenings(evals, base, count)) <==> CommonHonest(f, evals, sigmas, s.x, count)
  {
    hide Field.Valid, HasOrder, Eval, Slots, Holds, PointAt;
    var os := CommonOpenings(evals, base, count);
    PlacesAre(f, s);
    forall i | 0 <= i < count ensures Holds(f, s, polys, os[i]) <==> evals[i] == Eval(f, sigmas[i], s.x) {
      HoldsInSlot(f, s, polys, base, sigmas, i, Rotation(0), evals[i]);
    }
  }

  // ----- all openings -----

  lemma NineHold<F(!new)>(f: Field<F>, s: Setting<F>, polys: seq<seq<F>>, a: seq<Opening<F>>, b: seq<Opening<F>>, c: seq<Opening<F>>,
                          d: seq<Opening<F>>, e: seq<Opening<F>>, g: seq<Opening<F>>, h: seq<Opening<F>>, i: Opening<F>, j: Opening<F>)
    requires s.n > 0
    ensures AllHold(f, s, polys, a + b + c + d + e + g + h + [i] + [j]) <==>
      AllHold(f, s, polys, a) && AllHold(f, s, polys, b) && AllHold(f, s, polys, c) && AllHold(f, s, polys, d) && AllHold(f, s, polys, e)
      && AllHold(f, s, polys, g) && AllHold(f, s, polys, h) && Holds(f, s, polys, i) && Holds(f, s, polys, j)
  {
    hide Holds, AllHold;
    AllHoldConcat(f, s, polys, a, b);
    AllHoldConcat(f, s, polys, a + b, c);
    AllHoldConcat(f, s, polys, a + b + c, d);
    AllHoldConcat(f, s, polys, a + b + c + d, e);
    AllHoldConcat(f, s, polys, a + b + c + d + e, g);
    AllHoldConcat(f, s, polys, a + b + c + d + e + g, h);
    AllHoldConcat(f, s, polys, a + b + c + d + e + g + h, [i]);
    AllHoldConcat(f, s, polys, a + b + c + d + e + g + h + [i], [j]);
    OneHolds(f, s, polys, i);
    OneHolds(f, s, polys, j);
  }

  lemma OpeningsHold<F(!new)>(f: Field<F>, vk: Vk<F>, proof: Proof<F>, p: Polys<F>, quotient: seq<F>, s: Setting<F>, hEval: F)
    requires f.Valid() && Fits(vk, proof, p) && s.n == Pow2(vk.k) && s.omega == vk.omega && HasOrder(f, vk.omega, s.n)
    ensures AllHold(f, s, SlotPolys(p, quotient), Openings(vk, proof, hEval))
       <==> FieldsHonest(f, vk, proof, p, s.x, s.omegaLast) && hEval == Eval(f, quotient, s.x)
  {
    hide Field.Valid, HasOrder, Eval, Pow2, Slots, SlotPolys, BasesOf, Holds, AllHold, PointAt, ColumnOpenings, PermOpenings, PermLastOpenings,
         LookupOpenings, ShuffleOpenings, CommonOpenings, ColumnsHonest, ProductsHonest, LastRowsHonest, LookupsHonest, ShufflesHonest, CommonHonest;
    var b, t := BasesOf(vk, proof), SlotPolys(p, quotient);
    SlotsOfPolys(vk, proof, p, quotient);
    PlacesAre(f, s);
    var pairs := Min(|proof.permutationProductCommits|, |proof.permutationProductEvals|);
    var commons := Min(|vk.permutationCommitments|, |proof.permutationCommonEvals|);
    ColumnsHold(f, s, t, 0, p.advice, vk.adviceQueries, proof.adviceEvals);
    ProductsHold(f, s, t, b.permProd, p.permProducts, proof.permutationProductEvals, pairs);
    LastRowsHold(f, s, t, b.permProd, p.permProducts, proof.permutationProductEvals, 0, LastIndex(vk.numPermChunks));
    LookupsHold(f, s, t, b, p, proof.lookupEvals, |proof.lookupEvals|);
    ShufflesHold(f, s, t, b.shuffleProduct, p.shuffleProducts, proof.shuffleEvals, |proof.shuffleEvals|);
    ColumnsHold(f, s, t, b.fixed, p.fixed, vk.fixedQueries, proof.fixedEvals);
    CommonHold(f, s, t, b.permCommon, p.permCommon, proof.permutationCommonEvals, commons);
    HoldsInSlot(f, s, t, b.h, [quotient], 0, Rotation(0), hEval);
    HoldsInSlot(f, s, t, b.random, [p.random], 0, Rotation(0), proof.randomPolyEval);
    NineHold(f, s, t, ColumnOpenings(vk.adviceQueries, proof.adviceEvals, 0), PermOpenings(proof.permutationProductEvals, b.permProd, pairs),
             PermLastOpenings(proof.permutationProductEvals, b.permProd, 0, LastIndex(vk.numPermChunks)),
             LookupOpenings(proof.lookupEvals, b, |proof.lookupEvals|),
             ShuffleOpenings(proof.shuffleEvals, b.shuffleProduct, |proof.shuffleEvals|),
             ColumnOpenings(vk.fixedQueries, proof.fixedEvals, b.fixed),
             CommonOpenings(proof.permutationCommonEvals, b.permCommon, commons),
             Opening(b.h, Rotation(0), hEval), Opening(b.random, Rotation(0), proof.randomPolyEval));
  }

  // ----- the query list -----

  /** Every query of the list claims the value of its slot's polynomial at its point. */
  ghost predicate AllTrue<F(!new)>(f: Field<F>, queries: seq<VerifierQuery<F>>, poly: nat -> seq<F>) {
    forall q :: q in queries ==> q.eval == Eval(f, poly(q.commitId), q.point)
  }

  lemma TrueQueries<F(!new)>(f: Field<F>, s: Setting<F>, p: Polys<F>, quotient: seq<F>, os: seq<Opening<F>>)
    requires s.n > 0
    ensures AllTrue(f, QueriesOf(f, s, os), PolyOf(p, quotient)) <==> AllHold(f, s, SlotPolys(p, quotient), os)
  {
    hide Eval, PointAt, SlotPolys;
    var qs, polys := QueriesOf(f, s, os), SlotPolys(p, quotient);
    if AllTrue(f, qs, PolyOf(p, quotient)) {
      forall i | 0 <= i < |os| ensures Holds(f, s, polys, os[i]) {
        assert qs[i] in qs;
      }
    }
    if AllHold(f, s, polys, os) {
      forall q | q in qs ensures q.eval == Eval(f, PolyOf(p, quotient)(q.commitId), q.point) {
        var i :| 0 <= i < |qs| && qs[i] == q;
        assert Holds(f, s, polys, os[i]);
      }
    }
  }

  /** Every built query is true exactly when every evaluation in the proof is the value of its own
      polynomial at its own point and the expected quotient value is that of the quotient. */
  lemma QueriesTrueIffFieldsHonest<F(!new)>(f: Field<F>, vk: Vk<F>, proof: Proof<F>, p: Polys<F>, quotient: seq<F>, x: F, h: F, hEval: F, omegaLast: F)
    requires f.Valid() && Fits(vk, proof, p) && HasOrder(f, vk.omega, Pow2(vk.k))
    ensures AllTrue(f, QueriesOf(f, SettingOf(vk, proof, x, h, vk.omega, omegaLast), Openings(vk, proof, hEval)), PolyOf(p, quotient))
       <==> FieldsHonest(f, vk, proof, p, x, omegaLast) && hEval == Eval(f, quotient, x)
  {
    hide Field.Valid, HasOrder, Eval, Pow2, AllTrue, AllHold, FieldsHonest, Openings, QueriesOf, SlotPolys, Buildable, PermIndexable, SameCounts;
    var s := SettingOf(vk, proof, x, h, vk.omega, omegaLast);
    assert s.omega == vk.omega && s.n == Pow2(vk.k) && s.x == x && s.omegaLast == omegaLast;
    OpeningsHold(f, vk, proof, p, quotient, s, hEval);
    TrueQueries(f, s, p, quotient, Openings(vk, proof, hEval));
  }

  lemma CommittedConcat<F(!new)>(f: Field<F>, a: seq<F>, b: seq<F>, p: seq<seq<F>>, q: seq<seq<F>>, tau: F)
    requires CommittedTo(f, a, p, tau) && CommittedTo(f, b, q, tau)
    ensures CommittedTo(f, a + b, p + q, tau)
  {
    hide Eval;
  }

  lemma TableCommitted<F(!new)>(f: Field<F>, vk: Vk<F>, proof: Proof<F>, p: Polys<F>, quotient: seq<F>, h: F, tau: F)
    requires CommitmentsHonest(f, vk, proof, p, tau) && h == Eval(f, quotient, tau)
    ensures CommittedTo(f, Table(vk, proof, h), SlotPolys(p, quotient), tau)
  {
    hide Eval, CommittedTo;
    assert CommittedTo(f, [h], [quotient], tau) && CommittedTo(f, [proof.randomPolyCommit], [p.random], tau) by {
      OneCommitted(f, h, quotient, tau);
      OneCommitted(f, proof.randomPolyCommit, p.random, tau);
    }
    var c, t := proof.adviceCommits + proof.permutationProductCommits, p.advice + p.permProducts;
    CommittedConcat(f, proof.adviceCommits, proof.permutationProductCommits, p.advice, p.permProducts, tau);
    CommittedConcat(f, c, proof.lookupProductCommits, t, p.lookupProducts, tau);
    c, t := c + proof.lookupProductCommits, t + p.lookupProducts;
    CommittedConcat(f, c, proof.lookupPermutedInputCommits, t, p.lookupInputs, tau);
    c, t := c + proof.lookupPermutedInputCommits, t + p.lookupInputs;
    CommittedConcat(f, c, proof.lookupPermutedTableCommits, t, p.lookupTables, tau);
    c, t := c + proof.lookupPermutedTableCommits, t + p.lookupTables;
    CommittedConcat(f, c, proof.shuffleProductCommits, t, p.shuffleProducts, tau);
    c, t := c + proof.shuffleProductCommits, t + p.shuffleProducts;
    CommittedConcat(f, c, vk.fixedCommitments, t, p.fixed, tau);
    c, t := c + vk.fixedCommitments, t + p.fixed;
    CommittedConcat(f, c, vk.permutationCommitments, t, p.permCommon, tau);
    c, t := c + vk.permutationCommitments, t + p.permCommon;
    CommittedConcat(f, c, [h], t, [quotient], tau);
    CommittedConcat(f, c + [h], [proof.randomPolyCommit], t + [quotient], [p.random], tau);
  }

  lemma OneCommitted<F(!new)>(f: Field<F>, c: F, poly: seq<F>, tau: F)
    ensures CommittedTo(f, [c], [poly], tau) <==> c == Eval(f, poly, tau)
  {
    hide Eval;
    assert [c][0] == c && [poly][0] == poly;
  }

  /** With honest commitments every query carries the commitment of its own polynomial. */
  lemma QueriesCommitted<F(!new)>(f: Field<F>, vk: Vk<F>, proof: Proof<F>, p: Polys<F>, quotient: seq<F>, s: Setting<F>, os: seq<Opening<F>>, h: F, tau: F)
    requires CommitmentsHonest(f, vk, proof, p, tau) && h == Eval(f, quotient, tau) && s.n > 0 && s.table == Table(vk, proof, h)
    ensures Committed(f, QueriesOf(f, s, os), PolyOf(p, quotient), tau)
  {
    hide PointAt, SlotPolys, Table, CommitmentsHonest;
    TableCommitted(f, vk, proof, p, quotient, h, tau);
    var qs := QueriesOf(f, s, os);
    forall q | q in qs ensures q.commitment == Eval(f, PolyOf(p, quotient)(q.commitId), tau) {
      var i :| 0 <= i < |qs| && qs[i] == q;
      assert q == QueryOf(f, s, os[i]);
    }
  }

  // ----- what acceptance means -----

  /** The polynomial behind the recombined quotient commitment. */
  ghost function QuotientOf<F(!new)>(f: Field<F>, vk: Vk<F>, p: Polys<F>, x: F): seq<F> {
    Batch(f, p.quotientPieces, Pow(f, x, Pow2(vk.k)))
  }

  /** The folded expressions are the recombined quotient times `x^n - 1`. */
  ghost predicate VanishingArgument<F(!new)>(f: Field<F>, vk: Vk<F>, p: Polys<F>, expressions: seq<F>, y: F, x: F) {
    var xn := Pow(f, x, Pow2(vk.k));
    Eval(f, Verifier.Reversed(expressions), y) == f.mul(Eval(f, QuotientOf(f, vk, p, x), x), f.Sub(xn, f.One()))
  }

  /** The verifier's own query list is true exactly when the fields of the proof are honest and the
      vanishing argument holds at x. */
  lemma PreparedTrueIff<F(!new)>(f: Field<F>, vk: Vk<F>, proof: Proof<F>, ch: Challenges<F>, inputs: seq<seq<byte>>, delta: F,
                                 more: Verifier.MoreExpressions<F>, p: Polys<F>)
    requires f.Valid() && HasOrder(f, vk.omega, Pow2(vk.k)) && PermIndexable(vk, proof) && SameCounts(vk, proof, p)
    requires Verifier.Prepared(f, vk, proof, ch, inputs, delta, more).Some?
    ensures var e := Verifier.ExpressionsAt(f, vk, proof, ch, inputs, delta, more);
      Fits(vk, proof, p) && e.Some?
      && (AllTrue(f, Verifier.Prepared(f, vk, proof, ch, inputs, delta, more).value, PolyOf(p, QuotientOf(f, vk, p, ch.x)))
          <==> FieldsHonest(f, vk, proof, p, ch.x, Pow(f, vk.omega, WitnessCount.LastPower(vk)))
               && VanishingArgument(f, vk, p, e.value, ch.y, ch.x))
  {
    hide Field.Valid, HasOrder, Eval, Pow2, Pow, AllTrue, FieldsHonest, Openings, QueriesOf, Buildable, PermIndexable, SameCounts, Batch,
         Verifier.ExpressionsAt, Verifier.QuotientValue, WitnessCount.LastPower;
    var e, xn := Verifier.ExpressionsAt(f, vk, proof, ch, inputs, delta, more).value, Pow(f, ch.x, Pow2(vk.k));
    var quotient, h := QuotientOf(f, vk, p, ch.x), Eval(f, proof.vanishingHCommits, xn);
    QueriesTrueIffFieldsHonest(f, vk, proof, p, quotient, ch.x, h, Verifier.QuotientValue(f, e, ch.y, xn), Pow(f, vk.omega, WitnessCount.LastPower(vk)));
    Verifier.QuotientDetermined(f, e, ch.y, xn, Eval(f, quotient, ch.x));
  }

  /** What an honest prover hands over: commitments and evaluations of its polynomials, with the expressions
      divisible by `X^n - 1` as far as x can tell. */
  ghost predicate HonestProof<F(!new)>(f: Field<F>, vk: Vk<F>, proof: Proof<F>, ch: Challenges<F>, expressions: seq<F>, p: Polys<F>, tau: F)
    requires Fits(vk, proof, p)
  {
    && CommitmentsHonest(f, vk, proof, p, tau)
    && FieldsHonest(f, vk, proof, p, ch.x, Pow(f, vk.omega, WitnessCount.LastPower(vk)))
    && VanishingArgument(f, vk, p, expressions, ch.y, ch.x)
  }

  lemma PreparedHonest<F(!new)>(f: Field<F>, vk: Vk<F>, proof: Proof<F>, ch: Challenges<F>, inputs: seq<seq<byte>>, delta: F,
                                more: Verifier.MoreExpressions<F>, p: Polys<F>, tau: F)
    requires f.Valid() && HasOrder(f, vk.omega, Pow2(vk.k)) && PermIndexable(vk, proof) && SameCounts(vk, proof, p)
    requires Verifier.Prepared(f, vk, proof, ch, inputs, delta, more).Some?
    requires Buildable(vk, proof) && HonestProof(f, vk, proof, ch, Verifier.ExpressionsAt(f, vk, proof, ch, inputs, delta, more).value, p, tau)
    ensures Honest(f, Verifier.Prepared(f, vk, proof, ch, inputs, delta, more).value, PolyOf(p, QuotientOf(f, vk, p, ch.x)), tau)
  {
    hide Field.Valid, HasOrder, Eval, Pow2, Pow, FieldsHonest, VanishingArgument, Openings, QueriesOf, Buildable, PermIndexable, SameCounts, Batch,
         Verifier.ExpressionsAt, Verifier.QuotientValue, WitnessCount.LastPower, Committed, Table;
    var e, xn := Verifier.ExpressionsAt(f, vk, proof, ch, inputs, delta, more).value, Pow(f, ch.x, Pow2(vk.k));
    var quotient, h := QuotientOf(f, vk, p, ch.x), Eval(f, proof.vanishingHCommits, xn);
    PreparedTrueIff(f, vk, proof, ch, inputs, delta, more, p);
    assert proof.vanishingHCommits == ValuesAt(f, p.quotientPieces, tau);
    EvalBatch(f, p.quotientPieces, xn, tau);
    var s := SettingOf(vk, proof, ch.x, h, vk.omega, Pow(f, vk.omega, WitnessCount.LastPower(vk)));
    QueriesCommitted(f, vk, proof, p, quotient, s, Openings(vk, proof, Verifier.QuotientValue(f, e, ch.y, xn)), h, tau);
  }

  /** Completeness of the GWC verifier: on an honest proof with the honest witnesses the pairing equation
      holds, whatever the challenges. */
  lemma HonestGwcProofPasses<F(!new)>(f: Field<F>, vk: Vk<F>, proof: Proof<F>, ch: Challenges<F>, inputs: seq<seq<byte>>, delta: F,
                                      more: Verifier.MoreExpressions<F>, p: Polys<F>, v: F, u: F, tau: F)
    requires f.Valid() && HasOrder(f, vk.omega, Pow2(vk.k)) && PermIndexable(vk, proof) && SameCounts(vk, proof, p)
    requires Verifier.Prepared(f, vk, proof, ch, inputs, delta, more).Some?
    requires Buildable(vk, proof) && HonestProof(f, vk, proof, ch, Verifier.ExpressionsAt(f, vk, proof, ch, inputs, delta, more).value, p, tau)
    ensures var queries := Verifier.Prepared(f, vk, proof, ch, inputs, delta, more).value;
      var ws := GwcOpening.HonestWitnesses(f, queries, PolyOf(p, QuotientOf(f, vk, p, ch.x)), v, tau);
      PairingValue(f, PairingInput(Eval(f, ws, u), f.neg(Eval(f, Gwc.RightTerms(f, Gwc.GroupsOf(queries), ws, v), u))), tau) == f.Zero()
  {
    hide Field.Valid, HasOrder, Eval, Pow2, Pow, HonestProof, Verifier.Prepared, Buildable, PermIndexable, SameCounts, Batch, Gwc.RightTerms,
         PairingValue, Honest, GwcOpening.HonestWitnesses;
    PreparedHonest(f, vk, proof, ch, inputs, delta, more, p, tau);
    var queries := Verifier.Prepared(f, vk, proof, ch, inputs, delta, more).value;
    GwcOpening.HonestOpeningsPass(f, queries, PolyOf(p, QuotientOf(f, vk, p, ch.x)), v, u, tau);
  }

  /** Completeness of the SHPLONK verifier. */
  lemma HonestShplonkProofPasses<F(!new)>(f: Field<F>, vk: Vk<F>, proof: Proof<F>, ch: Challenges<F>, inputs: seq<seq<byte>>, delta: F,
                                          more: Verifier.MoreExpressions<F>, p: Polys<F>, tau: F)
    requires f.Valid() && HasOrder(f, vk.omega, Pow2(vk.k)) && PermIndexable(vk, proof) && SameCounts(vk, proof, p)
    requires Verifier.Prepared(f, vk, proof, ch, inputs, delta, more).Some?
    requires Buildable(vk, proof) && HonestProof(f, vk, proof, ch, Verifier.ExpressionsAt(f, vk, proof, ch, inputs, delta, more).value, p, tau)
    requires var queries, poly := Verifier.Prepared(f, vk, proof, ch, inputs, delta, more).value, PolyOf(p, QuotientOf(f, vk, p, ch.x));
      && queries != [] && (ch.shplonkU in Grouping.Keys(queries, PointOf) ==> ch.shplonkU in Shplonk.FirstPoints(queries))
      && proof.openingProofW == Eval(f, HPoly(f, queries, poly, ch.shplonkY, ch.shplonkV), tau)
      && proof.openingProofWPrime == Eval(f, Quotient(f, LPoly(f, queries, poly, ch.shplonkY, ch.shplonkV, ch.shplonkU), ch.shplonkU), tau)
    ensures var queries := Verifier.Prepared(f, vk, proof, ch, inputs, delta, more).value;
      PairingValue(f, PairingInput(proof.openingProofWPrime,
        f.neg(Shplonk.OuterSum(f, queries, proof.openingProofW, proof.openingProofWPrime, ch.shplonkY, ch.shplonkV, ch.shplonkU))), tau) == f.Zero()
  {
    hide Field.Valid, HasOrder, Eval, Pow2, Pow, HonestProof, Verifier.Prepared, Buildable, PermIndexable, SameCounts, Batch, Shplonk.OuterSum,
         PairingValue, Honest, HPoly, LPoly, Quotient, Grouping.Keys, Shplonk.FirstPoints;
    PreparedHonest(f, vk, proof, ch, inputs, delta, more, p, tau);
    var queries := Verifier.Prepared(f, vk, proof, ch, inputs, delta, more).value;
    HonestProofAccepted(f, queries, PolyOf(p, QuotientOf(f, vk, p, ch.x)), tau, ch.shplonkY, ch.shplonkV, ch.shplonkU);
  }

  /** Soundness of the GWC verifier: passing for enough challenges forces every evaluation in the proof to
      be the value of its own polynomial, and the vanishing argument to hold at x. */
  lemma PassingGwcForcesFields<F(!new)>(f: Field<F>, vk: Vk<F>, proof: Proof<F>, ch: Challenges<F>, inputs: seq<seq<byte>>, delta: F,
                                        more: Verifier.MoreExpressions<F>, p: Polys<F>, w: (F, nat) -> seq<F>,
                                        vs: seq<F>, us: seq<F>, taus: seq<F>, d: nat)
    requires f.Valid() && HasOrder(f, vk.omega, Pow2(vk.k)) && PermIndexable(vk, proof) && SameCounts(vk, proof, p)
    requires Verifier.Prepared(f, vk, proof, ch, inputs, delta, more).Some? && Buildable(vk, proof)
    requires var claims, poly := Verifier.Prepared(f, vk, proof, ch, inputs, delta, more).value, PolyOf(p, QuotientOf(f, vk, p, ch.x));
      && Distinct(us) && |Gwc.GroupsOf(claims)| <= |us| && Distinct(taus) && d + 1 <= |taus|
      && GwcOpening.DegreeBound(claims, poly, w, vs, d) && GwcOpening.PassesForAll(f, claims, poly, w, vs, us, taus)
      && Distinct(vs) && (forall k :: 0 <= k < |Gwc.GroupsOf(claims)| ==> |Gwc.GroupsOf(claims)[k].queries| <= |vs|)
    ensures var e := Verifier.ExpressionsAt(f, vk, proof, ch, inputs, delta, more);
      && FieldsHonest(f, vk, proof, p, ch.x, Pow(f, vk.omega, WitnessCount.LastPower(vk)))
      && e.Some? && VanishingArgument(f, vk, p, e.value, ch.y, ch.x)
  {
    hide Field.Valid, HasOrder, Eval, Pow2, Pow, FieldsHonest, VanishingArgument, Verifier.Prepared, Verifier.ExpressionsAt, Buildable,
         PermIndexable, SameCounts, Batch, GwcOpening.DegreeBound, GwcOpening.PassesForAll, WitnessCount.LastPower;
    var claims, poly := Verifier.Prepared(f, vk, proof, ch, inputs, delta, more).value, PolyOf(p, QuotientOf(f, vk, p, ch.x));
    forall q | q in claims ensures q.eval == Eval(f, poly(q.commitId), q.point) {
      GwcOpening.PassingChecksForceClaims(f, claims, poly, w, vs, us, taus, d, q);
    }
    PreparedTrueIff(f, vk, proof, ch, inputs, delta, more, p);
  }

  /** Soundness of the SHPLONK verifier, when no slot is claimed to have two values at one point. */
  lemma PassingShplonkForcesFields<F(!new)>(f: Field<F>, vk: Vk<F>, proof: Proof<F>, ch: Challenges<F>, inputs: seq<seq<byte>>, delta: F,
                                            more: Verifier.MoreExpressions<F>, p: Polys<F>, h: (F, F) -> seq<F>,
                                            ys: seq<F>, vs: seq<F>, us: seq<F>, d: nat)
    requires f.Valid() && HasOrder(f, vk.omega, Pow2(vk.k)) && PermIndexable(vk, proof) && SameCounts(vk, proof, p)
    requires Verifier.Prepared(f, vk, proof, ch, inputs, delta, more).Some? && Buildable(vk, proof)
    requires var claims, poly := Verifier.Prepared(f, vk, proof, ch, inputs, delta, more).value, PolyOf(p, QuotientOf(f, vk, p, ch.x));
      && claims != [] && RotationSets.Consistent(claims) && ShplonkSoundness.Bounded(claims, poly, d)
      && ShplonkSoundness.EnoughPoints(claims, d, us) && ShplonkSoundness.PassesForMany(f, claims, poly, h, d, ys, vs, us)
      && Distinct(vs) && |RotationSets.Sets(claims)| <= |vs|
      && Distinct(ys) && forall k :: 0 <= k < |RotationSets.Sets(claims)| ==> |RotationSets.MembersOf(claims, k)| <= |ys|
    ensures var e := Verifier.ExpressionsAt(f, vk, proof, ch, inputs, delta, more);
      && FieldsHonest(f, vk, proof, p, ch.x, Pow(f, vk.omega, WitnessCount.LastPower(vk)))
      && e.Some? && VanishingArgument(f, vk, p, e.value, ch.y, ch.x)
  {
    hide Field.Valid, HasOrder, Eval, Pow2, Pow, FieldsHonest, VanishingArgument, Verifier.Prepared, Verifier.ExpressionsAt, Buildable,
         PermIndexable, SameCounts, Batch, ShplonkSoundness.Bounded, ShplonkSoundness.EnoughPoints, ShplonkSoundness.PassesForMany,
         RotationSets.Consistent, RotationSets.Sets, RotationSets.MembersOf, WitnessCount.LastPower;
    var claims, poly := Verifier.Prepared(f, vk, proof, ch, inputs, delta, more).value, PolyOf(p, QuotientOf(f, vk, p, ch.x));
    forall q | q in claims ensures q.eval == Eval(f, poly(q.commitId), q.point) {
      ShplonkSoundness.EveryQueryHolds(f, claims, poly, h, d, ys, vs, us, q);
    }
    PreparedTrueIff(f, vk, proof, ch, inputs, delta, more, p);
  }
}
