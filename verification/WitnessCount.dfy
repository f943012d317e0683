/**
 The number of GWC witnesses the proof reader expects, derived from the verifying key before the
 challenge is known, and its agreement with the number of points the query builder produces.
 */
module WitnessCount {
  import opened Wrappers
  import opened PowersOfTwo
  import opened Fields
  import opened Polynomials
  import opened Vanishing
  import opened Domain
  import opened Lagrange
  import opened Kzg
  import opened Grouping
  import opened Plonk
  import opened Queries
  import Gwc

  // ----- rotations modulo n -----

  function Residue(rotation: int, n: nat): nat
    requires n > 0
  {
    rotation % n
  }

  method NormalizeRotation(rotation: i32, n: nat) returns (e: nat)
    requires n > 0
    ensures e == Residue(rotation, n) < n
  {
    if rotation >= 0 {
      return rotation % n;
    }
    var magnitude := (-(rotation as int)) % n;
    NegativeRemainder(-(rotation as int), n);
    return if magnitude == 0 then 0 else n - magnitude;
  }

  // ----- counting -----

  ghost function RotationsOf(queries: seq<(u32, i32)>): (r: seq<int>)
    ensures |r| == |queries|
  {
    seq(|queries|, i requires 0 <= i < |queries| => queries[i].1 as int)
  }

  /** Truncation to a signed 32-bit word. */
  function ToI32(v: int): i32 {
    var m := v % 0x1_0000_0000;
    if m < 0x8000_0000 then m else m - 0x1_0000_0000
  }

  /** The rotation of the last usable row. */
  function LastRotation<F, G>(vk: PlonkProtocol<F, G>): int {
    -(vk.blindingFactors as int) - 1
  }

  /** The rotation the reader takes for it: 32-bit arithmetic, wrapping around. */
  function AnnouncedLast<F, G>(vk: PlonkProtocol<F, G>): i32 {
    ToI32(LastRotation(vk))
  }

  /** The rotation at which the verifier opens it: the exponent saturates at zero. */
  function OpenedLast<F, G>(vk: PlonkProtocol<F, G>): int {
    if vk.blindingFactors + 1 <= Pow2(vk.k) then LastRotation(vk) else 0
  }

  ghost function PermRotations<F, G>(vk: PlonkProtocol<F, G>, last: int): seq<int> {
    if vk.numPermChunks == 0 then [] else if vk.numPermChunks == 1 then [0, 1] else [0, 1, last]
  }

  /** Every rotation some polynomial is opened at, in the order the reader visits them, for a given
      rotation of the last usable row. */
  ghost function RotationsWith<F, G>(vk: PlonkProtocol<F, G>, last: int): seq<int> {
    RotationsOf(vk.adviceQueries)
    + PermRotations(vk, last)
    + (if vk.NumLookups() > 0 then [0, -1, 1] else [])
    + (if vk.NumShuffles() > 0 then [0, 1] else [])
    + RotationsOf(vk.fixedQueries)
    + (if vk.NumPermColumns() > 0 then [0] else [])
    + [0]
  }

  /** The rotations the reader counts. */
  ghost function VkRotations<F, G>(vk: PlonkProtocol<F, G>): seq<int> {
    RotationsWith(vk, AnnouncedLast(vk))
  }

  /** The rotations the verifier opens at. */
  ghost function OpenedRotations<F, G>(vk: PlonkProtocol<F, G>): seq<int> {
    RotationsWith(vk, OpenedLast(vk))
  }

  /** The distinct rotations modulo n, in order of first appearance. */
  ghost function Distinguished(rotations: seq<int>, n: nat): seq<nat>
    requires n > 0
  {
    Keys(rotations, r => Residue(r, n))
  }

  method PushRotation(rotations: seq<nat>, rotation: i32, n: nat, ghost seen: seq<int>) returns (out: seq<nat>)
    requires n > 0 && rotations == Distinguished(seen, n)
    ensures out == Distinguished(seen + [rotation], n)
  {
    hide Residue, Keys;
    Snoc(seen, rotation as int, r => Residue(r, n));
    var e := NormalizeRotation(rotation, n);
    out := if e in rotations then rotations else rotations + [e];
  }

  method PushQueries(rotations: seq<nat>, queries: seq<(u32, i32)>, n: nat, ghost seen: seq<int>) returns (out: seq<nat>)
    requires n > 0 && rotations == Distinguished(seen, n)
    ensures out == Distinguished(seen + RotationsOf(queries), n)
  {
    hide Distinguished;
    out := rotations;
    assert seen + RotationsOf([]) == seen;
    for i := 0 to |queries|
      invariant out == Distinguished(seen + RotationsOf(queries[..i]), n)
    {
      var (_, rotation) := queries[i];
      out := PushRotation(out, rotation, n, seen + RotationsOf(queries[..i]));
      assert seen + RotationsOf(queries[..i]) + [rotation] == seen + RotationsOf(queries[..i + 1]);
    }
    assert queries[..|queries|] == queries;
  }

  lemma AnnouncedInWords(b: u32)
    ensures ToI32(-(ToI32(ToI32(b) + 1) as int)) == ToI32(-(b as int) - 1)
  {
  }

  method PushPermutation<F, G>(rotations: seq<nat>, vk: PlonkProtocol<F, G>, n: nat, ghost seen: seq<int>) returns (out: seq<nat>)
    requires n > 0 && rotations == Distinguished(seen, n)
    ensures out == Distinguished(seen + PermRotations(vk, AnnouncedLast(vk)), n)
  {
    hide Distinguished, ToI32;
    out := rotations;
    assert seen + [] == seen;
    if vk.numPermChunks > 0 {
      out := PushRotation(out, 0, n, seen);
      out := PushRotation(out, 1, n, seen + [0]);
      assert seen + [0] + [1] == seen + [0, 1];
      if vk.numPermChunks > 1 {
        AnnouncedInWords(vk.blindingFactors);
        var last := ToI32(-(ToI32(ToI32(vk.blindingFactors) + 1) as int));
        out := PushRotation(out, last, n, seen + [0, 1]);
        assert seen + [0, 1] + [last as int] == seen + [0, 1, last];
      }
    }
  }

  method PushLookups(rotations: seq<nat>, lookups: nat, n: nat, ghost seen: seq<int>) returns (out: seq<nat>)
    requires n > 0 && rotations == Distinguished(seen, n)
    ensures out == Distinguished(seen + if lookups > 0 then [0, -1, 1] else [], n)
  {
    hide Distinguished;
    out := rotations;
    assert seen + [] == seen;
    if lookups > 0 {
      out := PushRotation(out, 0, n, seen);
      out := PushRotation(out, -1, n, seen + [0]);
      out := PushRotation(out, 1, n, seen + [0] + [-1]);
      assert seen + [0] + [-1] + [1] == seen + [0, -1, 1];
    }
  }

  method PushShuffles(rotations: seq<nat>, shuffles: nat, n: nat, ghost seen: seq<int>) returns (out: seq<nat>)
    requires n > 0 && rotations == Distinguished(seen, n)
    ensures out == Distinguished(seen + if shuffles > 0 then [0, 1] else [], n)
  {
    hide Distinguished;
    out := rotations;
    assert seen + [] == seen;
    if shuffles > 0 {
      out := PushRotation(out, 0, n, seen);
      out := PushRotation(out, 1, n, seen + [0]);
      assert seen + [0] + [1] == seen + [0, 1];
    }
  }

  /** The number of distinct rotations modulo the domain size. */
  method ExpectedGwcWitnessCount<F, G>(vk: PlonkProtocol<F, G>) returns (count: nat)
    ensures count == |Distinguished(VkRotations(vk), Pow2(vk.k))|
  {
    hide Distinguished, Pow2, PermRotations, AnnouncedLast;
    var n := Pow2(vk.k);
    NothingSeen(n);
    ghost var s1 := RotationsOf(vk.adviceQueries);
    ghost var s2 := s1 + PermRotations(vk, AnnouncedLast(vk));
    ghost var s3 := s2 + if vk.NumLookups() > 0 then [0, -1, 1] else [];
    ghost var s4 := s3 + if vk.NumShuffles() > 0 then [0, 1] else [];
    ghost var s5 := s4 + RotationsOf(vk.fixedQueries);
    ghost var s6 := s5 + if vk.NumPermColumns() > 0 then [0] else [];
    assert [] + s1 == s1;
    var rotations := PushQueries([], vk.adviceQueries, n, []);
    rotations := PushPermutation(rotations, vk, n, s1);
    rotations := PushLookups(rotations, vk.NumLookups(), n, s2);
    rotations := PushShuffles(rotations, vk.NumShuffles(), n, s3);
    rotations := PushQueries(rotations, vk.fixedQueries, n, s4);
    if vk.NumPermColumns() > 0 {
      rotations := PushRotation(rotations, 0, n, s5);
    } else {
      assert s5 + [] == s5;
    }
    rotations := PushRotation(rotations, 0, n, s6);
    return |rotations|;
  }

  lemma NothingSeen(n: nat)
    requires n > 0
    ensures Distinguished([], n) == []
  {
  }

  // ----- the openings visit exactly these rotations -----

  function RotationAt<F>(vk: Vk<F>, at: Place): int {
    match at
    case Rotation(r) => r
    case LastRow => OpenedLast(vk)
  }

  /** The proof has the sizes the verifying key announces. */
  ghost predicate Shaped<F>(vk: Vk<F>, proof: Proof<F>) {
    && Buildable(vk, proof)
    && |proof.permutationProductCommits| == |proof.permutationProductEvals| == vk.numPermChunks
    && |proof.permutationCommonEvals| == |vk.permutationCommitments|
  }

  /** The rotations among these openings are exactly the members of `rs`. */
  ghost predicate Visits<F(!new)>(vk: Vk<F>, os: seq<Opening<F>>, rs: seq<int>) {
    && (forall o :: o in os ==> RotationAt(vk, o.at) in rs)
    && (forall r :: r in rs ==> exists o :: o in os && RotationAt(vk, o.at) == r)
  }

  lemma VisitsConcat<F(!new)>(vk: Vk<F>, a: seq<Opening<F>>, ra: seq<int>, b: seq<Opening<F>>, rb: seq<int>)
    requires Visits(vk, a, ra) && Visits(vk, b, rb)
    ensures Visits(vk, a + b, ra + rb)
  {
    hide RotationAt;
    forall r | r in ra + rb ensures exists o :: o in a + b && RotationAt(vk, o.at) == r {
      if r in ra {
        var o :| o in a && RotationAt(vk, o.at) == r;
        assert o in a + b;
      } else {
        var o :| o in b && RotationAt(vk, o.at) == r;
        assert o in a + b;
      }
    }
  }

  lemma VisitsReordered<F(!new)>(vk: Vk<F>, os: seq<Opening<F>>, ra: seq<int>, rb: seq<int>)
    requires Visits(vk, os, ra) && (forall r :: r in ra <==> r in rb)
    ensures Visits(vk, os, rb)
  {
  }

  lemma ColumnsVisit<F(!new)>(vk: Vk<F>, queries: seq<(u32, i32)>, evals: seq<F>, base: nat)
    requires |queries| <= |evals|
    ensures Visits(vk, ColumnOpenings(queries, evals, base), RotationsOf(queries))
  {
    var os := ColumnOpenings(queries, evals, base);
    forall r | r in RotationsOf(queries) ensures exists o :: o in os && RotationAt(vk, o.at) == r {
      var i :| 0 <= i < |queries| && RotationsOf(queries)[i] == r;
      assert os[i] in os;
    }
    forall o | o in os ensures RotationAt(vk, o.at) in RotationsOf(queries) {
      var i :| 0 <= i < |os| && os[i] == o;
      assert RotationsOf(queries)[i] == RotationAt(vk, o.at);
    }
  }

  lemma OneVisit<F(!new)>(vk: Vk<F>, o: Opening<F>)
    ensures Visits(vk, [o], [RotationAt(vk, o.at)])
  {
    assert o in [o];
  }

  lemma {:induction false} PermVisits<F(!new)>(vk: Vk<F>, evals: seq<(F, F, F)>, base: nat, n: nat)
    requires n <= |evals|
    ensures Visits(vk, PermOpenings(evals, base, n), if n > 0 then [0, 1] else [])
  {
    hide Visits;
    if n == 0 {
      NoVisit(vk);
    } else {
      var here, next := Opening(base + n - 1, Rotation(0), evals[n - 1].0), Opening(base + n - 1, Rotation(1), evals[n - 1].1);
      PermVisits(vk, evals, base, n - 1);
      TwoVisits(vk, here, next);
      var before := if n > 1 then [0, 1] else [];
      VisitsConcat(vk, PermOpenings(evals, base, n - 1), before, [here, next], [0, 1]);
      VisitsReordered(vk, PermOpenings(evals, base, n), before + [0, 1], [0, 1]);
    }
  }

  lemma NoVisit<F(!new)>(vk: Vk<F>)
    ensures Visits<F>(vk, [], [])
  {
  }

  lemma TwoVisits<F(!new)>(vk: Vk<F>, a: Opening<F>, b: Opening<F>)
    ensures Visits(vk, [a, b], [RotationAt(vk, a.at), RotationAt(vk, b.at)])
  {
    assert a in [a, b] && b in [a, b];
  }

  lemma {:induction false} PermLastVisits<F(!new)>(vk: Vk<F>, evals: seq<(F, F, F)>, base: nat, lo: nat, hi: nat)
    requires lo <= hi <= |evals|
    ensures Visits(vk, PermLastOpenings(evals, base, lo, hi), if lo < hi then [OpenedLast(vk)] else [])
    decreases hi - lo
  {
    hide Visits;
    if lo == hi {
      NoVisit(vk);
    } else {
      var o := Opening(base + lo, LastRow, evals[lo].2);
      PermLastVisits(vk, evals, base, lo + 1, hi);
      OneVisit(vk, o);
      var before := if lo + 1 < hi then [OpenedLast(vk)] else [];
      VisitsConcat(vk, PermLastOpenings(evals, base, lo + 1, hi), before, [o], [OpenedLast(vk)]);
      VisitsReordered(vk, PermLastOpenings(evals, base, lo, hi), before + [OpenedLast(vk)], [OpenedLast(vk)]);
    }
  }

  lemma {:induction false} LookupVisits<F(!new)>(vk: Vk<F>, evals: seq<LookupEvals<F>>, b: Bases, n: nat)
    requires n <= |evals|
    ensures Visits(vk, LookupOpenings(evals, b, n), if n > 0 then [0, -1, 1] else [])
  {
    hide Visits;
    if n == 0 {
      NoVisit(vk);
    } else {
      var e, i := evals[n - 1], n - 1;
      var o1, o2 := Opening(b.lookupProduct + i, Rotation(0), e.productEval), Opening(b.lookupInput + i, Rotation(0), e.permutedInputEval);
      var o3, o4 := Opening(b.lookupTable + i, Rotation(0), e.permutedTableEval), Opening(b.lookupInput + i, Rotation(-1), e.permutedInputInvEval);
      var o5 := Opening(b.lookupProduct + i, Rotation(1), e.productNextEval);
      LookupVisits(vk, evals, b, n - 1);
      FiveVisits(vk, o1, o2, o3, o4, o5);
      var before := if n > 1 then [0, -1, 1] else [];
      VisitsConcat(vk, LookupOpenings(evals, b, n - 1), before, [o1, o2, o3, o4, o5], [0, -1, 1]);
      VisitsReordered(vk, LookupOpenings(evals, b, n), before + [0, -1, 1], [0, -1, 1]);
    }
  }

  lemma FiveVisits<F(!new)>(vk: Vk<F>, o1: Opening<F>, o2: Opening<F>, o3: Opening<F>, o4: Opening<F>, o5: Opening<F>)
    requires RotationAt(vk, o1.at) == RotationAt(vk, o2.at) == RotationAt(vk, o3.at) == 0
    requires RotationAt(vk, o4.at) == -1 && RotationAt(vk, o5.at) == 1
    ensures Visits(vk, [o1, o2, o3, o4, o5], [0, -1, 1])
  {
    hide RotationAt;
    var os := [o1, o2, o3, o4, o5];
    assert o1 in os && o4 in os && o5 in os;
  }

  lemma {:induction false} ShuffleVisits<F(!new)>(vk: Vk<F>, evals: seq<(F, F)>, base: nat, n: nat)
    requires n <= |evals|
    ensures Visits(vk, ShuffleOpenings(evals, base, n), if n > 0 then [0, 1] else [])
  {
    hide Visits;
    if n == 0 {
      NoVisit(vk);
    } else {
      var here, next := Opening(base + n - 1, Rotation(0), evals[n - 1].0), Opening(base + n - 1, Rotation(1), evals[n - 1].1);
      ShuffleVisits(vk, evals, base, n - 1);
      TwoVisits(vk, here, next);
      var before := if n > 1 then [0, 1] else [];
      VisitsConcat(vk, ShuffleOpenings(evals, base, n - 1), before, [here, next], [0, 1]);
      VisitsReordered(vk, ShuffleOpenings(evals, base, n), before + [0, 1], [0, 1]);
    }
  }

  lemma CommonVisits<F(!new)>(vk: Vk<F>, evals: seq<F>, base: nat, n: nat)
    requires n <= |evals|
    ensures Visits(vk, CommonOpenings(evals, base, n), if n > 0 then [0] else [])
  {
    var os := CommonOpenings(evals, base, n);
    if n > 0 {
      assert os[0] in os;
    }
  }

  lemma OpeningsVisit<F(!new)>(vk: Vk<F>, proof: Proof<F>, hEval: F)
    requires Shaped(vk, proof)
    ensures Visits(vk, Openings(vk, proof, hEval), OpenedRotations(vk))
  {
    hide Visits, ColumnOpenings, PermOpenings, PermLastOpenings, LookupOpenings, ShuffleOpenings, CommonOpenings, BasesOf, RotationsOf;
    var b, chunks := BasesOf(vk, proof), vk.numPermChunks;
    var o1, r1 := ColumnOpenings(vk.adviceQueries, proof.adviceEvals, 0), RotationsOf(vk.adviceQueries);
    var o2, r2 := PermOpenings(proof.permutationProductEvals, b.permProd, chunks), if chunks > 0 then [0, 1] else [];
    var o3, r3 := PermLastOpenings(proof.permutationProductEvals, b.permProd, 0, LastIndex(chunks)), if chunks > 1 then [OpenedLast(vk)] else [];
    var o4, r4 := LookupOpenings(proof.lookupEvals, b, |proof.lookupEvals|), if vk.NumLookups() > 0 then [0, -1, 1] else [];
    var o5, r5 := ShuffleOpenings(proof.shuffleEvals, b.shuffleProduct, |proof.shuffleEvals|), if vk.NumShuffles() > 0 then [0, 1] else [];
    var o6, r6 := ColumnOpenings(vk.fixedQueries, proof.fixedEvals, b.fixed), RotationsOf(vk.fixedQueries);
    var o7, r7 := CommonOpenings(proof.permutationCommonEvals, b.permCommon, |vk.permutationCommitments|), if vk.NumPermColumns() > 0 then [0] else [];
    var h, random := Opening(b.h, Rotation(0), hEval), Opening(b.random, Rotation(0), proof.randomPolyEval);
    ColumnsVisit(vk, vk.adviceQueries, proof.adviceEvals, 0);
    PermVisits(vk, proof.permutationProductEvals, b.permProd, chunks);
    PermLastVisits(vk, proof.permutationProductEvals, b.permProd, 0, LastIndex(chunks));
    LookupVisits(vk, proof.lookupEvals, b, |proof.lookupEvals|);
    ShuffleVisits(vk, proof.shuffleEvals, b.shuffleProduct, |proof.shuffleEvals|);
    ColumnsVisit(vk, vk.fixedQueries, proof.fixedEvals, b.fixed);
    CommonVisits(vk, proof.permutationCommonEvals, b.permCommon, |vk.permutationCommitments|);
    OneVisit(vk, h);
    OneVisit(vk, random);
    VisitsConcat(vk, o1, r1, o2, r2);
    VisitsConcat(vk, o1 + o2, r1 + r2, o3, r3);
    assert r1 + r2 + r3 == r1 + PermRotations(vk, OpenedLast(vk));
    VisitsConcat(vk, o1 + o2 + o3, r1 + r2 + r3, o4, r4);
    VisitsConcat(vk, o1 + o2 + o3 + o4, r1 + r2 + r3 + r4, o5, r5);
    VisitsConcat(vk, o1 + o2 + o3 + o4 + o5, r1 + r2 + r3 + r4 + r5, o6, r6);
    VisitsConcat(vk, o1 + o2 + o3 + o4 + o5 + o6, r1 + r2 + r3 + r4 + r5 + r6, o7, r7);
    var os, rs := o1 + o2 + o3 + o4 + o5 + o6 + o7, r1 + r2 + r3 + r4 + r5 + r6 + r7;
    VisitsConcat(vk, os, rs, [h], [0]);
    VisitsConcat(vk, os + [h], rs + [0], [random], [0]);
    VisitsReordered(vk, os + [h] + [random], rs + [0] + [0], rs + [0]);
    assert Openings(vk, proof, hEval) == os + [h] + [random];
  }

  // ----- counting points -----

  /** A place of the verifying key is the challenge rotated. */
  lemma PlaceIsRotation<F(!new)>(f: Field<F>, vk: Vk<F>, s: Setting<F>, at: Place)
    requires f.Valid() && s.n == Pow2(vk.k) && HasOrder(f, s.omega, s.n)
    requires s.omegaLast == PowZ(f, s.omega, s.n, OpenedLast(vk))
    ensures PointAt(f, s, at) == f.mul(s.x, Pow(f, s.omega, Residue(RotationAt(vk, at), s.n)))
  {
    hide Field.Valid, HasOrder, Pow;
    match at
    case Rotation(r) => ExponentIsRotation(f, s.omega, s.n, r);
    case LastRow =>
  }

  lemma RotationsInjective<F(!new)>(f: Field<F>, omega: F, n: nat, x: F, a: nat, b: nat)
    requires f.Valid() && HasOrder(f, omega, n) && x != f.Zero() && a < n && b < n
    requires f.mul(x, Pow(f, omega, a)) == f.mul(x, Pow(f, omega, b))
    ensures a == b
  {
    hide Field.Valid, HasOrder, Pow;
    MulCancel(f, x, Pow(f, omega, a), Pow(f, omega, b));
    if a < b {
      PowInjective(f, omega, n, a, b);
    } else if b < a {
      PowInjective(f, omega, n, b, a);
    }
  }

  lemma PointOfEachOpening<F(!new)>(f: Field<F>, vk: Vk<F>, s: Setting<F>, os: seq<Opening<F>>)
    requires f.Valid() && s.n == Pow2(vk.k) && HasOrder(f, s.omega, s.n)
    requires s.omegaLast == PowZ(f, s.omega, s.n, OpenedLast(vk))
    ensures forall i :: 0 <= i < |os| ==>
      QueriesOf(f, s, os)[i].point == f.mul(s.x, Pow(f, s.omega, Residue(RotationAt(vk, os[i].at), s.n)))
  {
    hide Field.Valid, HasOrder, Pow, PointAt, Residue, RotationAt;
    forall i | 0 <= i < |os|
      ensures QueriesOf(f, s, os)[i].point == f.mul(s.x, Pow(f, s.omega, Residue(RotationAt(vk, os[i].at), s.n)))
    {
      PlaceIsRotation(f, vk, s, os[i].at);
    }
  }

  /** The point a residue stands for. */
  ghost function PointFor<F(!new)>(f: Field<F>, s: Setting<F>, e: nat): F {
    f.mul(s.x, Pow(f, s.omega, e))
  }

  lemma ResidueHasPoint<F(!new)>(f: Field<F>, vk: Vk<F>, s: Setting<F>, os: seq<Opening<F>>, rs: seq<int>, e: nat)
    requires f.Valid() && s.n == Pow2(vk.k) && HasOrder(f, s.omega, s.n)
    requires s.omegaLast == PowZ(f, s.omega, s.n, OpenedLast(vk))
    requires Visits(vk, os, rs) && e in Distinguished(rs, s.n)
    ensures e < s.n && PointFor(f, s, e) in Gwc.Points(QueriesOf(f, s, os))
  {
    hide Field.Valid, HasOrder, Pow, PointAt, RotationAt, Keys, QueryOf, OpenedLast;
    var qs := QueriesOf(f, s, os);
    var r :| r in rs && Residue(r, s.n) == e;
    var o :| o in os && RotationAt(vk, o.at) == r;
    var i :| 0 <= i < |os| && os[i] == o;
    PointOfEachOpening(f, vk, s, os);
    assert qs[i] in qs && PointOf(qs[i]) == PointFor(f, s, e);
  }

  lemma PointHasResidue<F(!new)>(f: Field<F>, vk: Vk<F>, s: Setting<F>, os: seq<Opening<F>>, rs: seq<int>, p: F) returns (e: nat)
    requires f.Valid() && s.n == Pow2(vk.k) && HasOrder(f, s.omega, s.n)
    requires s.omegaLast == PowZ(f, s.omega, s.n, OpenedLast(vk))
    requires Visits(vk, os, rs) && p in Gwc.Points(QueriesOf(f, s, os))
    ensures e in Distinguished(rs, s.n) && PointFor(f, s, e) == p
  {
    hide Field.Valid, HasOrder, Pow, PointAt, RotationAt, Keys, QueryOf, OpenedLast;
    var qs := QueriesOf(f, s, os);
    var q :| q in qs && PointOf(q) == p;
    var i :| 0 <= i < |qs| && qs[i] == q;
    PointOfEachOpening(f, vk, s, os);
    var r := RotationAt(vk, os[i].at);
    assert os[i] in os && r in rs;
    e := Residue(r, s.n);
    assert ((r: int) => Residue(r, s.n))(r) == e;
  }

  /** As many points as distinct rotations. */
  lemma PointsAreRotations<F(!new)>(f: Field<F>, vk: Vk<F>, s: Setting<F>, os: seq<Opening<F>>, rs: seq<int>)
    requires f.Valid() && s.n == Pow2(vk.k) && HasOrder(f, s.omega, s.n) && s.x != f.Zero()
    requires s.omegaLast == PowZ(f, s.omega, s.n, OpenedLast(vk))
    requires Visits(vk, os, rs)
    ensures |Gwc.Points(QueriesOf(f, s, os))| == |Distinguished(rs, s.n)|
  {
    hide Field.Valid, HasOrder, Pow, Visits, QueriesOf, Keys, OpenedLast;
    var residues, points := Distinguished(rs, s.n), Gwc.Points(QueriesOf(f, s, os));
    var m := (e: nat) => PointFor(f, s, e);
    forall e | e in residues ensures e < s.n && m(e) in points {
      ResidueHasPoint(f, vk, s, os, rs, e);
    }
    forall a, b | a in residues && b in residues && m(a) == m(b) ensures a == b {
      assert a < s.n && b < s.n;
      RotationsInjective(f, s.omega, s.n, s.x, a, b);
    }
    forall p | p in points ensures exists e :: e in residues && m(e) == p {
      var e := PointHasResidue(f, vk, s, os, rs, p);
      assert m(e) == p;
    }
    SameCount<nat, F>(residues, points, m);
  }

  // ----- agreement -----

  /** The exponent of omega at the last usable row, with saturating subtraction. */
  function LastPower<F, G>(vk: PlonkProtocol<F, G>): nat {
    if Pow2(vk.k) >= vk.blindingFactors + 1 then Pow2(vk.k) - (vk.blindingFactors + 1) else 0
  }

  lemma LastRowRotation<F(!new)>(f: Field<F>, vk: Vk<F>, omega: F)
    requires f.Valid() && HasOrder(f, omega, Pow2(vk.k))
    ensures Pow(f, omega, LastPower(vk)) == PowZ(f, omega, Pow2(vk.k), OpenedLast(vk))
  {
    hide Field.Valid, HasOrder, Pow, Pow2;
    var n := Pow2(vk.k);
    if vk.blindingFactors + 1 <= n {
      UniqueRemainder(LastRotation(vk), n, -1, n - (vk.blindingFactors + 1));
    }
  }

  /** The last usable row as the verifier computes it. */
  method OmegaLast<F(!new)>(f: Field<F>, vk: Vk<F>) returns (w: F)
    requires f.Valid()
    ensures w == Pow(f, vk.omega, LastPower(vk))
    ensures HasOrder(f, vk.omega, Pow2(vk.k)) ==> w == PowZ(f, vk.omega, Pow2(vk.k), OpenedLast(vk))
    ensures vk.blindingFactors + 1 > Pow2(vk.k) ==> w == f.One()
  {
    hide Field.Valid, HasOrder, Pow, Pow2, PowZ;
    var n := Pow2(vk.k);
    var lastPow: nat := if n >= vk.blindingFactors + 1 then n - (vk.blindingFactors + 1) else 0;
    w := PowU64(f, vk.omega, lastPow);
    PowOne(f, vk.omega);
    if HasOrder(f, vk.omega, n) {
      LastRowRotation(f, vk, vk.omega);
    }
  }

  /** Counting the last row where the reader puts it makes the same difference as where the verifier
      opens it. */
  ghost predicate LastRowCounted<F, G>(vk: PlonkProtocol<F, G>) {
    var others, n := Distinguished(RotationsWith(vk, 0), Pow2(vk.k)), Pow2(vk.k);
    vk.numPermChunks <= 1 || (Residue(AnnouncedLast(vk), n) in others <==> Residue(OpenedLast(vk), n) in others)
  }

  /** The last row adds one rotation unless its residue is there anyway. */
  lemma CountWithLast<F(!new), G(!new)>(vk: PlonkProtocol<F, G>, last: int, n: nat)
    requires n > 0
    ensures var others := Distinguished(RotationsWith(vk, 0), n);
      |Distinguished(RotationsWith(vk, last), n)| == |others| + if vk.numPermChunks <= 1 || Residue(last, n) in others then 0 else 1
  {
    hide RotationsOf, Residue;
    if vk.numPermChunks <= 1 {
      assert RotationsWith(vk, last) == RotationsWith(vk, 0);
    } else {
      RotationsInclude(vk, last);
      RotationsInclude(vk, 0);
      OneMoreResidue(RotationsWith(vk, 0), RotationsWith(vk, last), last, n);
    }
  }

  lemma RotationsInclude<F(!new), G(!new)>(vk: PlonkProtocol<F, G>, last: int)
    requires vk.numPermChunks > 1
    ensures forall r :: r in RotationsWith(vk, last) <==> r == last || r in RotationsWith(vk, 0)
  {
    hide RotationsOf;
    var a, b := RotationsWith(vk, last), RotationsWith(vk, 0);
    assert last in PermRotations(vk, last) && 0 in b;
    forall r ensures r in a <==> r == last || r in b {
      assert r in PermRotations(vk, last) <==> r == 0 || r == 1 || r == last;
      assert r in PermRotations(vk, 0) <==> r == 0 || r == 1;
      assert r in [0] <==> r == 0;
    }
  }

  lemma OneMoreResidue(s: seq<int>, t: seq<int>, last: int, n: nat)
    requires n > 0 && forall r :: r in t <==> r == last || r in s
    ensures |Distinguished(t, n)| == |Distinguished(s, n)| + if Residue(last, n) in Distinguished(s, n) then 0 else 1
  {
    hide Residue;
    var a, b, e := Distinguished(s, n), Distinguished(t, n), Residue(last, n);
    var c := if e in a then a else a + [e];
    var m := (x: nat) => x;
    forall x: nat ensures x in c <==> x in b {
      InDistinguished(s, n, x);
      InDistinguished(t, n, x);
      InDistinguished(s, n, e);
    }
    forall x | x in c ensures m(x) in b {}
    forall x | x in b ensures exists y :: y in c && m(y) == x { assert m(x) == x; }
    SameCount<nat, nat>(c, b, m);
  }

  lemma InDistinguished(s: seq<int>, n: nat, e: nat)
    requires n > 0
    ensures e in Distinguished(s, n) <==> exists r :: r in s && Residue(r, n) == e
  {
    var key := (r: int) => Residue(r, n);
    if r :| r in s && Residue(r, n) == e {
      assert key(r) == e;
    }
  }

  /** The reader expects as many witnesses as there are point groups in the queries that are then
      built if and only if, for a non-zero challenge, the last row is counted as it is opened, and, for
      the zero challenge, there is a single rotation. */
  lemma WitnessCountAgrees<F(!new)>(f: Field<F>, vk: Vk<F>, proof: Proof<F>, x: F, h: F, hEval: F, omega: F, omegaLast: F)
    requires f.Valid() && HasOrder(f, omega, Pow2(vk.k)) && omegaLast == Pow(f, omega, LastPower(vk))
    requires Shaped(vk, proof)
    ensures |Gwc.Points(QueriesOf(f, SettingOf(vk, proof, x, h, omega, omegaLast), Openings(vk, proof, hEval)))|
            == |Distinguished(VkRotations(vk), Pow2(vk.k))|
       <==> if x == f.Zero() then |Distinguished(VkRotations(vk), Pow2(vk.k))| == 1 else LastRowCounted(vk)
  {
    hide Field.Valid, HasOrder, Pow, Visits, Openings, Distinguished, RotationsWith, QueriesOf, Gwc.Points, Pow2, OpenedLast, AnnouncedLast;
    var s := SettingOf(vk, proof, x, h, omega, omegaLast);
    if x == f.Zero() {
      SomeOpening(vk, proof, hEval);
      ZeroChallengeHasOnePoint(f, s, Openings(vk, proof, hEval));
    } else {
      OpeningsVisit(vk, proof, hEval);
      LastRowRotation(f, vk, omega);
      PointsAreRotations(f, vk, s, Openings(vk, proof, hEval), OpenedRotations(vk));
      CountWithLast(vk, AnnouncedLast(vk), s.n);
      CountWithLast(vk, OpenedLast(vk), s.n);
    }
  }

  lemma SomeOpening<F(!new)>(vk: Vk<F>, proof: Proof<F>, hEval: F)
    requires Buildable(vk, proof) && PermIndexable(vk, proof)
    ensures |Openings(vk, proof, hEval)| > 0
  {
  }

  /** With the last usable row on the domain, and a domain of at most 2^32 rows or a row number that
      fits 31 bits, the last row is counted as it is opened. */
  lemma LastRowOnDomain<F, G>(vk: PlonkProtocol<F, G>)
    requires vk.blindingFactors + 1 <= Pow2(vk.k) && (vk.k <= 32 || vk.blindingFactors < 0x8000_0000)
    ensures LastRowCounted(vk)
  {
    hide Distinguished, RotationsWith, Pow2;
    if vk.blindingFactors < 0x8000_0000 {
      FitsI32(vk.blindingFactors);
    } else {
      TruncationKeepsResidue(LastRotation(vk), vk.k);
    }
  }

  lemma FitsI32(b: nat)
    requires b < 0x8000_0000
    ensures ToI32(-(b as int) - 1) == -(b as int) - 1
  {
  }

  /** Truncation to 32 bits keeps residues modulo smaller powers of two. */
  lemma TruncationKeepsResidue(v: int, k: nat)
    requires k <= 32
    ensures Residue(ToI32(v), Pow2(k)) == Residue(v, Pow2(k))
  {
    hide Pow2;
    Pow2Splits(k);
    var n, t := Pow2(k), ToI32(v);
    var q := (v - t) / 0x1_0000_0000;
    assert v - t == q * 0x1_0000_0000;
    MultipleOf(v, t, q, Pow2(32 - k), n);
  }

  lemma MultipleOf(v: int, t: int, q: int, m: int, n: nat)
    requires n > 0 && v - t == q * (m * n)
    ensures v % n == t % n
  {
    var a, b := v / n, t / n;
    assert q * (m * n) == (q * m) * n;
    UniqueRemainder(v, n, b + q * m, t % n);
  }

  lemma Pow2Splits(k: nat)
    requires k <= 32
    ensures Pow2(32 - k) * Pow2(k) == 0x1_0000_0000
  {
    hide Pow2;
    Pow2Product(32 - k, k);
    SmallPowers();
    Pow2Product(2, 2);
    Pow2Product(4, 4);
    Pow2Product(8, 8);
    Pow2Product(16, 16);
  }

  lemma SmallPowers()
    ensures Pow2(1) == 2 && Pow2(2) == 4
  {
  }

  lemma TwiceProduct(x: nat, y: nat)
    ensures (2 * x) * y == 2 * (x * y)
  {
  }

  lemma {:induction false} Pow2Product(a: nat, b: nat)
    ensures Pow2(a) * Pow2(b) == Pow2(a + b)
  {
    if a > 0 {
      Pow2Product(a - 1, b);
      TwiceProduct(Pow2(a - 1), Pow2(b));
      assert a - 1 + b == a + b - 1;
    }
  }

  // ----- where the counts differ -----

  /** A key that only has permutation chunks, and a proof for it. */
  ghost function ChunksKey<F>(zero: F, k: u32, blindingFactors: u32, chunks: u32): Vk<F> {
    PlonkProtocol(k, zero, 0, 0, 0, 3, 0, 0, 0, 0, blindingFactors, chunks, [], [], [], [], [], [], [], [], [], 1, [], [], [])
  }

  ghost function ChunksProof<F>(zero: F, chunks: u32): Proof<F> {
    PlonkProof([], seq(chunks, _ => zero), zero, [], [], [], zero, [], seq(chunks, _ => (zero, zero, zero)),
               [], [], [], [], [], [], zero, zero)
  }

  lemma ChunksShaped<F>(zero: F, k: u32, blindingFactors: u32, chunks: u32)
    ensures Shaped(ChunksKey(zero, k, blindingFactors, chunks), ChunksProof(zero, chunks))
  {
  }

  /** Two rotations and the zero challenge: two witnesses expected, one point. */
  lemma ZeroChallengeMiscounts<F(!new)>(f: Field<F>, h: F, hEval: F, omega: F)
    requires f.Valid() && HasOrder(f, omega, 2)
    ensures var vk, proof := ChunksKey(f.Zero(), 1, 0, 1), ChunksProof(f.Zero(), 1);
      && Shaped(vk, proof) && Pow2(vk.k) == 2 && |Distinguished(VkRotations(vk), 2)| == 2
      && |Gwc.Points(QueriesOf(f, SettingOf(vk, proof, f.Zero(), h, omega, Pow(f, omega, LastPower(vk))), Openings(vk, proof, hEval)))| != 2
  {
    hide Field.Valid, HasOrder, Pow, Openings, QueriesOf, Gwc.Points, Distinguished, LastPower;
    var vk, proof := ChunksKey(f.Zero(), 1, 0, 1), ChunksProof(f.Zero(), 1);
    ChunksShaped(f.Zero(), 1, 0, 1);
    SmallPowers();
    assert VkRotations(vk) == [0, 1, 0];
    TwoResidues(2);
    WitnessCountAgrees(f, vk, proof, f.Zero(), h, hEval, omega, Pow(f, omega, LastPower(vk)));
  }

  lemma OneMoreRotation(s: seq<int>, r: int, n: nat)
    requires n > 0
    ensures Distinguished(s + [r], n) ==
            if Residue(r, n) in Distinguished(s, n) then Distinguished(s, n) else Distinguished(s, n) + [Residue(r, n)]
  {
    hide Residue, Keys;
    Snoc(s, r, (q: int) => Residue(q, n));
  }

  lemma TwoResidues(n: nat)
    requires n >= 2
    ensures Distinguished([0, 1, 0], n) == [0, 1] == Distinguished([0, 1, 0, 0], n)
  {
    hide Keys, Distinguished;
    NothingSeen(n);
    OneMoreRotation([], 0, n);
    OneMoreRotation([0], 1, n);
    OneMoreRotation([0, 1], 0, n);
    OneMoreRotation([0, 1, 0], 0, n);
    assert [] + [0] == [0] && [0] + [1] == [0, 1] && [0, 1] + [0] == [0, 1, 0] && [0, 1, 0] + [0] == [0, 1, 0, 0];
  }

  /** More blinding factors than rows: the reader counts row -6 modulo 4, the verifier opens row 0. */
  lemma SaturatedMiscounts<F(!new)>(f: Field<F>, x: F, h: F, hEval: F, omega: F)
    requires f.Valid() && HasOrder(f, omega, 4) && x != f.Zero()
    ensures var vk, proof := ChunksKey(f.Zero(), 2, 5, 2), ChunksProof(f.Zero(), 2);
      && Shaped(vk, proof) && Pow2(vk.k) == 4 && !LastRowCounted(vk)
      && |Gwc.Points(QueriesOf(f, SettingOf(vk, proof, x, h, omega, Pow(f, omega, LastPower(vk))), Openings(vk, proof, hEval)))|
         != |Distinguished(VkRotations(vk), 4)|
  {
    hide Field.Valid, HasOrder, Pow, Openings, QueriesOf, Gwc.Points, Distinguished, LastPower;
    var vk, proof := ChunksKey(f.Zero(), 2, 5, 2), ChunksProof(f.Zero(), 2);
    ChunksShaped(f.Zero(), 2, 5, 2);
    SmallPowers();
    assert RotationsWith(vk, 0) == [0, 1, 0, 0];
    TwoResidues(4);
    FitsI32(5);
    assert OpenedLast(vk) == 0;
    assert Residue(AnnouncedLast(vk), 4) == 2;
    WitnessCountAgrees(f, vk, proof, x, h, hEval, omega, Pow(f, omega, LastPower(vk)));
  }

  /** At the zero challenge all points coincide, so the counts then agree only if one rotation is used. */
  lemma ZeroChallengeHasOnePoint<F(!new)>(f: Field<F>, s: Setting<F>, os: seq<Opening<F>>)
    requires f.Valid() && s.n > 0 && s.x == f.Zero() && os != []
    ensures |Gwc.Points(QueriesOf(f, s, os))| == 1
  {
    hide Field.Valid, Pow, Keys;
    var qs := QueriesOf(f, s, os);
    var points := Gwc.Points(qs);
    forall i | 0 <= i < |points| ensures points[i] == f.Zero() {
      assert points[i] in points;
      var q :| q in qs && PointOf(q) == points[i];
      var j :| 0 <= j < |qs| && qs[j] == q;
      PlaceAtZero(f, s, os[j].at);
    }
    assert qs[0] in qs;
    assert PointOf(qs[0]) in points;
    AllTheSame(points, f.Zero());
  }

  lemma Differ<A>(s: seq<A>, i: nat, j: nat)
    requires Distinct(s) && i < j < |s|
    ensures s[i] != s[j]
  {
  }

  lemma AllTheSame<A(!new)>(s: seq<A>, a: A)
    requires Distinct(s) && s != [] && forall i :: 0 <= i < |s| ==> s[i] == a
    ensures |s| == 1
  {
    if |s| > 1 {
      Differ(s, 0, 1);
    }
  }

  lemma PlaceAtZero<F(!new)>(f: Field<F>, s: Setting<F>, at: Place)
    requires f.Valid() && s.n > 0 && s.x == f.Zero()
    ensures PointAt(f, s, at) == f.Zero()
  {
    hide Field.Valid, Pow;
    match at
    case Rotation(r) => MulZero(f, Pow(f, s.omega, RotationExponent(r, s.n)));
    case LastRow => MulZero(f, s.omegaLast);
  }
}
