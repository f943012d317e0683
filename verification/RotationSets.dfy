/**
 Grouping of opening queries by commitment slot, and of commitment slots by the list of points
 they are opened at.
 */
module RotationSets {
  import opened Fields
  import opened Polynomials
  import opened Kzg
  import opened Grouping

  /** A commitment slot with the points it is queried at and the evaluation claimed at each. */
  datatype PerCommitment<F> =
    PerCommitment(commitId: nat, commitment: F, points: seq<F>, evalsByPoint: seq<(F, F)>)

  datatype RotationSet<F> = RotationSet(points: seq<F>, commitmentsWithEvals: seq<(F, seq<F>)>)

  datatype IntermediateSets<F> = IntermediateSets(rotationSets: seq<RotationSet<F>>, superPointSet: seq<F>)

  function PointsOf<F>(pc: PerCommitment<F>): seq<F> {
    pc.points
  }

  // ----- what the three passes compute -----

  /** The evaluation claimed first for each point of `qs`, in order of first appearance. */
  ghost function FirstEvals<F(!new)>(qs: seq<VerifierQuery<F>>): (r: seq<(F, F)>)
    ensures |r| == |Keys(qs, PointOf)|
    ensures forall i :: 0 <= i < |r| ==> r[i].0 == Keys(qs, PointOf)[i]
  {
    if qs == [] then []
    else
      var init, q := qs[..|qs| - 1], qs[|qs| - 1];
      if q.point in Keys(init, PointOf) then FirstEvals(init) else FirstEvals(init) + [(q.point, q.eval)]
  }

  ghost function Slot<F(!new)>(queries: seq<VerifierQuery<F>>, id: nat): (pc: PerCommitment<F>)
    requires id in Keys(queries, IdOf)
    ensures pc.commitId == id && Distinct(pc.points) && |pc.evalsByPoint| == |pc.points|
    ensures forall i :: 0 <= i < |pc.points| ==> pc.evalsByPoint[i].0 == pc.points[i]
  {
    SomeWithKey(queries, IdOf, id);
    var qs := WithKey(queries, IdOf, id);
    PerCommitment(id, qs[0].commitment, Keys(qs, PointOf), FirstEvals(qs))
  }

  /** One slot per commitment id, in order of first appearance. */
  ghost function Slots<F(!new)>(queries: seq<VerifierQuery<F>>): (r: seq<PerCommitment<F>>)
    ensures |r| == |Keys(queries, IdOf)|
    ensures forall i :: 0 <= i < |r| ==> r[i] == Slot(queries, Keys(queries, IdOf)[i])
  {
    seq(|Keys(queries, IdOf)|, i requires 0 <= i < |Keys(queries, IdOf)| => Slot(queries, Keys(queries, IdOf)[i]))
  }

  function EvalsOf<F>(pc: PerCommitment<F>): (r: seq<F>)
    ensures |r| == |pc.evalsByPoint|
  {
    seq(|pc.evalsByPoint|, i requires 0 <= i < |pc.evalsByPoint| => pc.evalsByPoint[i].1)
  }

  ghost function Entries<F(!new)>(pcs: seq<PerCommitment<F>>): (r: seq<(F, seq<F>)>)
    ensures |r| == |pcs|
  {
    seq(|pcs|, i requires 0 <= i < |pcs| => (pcs[i].commitment, EvalsOf(pcs[i])))
  }

  /** The rotation sets: one per distinct point list, holding exactly the slots with that list. */
  ghost predicate SetsOf<F(!new)>(pcs: seq<PerCommitment<F>>, sets: seq<RotationSet<F>>) {
    && |sets| == |Keys(pcs, PointsOf)|
    && forall i :: 0 <= i < |sets| ==>
         && sets[i].points == Keys(pcs, PointsOf)[i]
         && sets[i].commitmentsWithEvals == Entries(WithKey(pcs, PointsOf, sets[i].points))
  }

  ghost function Sets<F(!new)>(queries: seq<VerifierQuery<F>>): (sets: seq<RotationSet<F>>)
    ensures SetsOf(Slots(queries), sets)
  {
    var pcs := Slots(queries);
    var keys := Keys(pcs, PointsOf);
    seq(|keys|, i requires 0 <= i < |keys| => RotationSet(keys[i], Entries(WithKey(pcs, PointsOf, keys[i]))))
  }

  /** The slots of the `i`-th rotation set. */
  ghost function MembersOf<F(!new)>(queries: seq<VerifierQuery<F>>, i: nat): (pcs: seq<PerCommitment<F>>)
    requires i < |Sets(queries)|
    ensures Sets(queries)[i].commitmentsWithEvals == Entries(pcs)
  {
    WithKey(Slots(queries), PointsOf, Sets(queries)[i].points)
  }

  // ----- second pass: one more query -----

  lemma FirstEvalsSnoc<F(!new)>(qs: seq<VerifierQuery<F>>, q: VerifierQuery<F>)
    ensures Keys(qs + [q], PointOf) == if q.point in Keys(qs, PointOf) then Keys(qs, PointOf) else Keys(qs, PointOf) + [q.point]
    ensures FirstEvals(qs + [q]) == if q.point in Keys(qs, PointOf) then FirstEvals(qs) else FirstEvals(qs) + [(q.point, q.eval)]
  {
    Snoc(qs, q, PointOf);
    assert (qs + [q])[..|qs|] == qs;
  }

  function Extended<F(==)>(pc: PerCommitment<F>, q: VerifierQuery<F>): PerCommitment<F> {
    if q.point in pc.points then pc
    else PerCommitment(pc.commitId, pc.commitment, pc.points + [q.point], pc.evalsByPoint + [(q.point, q.eval)])
  }

  function Fresh<F>(q: VerifierQuery<F>): PerCommitment<F> {
    PerCommitment(q.commitId, q.commitment, [q.point], [(q.point, q.eval)])
  }

  lemma SlotOf<F(!new)>(init: seq<VerifierQuery<F>>, q: VerifierQuery<F>, id: nat)
    requires id in Keys(init, IdOf) || id == q.commitId
    ensures id in Keys(init + [q], IdOf)
    ensures Slot(init + [q], id) ==
            if id !in Keys(init, IdOf) then Fresh(q)
            else if id == q.commitId then Extended(Slot(init, id), q)
            else Slot(init, id)
  {
    Snoc(init, q, IdOf);
    hide Keys, WithKey;
    if id !in Keys(init, IdOf) {
      NoneWithKey(init, IdOf, id);
      var qs: seq<VerifierQuery<F>> := [];
      assert WithKey(init + [q], IdOf, id) == qs + [q];
      FirstEvalsSnoc(qs, q);
      NoKeys<VerifierQuery<F>, F>(PointOf);
    } else {
      SomeWithKey(init, IdOf, id);
      FirstEvalsSnoc(WithKey(init, IdOf, id), q);
    }
  }

  lemma NoKeys<T(!new), K(!new)>(key: T -> K)
    ensures Keys([], key) == []
  {
  }

  lemma SlotsSnoc<F(!new)>(init: seq<VerifierQuery<F>>, q: VerifierQuery<F>)
    ensures var ids := Keys(init, IdOf);
      && (q.commitId !in ids ==> Slots(init + [q]) == Slots(init) + [Fresh(q)])
      && (forall k :: 0 <= k < |ids| && ids[k] == q.commitId ==>
            Slots(init + [q]) == Slots(init)[k := Extended(Slots(init)[k], q)])
  {
    Snoc(init, q, IdOf);
    hide Keys, WithKey, Slot, Extended, Fresh;
    var ids, new_ids := Keys(init, IdOf), Keys(init + [q], IdOf);
    forall i | 0 <= i < |new_ids| ensures Slots(init + [q])[i] ==
        if new_ids[i] !in ids then Fresh(q) else if new_ids[i] == q.commitId then Extended(Slots(init)[i], q) else Slots(init)[i]
    {
      SlotOf(init, q, new_ids[i]);
    }
  }

  // ----- the passes -----

  method SuperPointSet<F(!new,==)>(queries: seq<VerifierQuery<F>>) returns (points: seq<F>)
    ensures points == Keys(queries, PointOf)
  {
    points := [];
    for i := 0 to |queries|
      invariant points == Keys(queries[..i], PointOf)
    {
      assert queries[..i + 1] == queries[..i] + [queries[i]];
      Snoc(queries[..i], queries[i], PointOf);
      if queries[i].point !in points {
        points := points + [queries[i].point];
      }
    }
    assert queries[..|queries|] == queries;
  }

  method CollectSlots<F(!new,==)>(queries: seq<VerifierQuery<F>>) returns (pcs: seq<PerCommitment<F>>)
    ensures pcs == Slots(queries)
  {
    hide Slot, Keys, WithKey;
    pcs := [];
    NoKeys<VerifierQuery<F>, nat>(IdOf);
    assert queries[..0] == [];
    for i := 0 to |queries|
      invariant pcs == Slots(queries[..i])
    {
      var q := queries[i];
      ghost var ids := Keys(queries[..i], IdOf);
      assert queries[..i + 1] == queries[..i] + [q];
      SlotsSnoc(queries[..i], q);
      var k := 0;
      while k < |pcs| && pcs[k].commitId != q.commitId
        invariant 0 <= k <= |pcs|
        invariant forall l :: 0 <= l < k ==> ids[l] != q.commitId
      {
        k := k + 1;
      }
      if k < |pcs| {
        if q.point !in pcs[k].points {
          pcs := pcs[k := PerCommitment(pcs[k].commitId, pcs[k].commitment, pcs[k].points + [q.point],
                                        pcs[k].evalsByPoint + [(q.point, q.eval)])];
        }
      } else {
        pcs := pcs + [PerCommitment(q.commitId, q.commitment, [q.point], [(q.point, q.eval)])];
      }
    }
    assert queries[..|queries|] == queries;
  }

  /** Look every point up in the recorded pairs. The points are distinct, so the result is the
      recorded evaluations in order. */
  method EvalsInPointOrder<F(!new,==)>(pc: PerCommitment<F>) returns (evals: seq<F>)
    requires Distinct(pc.points) && |pc.evalsByPoint| == |pc.points|
    requires forall i :: 0 <= i < |pc.points| ==> pc.evalsByPoint[i].0 == pc.points[i]
    ensures evals == EvalsOf(pc)
  {
    evals := [];
    for i := 0 to |pc.points|
      invariant evals == EvalsOf(pc)[..i]
    {
      var k := 0;
      while pc.evalsByPoint[k].0 != pc.points[i]
        invariant 0 <= k <= i
        decreases i - k
      {
        k := k + 1;
      }
      assert pc.points[k] == pc.points[i];
      evals := evals + [pc.evalsByPoint[k].1];
    }
  }

  lemma JoinSet<F(!new)>(init: seq<PerCommitment<F>>, pc: PerCommitment<F>, sets: seq<RotationSet<F>>, k: nat)
    requires SetsOf(init, sets) && k < |sets| && sets[k].points == pc.points
    ensures SetsOf(init + [pc], sets[k := RotationSet(sets[k].points, sets[k].commitmentsWithEvals + [(pc.commitment, EvalsOf(pc))])])
  {
    hide Keys, WithKey, EvalsOf;
    Snoc(init, pc, PointsOf);
    assert sets[k].points in Keys(init, PointsOf);
    forall i | 0 <= i < |sets| && i != k ensures sets[i].points != pc.points {
      assert Keys(init, PointsOf)[i] != Keys(init, PointsOf)[k];
    }
    EntriesSnoc(WithKey(init, PointsOf, pc.points), pc);
  }

  lemma NewSet<F(!new)>(init: seq<PerCommitment<F>>, pc: PerCommitment<F>, sets: seq<RotationSet<F>>)
    requires SetsOf(init, sets) && forall i :: 0 <= i < |sets| ==> sets[i].points != pc.points
    ensures SetsOf(init + [pc], sets + [RotationSet(pc.points, [(pc.commitment, EvalsOf(pc))])])
  {
    hide Keys, WithKey, EvalsOf;
    Snoc(init, pc, PointsOf);
    assert forall i :: 0 <= i < |sets| ==> Keys(init, PointsOf)[i] != pc.points;
    NoneWithKey(init, PointsOf, pc.points);
    EntriesSnoc([], pc);
  }

  lemma EntriesSnoc<F(!new)>(pcs: seq<PerCommitment<F>>, pc: PerCommitment<F>)
    ensures Entries(pcs + [pc]) == Entries(pcs) + [(pc.commitment, EvalsOf(pc))]
  {
  }

  lemma SetsAreDetermined<F(!new)>(pcs: seq<PerCommitment<F>>, a: seq<RotationSet<F>>, b: seq<RotationSet<F>>)
    requires SetsOf(pcs, a) && SetsOf(pcs, b)
    ensures a == b
  {
    hide Keys, WithKey, Entries;
    forall i | 0 <= i < |a| ensures a[i] == b[i] {}
  }

  method ConstructIntermediateSets<F(!new,==)>(queries: seq<VerifierQuery<F>>) returns (r: IntermediateSets<F>)
    ensures r.superPointSet == Keys(queries, PointOf)
    ensures r.rotationSets == Sets(queries)
  {
    hide Slot, Keys, WithKey, Sets;
    var superPointSet := SuperPointSet(queries);
    var pcs := CollectSlots(queries);
    var sets: seq<RotationSet<F>> := [];
    NoKeys<PerCommitment<F>, seq<F>>(PointsOf);
    assert pcs[..0] == [];
    for i := 0 to |pcs|
      invariant SetsOf(pcs[..i], sets)
    {
      hide SetsOf;
      var pc := pcs[i];
      assert pcs[..i + 1] == pcs[..i] + [pc];
      var evals := EvalsInPointOrder(pc);
      var k := 0;
      while k < |sets| && sets[k].points != pc.points
        invariant 0 <= k <= |sets|
        invariant forall l :: 0 <= l < k ==> sets[l].points != pc.points
      {
        k := k + 1;
      }
      if k < |sets| {
        JoinSet(pcs[..i], pc, sets, k);
        sets := sets[k := RotationSet(sets[k].points, sets[k].commitmentsWithEvals + [(pc.commitment, evals)])];
      } else {
        NewSet(pcs[..i], pc, sets);
        sets := sets + [RotationSet(pc.points, [(pc.commitment, evals)])];
      }
    }
    assert pcs[..|pcs|] == pcs;
    SetsAreDetermined(pcs, sets, Sets(queries));
    r := IntermediateSets(sets, superPointSet);
  }

  // ----- what the sets mean for the queries -----

  /** Queries of one slot agree on the commitment, and on the evaluation at a common point. */
  ghost predicate Consistent<F(!new)>(queries: seq<VerifierQuery<F>>) {
    forall p, q :: p in queries && q in queries && p.commitId == q.commitId ==>
      p.commitment == q.commitment && (p.point == q.point ==> p.eval == q.eval)
  }

  /** The slot of `q` opens the commitment of `q` at the point of `q` to the evaluation of `q`. */
  ghost predicate Represented<F(!new)>(queries: seq<VerifierQuery<F>>, q: VerifierQuery<F>)
    requires q.commitId in Keys(queries, IdOf)
  {
    var pc := Slot(queries, q.commitId);
    && pc.commitment == q.commitment
    && exists k :: 0 <= k < |pc.points| && pc.points[k] == q.point && EvalsOf(pc)[k] == q.eval
  }

  lemma NoFirstEvals<F(!new)>(qs: seq<VerifierQuery<F>>)
    requires qs == []
    ensures FirstEvals(qs) == []
  {
  }

  lemma {:induction false} FirstEvalsFromQueries<F(!new)>(qs: seq<VerifierQuery<F>>, k: nat)
    requires k < |FirstEvals(qs)|
    ensures exists q :: q in qs && q.point == Keys(qs, PointOf)[k] && q.eval == FirstEvals(qs)[k].1
  {
    hide Keys, FirstEvals;
    if qs == [] {
      NoFirstEvals(qs);
      return;
    }
    var init, last := qs[..|qs| - 1], qs[|qs| - 1];
    assert qs == init + [last];
    FirstEvalsSnoc(init, last);
    if k < |FirstEvals(init)| {
      FirstEvalsFromQueries(init, k);
      var q :| q in init && q.point == Keys(init, PointOf)[k] && q.eval == FirstEvals(init)[k].1;
      assert q in qs;
    } else {
      assert last in qs;
    }
  }

  /** Every claim in a slot was made by some query of that slot. */
  lemma SlotClaims<F(!new)>(queries: seq<VerifierQuery<F>>, id: nat, k: nat)
    requires id in Keys(queries, IdOf) && k < |Slot(queries, id).points|
    ensures var pc := Slot(queries, id);
      && (exists q :: q in queries && q.commitId == id && q.commitment == pc.commitment)
      && (exists q :: q in queries && q.commitId == id && q.point == pc.points[k] && q.eval == EvalsOf(pc)[k])
  {
    SomeWithKey(queries, IdOf, id);
    var qs := WithKey(queries, IdOf, id);
    FirstEvalsFromQueries(qs, k);
    var q :| q in qs && q.point == Keys(qs, PointOf)[k] && q.eval == FirstEvals(qs)[k].1;
    assert q in queries && q.commitId == id;
    assert qs[0] in queries;
  }

  /** Every claim of the query list survives the grouping exactly when the list is consistent:
      a slot keeps the first commitment and the first evaluation it sees. */
  lemma ClaimsSurviveIffConsistent<F(!new)>(queries: seq<VerifierQuery<F>>)
    ensures forall q :: q in queries ==> q.commitId in Keys(queries, IdOf)
    ensures (forall q :: q in queries ==> Represented(queries, q)) <==> Consistent(queries)
  {
    assert forall q :: q in queries ==> IdOf(q) in Keys(queries, IdOf);
    hide Keys, Slot, EvalsOf;
    if Consistent(queries) {
      forall q | q in queries ensures Represented(queries, q) {
        ConsistentClaim(queries, q);
      }
    }
    if forall q :: q in queries ==> Represented(queries, q) {
      hide Represented;
      forall p, q | p in queries && q in queries && p.commitId == q.commitId
        ensures p.commitment == q.commitment && (p.point == q.point ==> p.eval == q.eval)
      {
        RepresentedAgree(queries, p, q);
      }
    }
  }

  lemma RepresentedAgree<F(!new)>(queries: seq<VerifierQuery<F>>, p: VerifierQuery<F>, q: VerifierQuery<F>)
    requires p.commitId == q.commitId && p.commitId in Keys(queries, IdOf)
    requires Represented(queries, p) && Represented(queries, q)
    ensures p.commitment == q.commitment && (p.point == q.point ==> p.eval == q.eval)
  {
    hide Keys, EvalsOf;
  }

  lemma ConsistentClaim<F(!new)>(queries: seq<VerifierQuery<F>>, q: VerifierQuery<F>)
    requires Consistent(queries) && q in queries
    ensures Represented(queries, q)
  {
    var id := q.commitId;
    assert IdOf(q) in Keys(queries, IdOf);
    var pc, qs := Slot(queries, id), WithKey(queries, IdOf, id);
    assert q in qs && PointOf(q) in Keys(qs, PointOf);
    var k :| 0 <= k < |pc.points| && pc.points[k] == q.point;
    SlotClaims(queries, id, k);
    var first :| first in queries && first.commitId == id && first.commitment == pc.commitment;
    var other :| other in queries && other.commitId == id && other.point == pc.points[k] && other.eval == EvalsOf(pc)[k];
  }

  /** Every slot belongs to exactly one set, exactly once; its points are distinct and all of them
      are points of the super set, which is itself free of duplicates. */
  lemma SetsPartitionSlots<F(!new)>(queries: seq<VerifierQuery<F>>)
    ensures Together(Slots(queries), PointsOf, Keys(Slots(queries), PointsOf)) == multiset(Slots(queries))
    ensures forall i, j :: 0 <= i < j < |Slots(queries)| ==> Slots(queries)[i].commitId != Slots(queries)[j].commitId
    ensures forall i, x :: 0 <= i < |Slots(queries)| && x in Slots(queries)[i].points ==> x in Keys(queries, PointOf)
    ensures forall i :: 0 <= i < |Slots(queries)| ==> Distinct(Slots(queries)[i].points) && Slots(queries)[i].points != []
    ensures Distinct(Keys(queries, PointOf))
  {
    GroupsPartition(Slots(queries), PointsOf);
    forall i, x | 0 <= i < |Slots(queries)| && x in Slots(queries)[i].points ensures x in Keys(queries, PointOf) {
      SlotPointFromQuery(queries, Keys(queries, IdOf)[i], x);
    }
    forall i | 0 <= i < |Slots(queries)| ensures Slots(queries)[i].points != [] {
      SlotHasPoint(queries, Keys(queries, IdOf)[i]);
    }
    var ids := Keys(queries, IdOf);
    forall i, j | 0 <= i < j < |Slots(queries)| ensures Slots(queries)[i].commitId != Slots(queries)[j].commitId {
      assert ids[i] != ids[j];
    }
  }

  lemma SlotPointFromQuery<F(!new)>(queries: seq<VerifierQuery<F>>, id: nat, x: F)
    requires id in Keys(queries, IdOf) && x in Slot(queries, id).points
    ensures x in Keys(queries, PointOf)
  {
    var qs := WithKey(queries, IdOf, id);
    var q :| q in qs && PointOf(q) == x;
    assert q in queries && PointOf(q) in Keys(queries, PointOf);
  }

  lemma SlotHasPoint<F(!new)>(queries: seq<VerifierQuery<F>>, id: nat)
    requires id in Keys(queries, IdOf)
    ensures Slot(queries, id).points != []
  {
    SomeWithKey(queries, IdOf, id);
    var qs := WithKey(queries, IdOf, id);
    assert PointOf(qs[0]) in Keys(qs, PointOf);
  }

  /** The point list of a set is the point list of each of its slots. */
  lemma SetPoints<F(!new)>(queries: seq<VerifierQuery<F>>, i: nat)
    requires i < |Sets(queries)|
    ensures var points := Sets(queries)[i].points;
      && Distinct(points) && points != []
      && (forall x :: x in points ==> x in Keys(queries, PointOf))
      && MembersOf(queries, i) != []
      && (forall pc :: pc in MembersOf(queries, i) ==> pc in Slots(queries) && pc.points == points && |EvalsOf(pc)| == |points|)
  {
    hide Keys, Slot, EvalsOf, Entries;
    var points := Sets(queries)[i].points;
    assert points == Keys(Slots(queries), PointsOf)[i];
    assert points in Keys(Slots(queries), PointsOf);
    SomeWithKey(Slots(queries), PointsOf, points);
    SlotFacts(queries, MembersOf(queries, i)[0]);
    forall pc | pc in MembersOf(queries, i) ensures pc in Slots(queries) && pc.points == points && |EvalsOf(pc)| == |points| {
      assert PointsOf(pc) == points;
    }
  }

  lemma SlotFacts<F(!new)>(queries: seq<VerifierQuery<F>>, pc: PerCommitment<F>)
    requires pc in Slots(queries)
    ensures Distinct(pc.points) && pc.points != [] && forall x :: x in pc.points ==> x in Keys(queries, PointOf)
  {
    hide Keys, Slot, Together, Slots;
    SetsPartitionSlots(queries);
    var i :| 0 <= i < |Slots(queries)| && Slots(queries)[i] == pc;
  }
}
