/** The helpers that the join commute, associate and exchange rules use to
    rebuild a rotated join subtree: projection guards and splits, minimal and
    forced projection wrappers, restoring columns a join condition needs,
    attributing condition slots to a side, and redistributing conjuncts. */
module JoinReorderUtils {
  import opened Sequences
  import opened Plans
  import opened Lists

  // ---------------------------------------------------------------------------
  // isAllSlotProject

  /** `allMatch(expr -> expr instanceof Slot)` over a projection list. */
  function AllSlots(projects: seq<NamedExpression>): (r: bool)
    ensures r <==> forall i :: 0 <= i < |projects| ==> projects[i].SlotRef?
  {
    projects == [] || (projects[0].SlotRef? && AllSlots(projects[1..]))
  }

  /** A projection over a join is pass-through only: every entry is a bare
      slot, so the list is exactly the references to its own output. */
  function IsAllSlotProject(project: Plan): (r: bool)
    requires project.Project? && project.child.Join?
    ensures r <==> forall i :: 0 <= i < |project.projects| ==> project.projects[i].SlotRef?
    ensures r ==> Refs(project.Output()) == project.projects
  {
    AllSlots(project.projects)
  }

  // ---------------------------------------------------------------------------
  // splitProject

  /** The key of `splitProject`: the entry's ExprId is in `ids`. */
  function IdIn(ids: set<ExprId>): NamedExpression -> bool {
    (e: NamedExpression) => e.Id() in ids
  }

  /** Splits a pass-through projection list by whether each slot's ExprId is
      in `splitChildExprIds`: `yes` under `true`, `no` under `false`. */
  function SplitProject(projects: seq<NamedExpression>, splitChildExprIds: set<ExprId>): (r: Split<NamedExpression>)
    requires AllSlots(projects)
    ensures AllSlots(r.yes) && AllSlots(r.no)
    ensures forall i :: 0 <= i < |r.yes| ==> r.yes[i].Id() in splitChildExprIds
    ensures forall i :: 0 <= i < |r.no| ==> r.no[i].Id() !in splitChildExprIds
    ensures IsSubsequence(r.yes, projects) && IsSubsequence(r.no, projects)
    ensures multiset(r.yes) + multiset(r.no) == multiset(projects)
    ensures |r.yes| + |r.no| == |projects|
  {
    var r := Partition(projects, IdIn(splitChildExprIds));
    PartitionedElements(projects, IdIn(splitChildExprIds), r.yes, r.no);
    SlotsOnly(projects, r.yes);
    SlotsOnly(projects, r.no);
    r
  }

  /** A list drawn from a pass-through list is pass-through. */
  lemma SlotsOnly(projects: seq<NamedExpression>, part: seq<NamedExpression>)
    requires AllSlots(projects)
    requires forall e :: e in part ==> e in projects
    ensures AllSlots(part)
  {
    forall i | 0 <= i < |part| ensures part[i].SlotRef? {
      assert part[i] in projects;
      var k :| 0 <= k < |projects| && projects[k] == part[i];
    }
  }

  /** Every slot of the list lands in exactly one of the two lists, on the
      side its ExprId selects. */
  lemma SplitProjectMembership(projects: seq<NamedExpression>, splitChildExprIds: set<ExprId>, e: NamedExpression)
    requires AllSlots(projects)
    requires e in projects
    ensures e in SplitProject(projects, splitChildExprIds).yes <==> e.Id() in splitChildExprIds
    ensures e in SplitProject(projects, splitChildExprIds).no <==> e.Id() !in splitChildExprIds
  {
  }

  // ---------------------------------------------------------------------------
  // projectOrSelf, projectOrSelfInOrder

  /** `outputSet.containsAll(projects)`: a computed entry is never equal to a slot. */
  predicate ContainsAll(outputSet: set<Slot>, projects: seq<NamedExpression>) {
    forall i :: 0 <= i < |projects| ==> projects[i].SlotRef? && projects[i].slot in outputSet
  }

  /** Returns `plan` itself when `projects` is empty or when the output set has
      as many elements as `projects` and contains each of them; otherwise wraps
      `plan` in a projection over exactly `projects`. */
  function ProjectOrSelf(projects: seq<NamedExpression>, plan: Plan): (r: Plan)
    ensures r == plan || r == Project(projects, plan)
    ensures projects == [] ==> r == plan
    ensures r == plan <==>
              projects == [] ||
              (|plan.OutputSet()| == |projects| && ContainsAll(plan.OutputSet(), projects))
  {
    var outputSet := plan.OutputSet();
    if projects == [] || (|outputSet| == |projects| && ContainsAll(outputSet, projects)) then plan
    else Project(projects, plan)
  }

  /** A list of distinct bare slots produces one distinct column per entry. */
  lemma DistinctSlotsCardinality(projects: seq<NamedExpression>)
    requires AllSlots(projects) && NoDuplicates(projects)
    ensures NoDuplicates(ProjectOutput(projects))
    ensures |SlotSet(projects)| == |projects|
  {
    var out := ProjectOutput(projects);
    forall i, j | 0 <= i < j < |out| ensures out[i] != out[j] {
      assert out[i] == projects[i].slot && out[j] == projects[j].slot;
    }
    DistinctCardinality(out);
  }

  /** For a list without duplicates the test of `projectOrSelf` is set
      equality: the plan is kept exactly when the list is empty or consists of
      slots whose set is the plan's output set. */
  lemma {:induction false} ProjectOrSelfIsSetEquality(projects: seq<NamedExpression>, plan: Plan)
    requires NoDuplicates(projects)
    ensures ProjectOrSelf(projects, plan) == plan <==>
              projects == [] || (AllSlots(projects) && SlotSet(projects) == plan.OutputSet())
  {
    var outputSet := plan.OutputSet();
    if projects != [] {
      if |outputSet| == |projects| && ContainsAll(outputSet, projects) {
        DistinctSlotsCardinality(projects);
        assert SlotSet(projects) <= outputSet by {
          forall s | s in SlotSet(projects) ensures s in outputSet {
            var i :| 0 <= i < |projects| && ProjectOutput(projects)[i] == s;
            assert projects[i].slot == s;
          }
        }
        SubsetSameCardinality(SlotSet(projects), outputSet);
      }
      if AllSlots(projects) && SlotSet(projects) == outputSet {
        DistinctSlotsCardinality(projects);
        forall i | 0 <= i < |projects| ensures projects[i].slot in outputSet {
          assert ProjectOutput(projects)[i] == projects[i].slot;
        }
      }
    }
  }

  /** For a non-empty list without duplicates, the result of `projectOrSelf`
      exposes exactly the columns of the list (in some order). */
  lemma ProjectOrSelfOutputSet(projects: seq<NamedExpression>, plan: Plan)
    requires projects != [] && NoDuplicates(projects)
    ensures ProjectOrSelf(projects, plan).OutputSet() == SlotSet(projects)
  {
    ProjectOrSelfIsSetEquality(projects, plan);
  }

  /** With a repeated column the cardinality test is met by a list whose set
      is smaller than the output set: `[a, a]` keeps a plan whose output is
      `[a, b]`. */
  lemma ProjectOrSelfRepeatedColumn()
    ensures var plan := Leaf([Slot(1), Slot(2)]);
            var projects := [SlotRef(Slot(1)), SlotRef(Slot(1))];
            ProjectOrSelf(projects, plan) == plan && SlotSet(projects) != plan.OutputSet()
  {
    var plan := Leaf([Slot(1), Slot(2)]);
    var projects := [SlotRef(Slot(1)), SlotRef(Slot(1))];
    assert plan.OutputSet() == {Slot(1), Slot(2)};
    assert ProjectOutput(projects) == [Slot(1), Slot(1)];
    assert SlotSet(projects) == {Slot(1)};
  }

  /** Returns `plan` itself when `projects` is empty or is exactly the plan's
      output as a sequence; otherwise wraps `plan` in a projection over
      exactly `projects`. */
  function ProjectOrSelfInOrder(projects: seq<NamedExpression>, plan: Plan): (r: Plan)
    ensures r == plan || r == Project(projects, plan)
    ensures r == plan <==> projects == [] || projects == Refs(plan.Output())
  {
    if projects == [] || projects == Refs(plan.Output()) then plan
    else Project(projects, plan)
  }

  /** For a non-empty list the result of `projectOrSelfInOrder` exposes
      exactly the list's columns in the list's order. */
  lemma ProjectOrSelfInOrderOutput(projects: seq<NamedExpression>, plan: Plan)
    requires projects != []
    ensures ProjectOrSelfInOrder(projects, plan).Output() == ProjectOutput(projects)
  {
  }

  /** When the plan's output has no repeated column, keeping the plan in
      order implies keeping it irrespective of order. */
  lemma ProjectOrSelfInOrderIsStricter(projects: seq<NamedExpression>, plan: Plan)
    requires NoDuplicates(plan.Output())
    requires ProjectOrSelfInOrder(projects, plan) == plan
    ensures ProjectOrSelf(projects, plan) == plan
  {
    if projects != [] {
      var out := plan.Output();
      assert projects == Refs(out);
      DistinctCardinality(out);
      forall i | 0 <= i < |projects| ensures projects[i].SlotRef? && projects[i].slot in plan.OutputSet() {
        assert projects[i] == SlotRef(out[i]);
      }
    }
  }

  /** A reordering of the plan's own distinct columns is kept by
      `projectOrSelf` but wrapped by `projectOrSelfInOrder`. */
  lemma PermutedColumnsOnlyInOrderWraps(projects: seq<NamedExpression>, plan: Plan)
    requires projects != [] && AllSlots(projects) && NoDuplicates(projects)
    requires SlotSet(projects) == plan.OutputSet()
    requires projects != Refs(plan.Output())
    ensures ProjectOrSelf(projects, plan) == plan
    ensures ProjectOrSelfInOrder(projects, plan) == Project(projects, plan)
  {
    ProjectOrSelfIsSetEquality(projects, plan);
  }

  // ---------------------------------------------------------------------------
  // addSlotsUsedByOn

  /** The used slots whose ExprId the projection list does not produce yet. */
  function Missing(usedSlots: set<Slot>, projects: seq<NamedExpression>): set<Slot> {
    set s | s in usedSlots && s.exprId !in ExprIds(projects)
  }

  /** `suffix` lists each slot of `slots` once, as a bare slot, in some order. */
  ghost predicate Enumerates(suffix: seq<NamedExpression>, slots: set<Slot>) {
    && |suffix| == |slots|
    && NoDuplicates(suffix)
    && (forall i :: 0 <= i < |suffix| ==> suffix[i].SlotRef? && suffix[i].slot in slots)
    && (forall s :: s in slots ==> SlotRef(s) in suffix)
  }

  /** What `addSlotsUsedByOn` does to a projection list: an empty list stays
      empty; otherwise the old list is kept as a prefix and the used slots
      whose ExprId was absent are appended, each once, in unspecified order. */
  ghost predicate Augmented(before: seq<NamedExpression>, after: seq<NamedExpression>, usedSlots: set<Slot>) {
    if before == [] then after == []
    else
      && |before| <= |after|
      && after[..|before|] == before
      && Enumerates(after[|before|..], Missing(usedSlots, before))
  }

  /** Appends to a non-empty `projects` every slot of `usedSlots` whose ExprId
      the list did not produce when the call began; `usedSlots` is a set, so
      the appended slots come in no particular order. */
  method AddSlotsUsedByOn(usedSlots: set<Slot>, projects: ArrayList<NamedExpression>)
    modifies projects
    ensures Augmented(old(projects.items), projects.items, usedSlots)
  {
    if projects.items == [] {
      return;
    }
    ghost var before := projects.items;
    var projectExprIdSet := ExprIds(projects.items);
    var pending := usedSlots;
    while pending != {}
      invariant pending <= usedSlots
      invariant |before| <= |projects.items| && projects.items[..|before|] == before
      invariant Enumerates(projects.items[|before|..], Missing(usedSlots - pending, before))
      decreases pending
    {
      var slot :| slot in pending;
      ghost var suffix := projects.items[|before|..];
      ghost var done := usedSlots - pending;
      if slot.exprId !in projectExprIdSet {
        projects.Add(SlotRef(slot));
        assert projects.items[|before|..] == suffix + [SlotRef(slot)];
        assert Missing(done + {slot}, before) == Missing(done, before) + {slot};
        assert slot !in Missing(done, before);
      } else {
        assert Missing(done + {slot}, before) == Missing(done, before);
      }
      pending := pending - {slot};
      assert usedSlots - pending == done + {slot};
    }
    assert usedSlots - pending == usedSlots;
  }

  /** After the call every used slot's ExprId is produced by the list, unless
      the list was empty. */
  lemma AugmentedCoversUsedSlots(before: seq<NamedExpression>, after: seq<NamedExpression>, usedSlots: set<Slot>)
    requires Augmented(before, after, usedSlots)
    requires before != []
    ensures forall s :: s in usedSlots ==> s.exprId in ExprIds(after)
    ensures Missing(usedSlots, after) == {}
  {
    forall s | s in usedSlots ensures s.exprId in ExprIds(after) {
      if s.exprId in ExprIds(before) {
        var e :| e in before && e.Id() == s.exprId;
        var k := IndexOf(before, e);
        assert after[k] == e;
        assert e in after;
      } else {
        assert s in Missing(usedSlots, before);
        var suffix := after[|before|..];
        assert SlotRef(s) in suffix;
        var k :| 0 <= k < |suffix| && suffix[k] == SlotRef(s);
        assert after[|before| + k] == SlotRef(s);
        assert SlotRef(s) in after;
        assert SlotRef(s).Id() == s.exprId;
      }
    }
  }

  /** Position of an element known to occur in a sequence. */
  function IndexOf(s: seq<NamedExpression>, e: NamedExpression): (k: nat)
    requires e in s
    ensures k < |s| && s[k] == e
  {
    if s[0] == e then 0 else 1 + IndexOf(s[1..], e)
  }

  /** Calling `addSlotsUsedByOn` a second time with the same slots adds nothing. */
  lemma AddSlotsUsedByOnIdempotent(l0: seq<NamedExpression>, l1: seq<NamedExpression>,
                                   l2: seq<NamedExpression>, usedSlots: set<Slot>)
    requires Augmented(l0, l1, usedSlots)
    requires Augmented(l1, l2, usedSlots)
    ensures l2 == l1
  {
    if l0 != [] {
      AugmentedCoversUsedSlots(l0, l1, usedSlots);
      assert l1 != [];
      var suffix := l2[|l1|..];
      assert Missing(usedSlots, l1) == {};
      assert suffix == [];
      assert l2 == l2[..|l1|] + suffix;
    }
  }

  /** The result of `addSlotsUsedByOn` is fixed up to the order in which the
      missing slots are appended: any two outcomes are permutations of each
      other and share the old list as prefix. */
  lemma AddSlotsUsedByOnDeterminedUpToOrder(before: seq<NamedExpression>, after1: seq<NamedExpression>,
                                            after2: seq<NamedExpression>, usedSlots: set<Slot>)
    requires Augmented(before, after1, usedSlots)
    requires Augmented(before, after2, usedSlots)
    ensures |after1| == |after2|
    ensures multiset(after1) == multiset(after2)
  {
    if before != [] {
      var n := |before|;
      var s1, s2 := after1[n..], after2[n..];
      forall x ensures x in s1 <==> x in s2 {
        if x in s1 {
          var k :| 0 <= k < |s1| && s1[k] == x;
          assert x == SlotRef(x.slot);
        }
        if x in s2 {
          var k :| 0 <= k < |s2| && s2[k] == x;
          assert x == SlotRef(x.slot);
        }
      }
      DistinctSameElements(s1, s2);
      assert after1 == before + s1 && after2 == before + s2;
    }
  }

  /** Appending keeps ExprIds unique: a list whose entries produce distinct
      ExprIds still does so afterwards. */
  lemma AddSlotsUsedByOnKeepsIdsUnique(before: seq<NamedExpression>, after: seq<NamedExpression>, usedSlots: set<Slot>)
    requires Augmented(before, after, usedSlots)
    requires forall i, j :: 0 <= i < j < |before| ==> before[i].Id() != before[j].Id()
    ensures forall i, j :: 0 <= i < j < |after| ==> after[i].Id() != after[j].Id()
  {
  }

  // ---------------------------------------------------------------------------
  // joinChildConditionSlots

  /** The join's condition slots that belong to the chosen child's output. */
  function JoinChildConditionSlots(join: Plan, left: bool): (r: set<Slot>)
    requires join.Join?
    ensures r <= join.ConditionSlots()
    ensures r <= (if left then join.left else join.right).OutputSet()
    ensures forall s :: s in join.ConditionSlots() && s in (if left then join.left else join.right).OutputSet() ==> s in r
  {
    var childSlots := if left then join.left.OutputSet() else join.right.OutputSet();
    set s | s in join.ConditionSlots() && s in childSlots
  }

  /** With children whose outputs are disjoint, the two sides attribute each
      condition slot of the join's output to exactly one child. */
  lemma JoinChildConditionSlotsPartition(join: Plan)
    requires join.Join?
    requires join.left.OutputSet() !! join.right.OutputSet()
    ensures JoinChildConditionSlots(join, true) !! JoinChildConditionSlots(join, false)
    ensures JoinChildConditionSlots(join, true) + JoinChildConditionSlots(join, false)
            == join.ConditionSlots() * (join.left.OutputSet() + join.right.OutputSet())
  {
  }

  /** When every condition slot comes from one of the children, the two sides
      together give back all of the join's condition slots. */
  lemma JoinChildConditionSlotsCover(join: Plan)
    requires join.Join?
    requires join.left.OutputSet() !! join.right.OutputSet()
    requires join.ConditionSlots() <= join.left.OutputSet() + join.right.OutputSet()
    ensures JoinChildConditionSlots(join, true) + JoinChildConditionSlots(join, false) == join.ConditionSlots()
  {
  }

  // ---------------------------------------------------------------------------
  // newProject

  /** Splitting by `IdIn(ids)` keeps each entry with a required ExprId exactly
      as often as the list holds it, and no other entry. */
  lemma KeptCounts(out: seq<NamedExpression>, ids: set<ExprId>, yes: seq<NamedExpression>, no: seq<NamedExpression>)
    requires PartitionedBy(out, IdIn(ids), yes, no)
    ensures forall x :: multiset(yes)[x] == (if x.Id() in ids then multiset(out)[x] else 0)
  {
    forall x ensures multiset(yes)[x] == (if x.Id() in ids then multiset(out)[x] else 0) {
      PartitionedCounts(out, IdIn(ids), yes, no, x);
    }
  }

  /** Always wraps `plan` in a new projection that keeps, in output order,
      the output slots whose ExprId is required. */
  function NewProject(requiredExprIds: set<ExprId>, plan: Plan): (r: Plan)
    ensures r.Project? && r.child == plan && r != plan
    ensures AllSlots(r.projects)
    ensures IsSubsequence(r.projects, Refs(plan.Output()))
    ensures forall s :: SlotRef(s) in r.projects <==> s in plan.OutputSet() && s.exprId in requiredExprIds
    ensures forall x :: multiset(r.projects)[x] ==
                          (if x.Id() in requiredExprIds then multiset(Refs(plan.Output()))[x] else 0)
  {
    var kept := Partition(Refs(plan.Output()), IdIn(requiredExprIds));
    RequiredSlots(plan.Output(), requiredExprIds, kept.yes, kept.no);
    Project(kept.yes, plan)
  }

  /** What a split of an output list by `IdIn(ids)` keeps: slots only, and
      exactly the output slots whose ExprId is required. */
  lemma RequiredSlots(output: seq<Slot>, ids: set<ExprId>, yes: seq<NamedExpression>, no: seq<NamedExpression>)
    requires PartitionedBy(Refs(output), IdIn(ids), yes, no)
    ensures AllSlots(yes)
    ensures forall s :: SlotRef(s) in yes <==> s in output && s.exprId in ids
    ensures forall x :: multiset(yes)[x] == (if x.Id() in ids then multiset(Refs(output))[x] else 0)
  {
    var out := Refs(output);
    KeptCounts(out, ids, yes, no);
    PartitionedElements(out, IdIn(ids), yes, no);
    assert AllSlots(out);
    SlotsOnly(out, yes);
    forall s | s in output && s.exprId in ids ensures SlotRef(s) in yes {
      var i :| 0 <= i < |output| && output[i] == s;
      assert out[i] == SlotRef(s);
      PartitionedMembership(out, IdIn(ids), yes, no, SlotRef(s));
    }
    forall s | SlotRef(s) in yes ensures s in output {
      var i :| 0 <= i < |out| && out[i] == SlotRef(s);
      assert output[i] == s;
    }
  }

  /** Requiring every output ExprId keeps the whole output in order, and a
      projection is still added on top of `plan`. */
  lemma NewProjectKeepsAll(requiredExprIds: set<ExprId>, plan: Plan)
    requires forall s :: s in plan.OutputSet() ==> s.exprId in requiredExprIds
    ensures NewProject(requiredExprIds, plan) == Project(Refs(plan.Output()), plan)
  {
    var out := Refs(plan.Output());
    forall i | 0 <= i < |out| ensures IdIn(requiredExprIds)(out[i]) {
      assert out[i] == SlotRef(plan.Output()[i]);
    }
    PartitionAllKept(out, IdIn(requiredExprIds));
  }

  // ---------------------------------------------------------------------------
  // splitConjuncts

  /** `Utils.isIntersecting(getInputSlotExprIds(), ids)`. */
  function Intersecting(ids: set<ExprId>): Conjunct -> bool {
    (c: Conjunct) => c.inputIds * ids != {}
  }

  /** Splits the top join's conjuncts by whether they read a column of B; the
      B-reading ones followed by all bottom conjuncts go under `true` (the new
      top join), the others under `false` (the new bottom join). */
  method SplitConjuncts(topConjuncts: seq<Conjunct>, bottomConjuncts: seq<Conjunct>, bExprIdSet: set<ExprId>)
    returns (splitOn: Split<Conjunct>)
    ensures |bottomConjuncts| <= |splitOn.yes|
    ensures splitOn.yes[|splitOn.yes| - |bottomConjuncts|..] == bottomConjuncts
    ensures PartitionedBy(topConjuncts, Intersecting(bExprIdSet),
                          splitOn.yes[..|splitOn.yes| - |bottomConjuncts|], splitOn.no)
    ensures forall c :: c in topConjuncts && c.inputIds * bExprIdSet != {} ==> c in splitOn.yes
    ensures forall c :: c in topConjuncts && c.inputIds * bExprIdSet == {} ==> c in splitOn.no
    ensures multiset(splitOn.yes) + multiset(splitOn.no) == multiset(topConjuncts) + multiset(bottomConjuncts)
    ensures |splitOn.yes| + |splitOn.no| == |topConjuncts| + |bottomConjuncts|
  {
    var partitioned := Partition(topConjuncts, Intersecting(bExprIdSet));
    var newTopHashConjuncts := new ArrayList(partitioned.yes);
    newTopHashConjuncts.AddAll(bottomConjuncts);
    splitOn := Split(newTopHashConjuncts.items, partitioned.no);
    assert splitOn.yes[..|partitioned.yes|] == partitioned.yes;
    forall c | c in topConjuncts
      ensures c.inputIds * bExprIdSet != {} ==> c in splitOn.yes
      ensures c.inputIds * bExprIdSet == {} ==> c in splitOn.no
    {
      PartitionedMembership(topConjuncts, Intersecting(bExprIdSet), partitioned.yes, partitioned.no, c);
    }
  }

  /** Example: with A = {1}, B = {2}, C = {3}, the top conjuncts
      p1 (A, C) and p2 (B, C) and the bottom conjunct p3 (B, C) give
      `false` = [p1] and `true` = [p2, p3]. */
  method SplitConjunctsExample() {
    var p1 := Conjunct(1, {1, 3});
    var p2 := Conjunct(2, {2, 3});
    var p3 := Conjunct(3, {2, 3});
    var splitOn := SplitConjuncts([p1, p2], [p3], {2});
    assert p1.inputIds * {2} == {};
    assert p2.inputIds * {2} == {2};
    assert p2 in splitOn.yes && p1 in splitOn.no;
    var fromTop := splitOn.yes[..|splitOn.yes| - 1];
    assert splitOn.yes == fromTop + [p3];
    assert p2 in fromTop;
    assert |fromTop| + |splitOn.no| == 2;
    assert |fromTop| == 1 && |splitOn.no| == 1;
    assert fromTop[0] == p2 && splitOn.no[0] == p1;
    assert splitOn.no == [p1] && fromTop == [p2];
    assert splitOn.yes == [p2, p3];
  }

  /** A top conjunct reading only A and B is not rejected: it reads B, so it
      goes with the new top join. */
  method SplitConjunctsReadingAAndB() {
    var pAB := Conjunct(4, {1, 2});
    var top := [pAB];
    assert pAB in top;
    assert 2 in pAB.inputIds * {2};
    var withError := SplitConjuncts(top, [], {2});
    assert pAB in withError.yes;
  }
}
