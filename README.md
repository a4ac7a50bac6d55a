# Join-reorder helpers of the Nereids optimizer, in Dafny

This project models `JoinReorderUtils`, the helper set that the Doris Nereids
optimizer's join commute, associate and exchange rules call when they rebuild
a rotated join subtree. Each helper is a small, total operation on projection
lists, plan outputs and conjunct lists, all indexed by column identities
(ExprIds). The model states and proves what each helper promises: which
columns a projection keeps and in which order, when a plan is reused as is,
which columns are restored for a join condition, and where each conjunct goes
when two joins are rotated.

Layout:

- `plans.dfy` (module `Plans`): ExprIds, slots, named expressions (a bare slot
  or a computed expression with its own ExprId), conjuncts (an identity plus
  the ExprIds they read) and plan nodes (`Leaf`, `Project`, `Join`), with the
  derived output list, output set and condition slots.
- `sequences.dfy` (module `Sequences`): the stable partition behind
  `Collectors.partitioningBy` and `filter(...).collect(toList())`, its
  characterisation `PartitionedBy` (key on each side, order kept, nothing
  dropped or repeated) and the proof that this characterisation determines
  the partition.
- `lists.dfy` (module `Lists`): a list updated in place, for the
  `java.util.List` objects the helpers append to.
- `join_reorder_utils.dfy` (module `JoinReorderUtils`): the eight helpers and
  the lemmas about them.

The pure helpers (`isAllSlotProject`, `splitProject`, `projectOrSelf`,
`projectOrSelfInOrder`, `joinChildConditionSlots`, `newProject`) are functions.
`addSlotsUsedByOn` appends to its caller's list, so it is a method that
modifies an `ArrayList`. It walks the used-slot set in an unspecified order
(`:|`), and its result is specified as a relation (`Augmented`). `splitConjuncts`
is a method that partitions the top conjuncts and then appends the bottom
conjuncts to the `true` list in place before returning the split.

Points where a comment in the source and its code read differently, and
what the model does:

- The Javadoc of `projectOrSelf` (JoinReorderUtils.java:56) keeps the plan when
  the "project output equal plan output", a set equality. The code compares
  the output set's size with the list's length and checks `containsAll`. The
  two agree when the list has no repeated entry (`ProjectOrSelfIsSetEquality`).
  With a repeated column they differ (`ProjectOrSelfRepeatedColumn`); the model
  follows the code.
- `addSlotsUsedByOn` takes `usedSlots` as a `Set` and appends while iterating
  it, so the order of the appended slots is unspecified. The model lets the
  appended suffix be any ordering of the missing slots.
- A top conjunct reading only A and B is marked as an error in a comment in
  `splitConjuncts` (JoinReorderUtils.java:107). The code does not reject it:
  it reads B, so it goes to the `true` group. The model does the same
  (`SplitConjunctsReadingAAndB`).

## Model

| member | source | states |
|---|---|---|
| `JoinReorderUtils.AllSlots` | fe/fe-core/src/main/java/org/apache/doris/nereids/rules/exploration/join/JoinReorderUtils.java:40 | the list is all bare slots exactly when every entry is a `Slot`; the empty list qualifies |
| `JoinReorderUtils.IsAllSlotProject` | fe/fe-core/src/main/java/org/apache/doris/nereids/rules/exploration/join/JoinReorderUtils.java:39-41 | true iff every projection entry is a bare slot; when true, the list is exactly the references to the projection's own output (pass-through only) |
| `Sequences.Partition` | fe/fe-core/src/main/java/org/apache/doris/nereids/rules/exploration/join/JoinReorderUtils.java:49-53 | `partitioningBy`: the `true` side holds only elements with the key, the `false` side only elements without it, both keep the input order, and together they hold every input element exactly as often as the input |
| `Sequences.PartitionUnique` | fe/fe-core/src/main/java/org/apache/doris/nereids/rules/exploration/join/JoinReorderUtils.java:109-113 | any two lists that split a sequence by a key with order kept and nothing lost are exactly the partition's two lists, so the partition is fully determined by that description |
| `JoinReorderUtils.SplitProject` | fe/fe-core/src/main/java/org/apache/doris/nereids/rules/exploration/join/JoinReorderUtils.java:47-54 | for a pass-through list, the `true` list is the order-preserving sub-list whose ExprIds are in the given set, the `false` list is the rest, their lengths sum to the input length and no entry is lost or repeated |
| `JoinReorderUtils.SplitProjectMembership` | fe/fe-core/src/main/java/org/apache/doris/nereids/rules/exploration/join/JoinReorderUtils.java:50-53 | every slot of the list is in the `true` list iff its ExprId is in the set, and in the `false` list iff it is not |
| `JoinReorderUtils.ProjectOrSelf` | fe/fe-core/src/main/java/org/apache/doris/nereids/rules/exploration/join/JoinReorderUtils.java:59-65 | the result is the plan itself or a projection over exactly the given list on top of the plan; the plan is returned iff the list is empty or the output set has as many elements as the list and contains every entry |
| `JoinReorderUtils.ProjectOrSelfIsSetEquality` | fe/fe-core/src/main/java/org/apache/doris/nereids/rules/exploration/join/JoinReorderUtils.java:60-62 | for a list without repeated entries the plan is kept iff the list is empty or consists of slots whose set equals the plan's output set |
| `JoinReorderUtils.ProjectOrSelfOutputSet` | fe/fe-core/src/main/java/org/apache/doris/nereids/rules/exploration/join/JoinReorderUtils.java:56-65 | for a non-empty list without repeats, the result exposes exactly the list's columns, whether or not a projection was added |
| `JoinReorderUtils.ProjectOrSelfRepeatedColumn` | fe/fe-core/src/main/java/org/apache/doris/nereids/rules/exploration/join/JoinReorderUtils.java:61 | the list `[a, a]` passes the size-and-contains test against output `[a, b]`, so the plan is kept though the list's column set differs from the output set |
| `JoinReorderUtils.ProjectOrSelfInOrder` | fe/fe-core/src/main/java/org/apache/doris/nereids/rules/exploration/join/JoinReorderUtils.java:67-72 | the result is the plan itself or a projection over exactly the given list; the plan is returned iff the list is empty or equals the plan's output as a sequence |
| `JoinReorderUtils.ProjectOrSelfInOrderOutput` | fe/fe-core/src/main/java/org/apache/doris/nereids/rules/exploration/join/JoinReorderUtils.java:67-72 | for a non-empty list the result's output is exactly the list's columns in the list's order |
| `JoinReorderUtils.ProjectOrSelfInOrderIsStricter` | fe/fe-core/src/main/java/org/apache/doris/nereids/rules/exploration/join/JoinReorderUtils.java:59-72 | when the plan's output has no repeated column, whenever the in-order variant keeps the plan, `projectOrSelf` keeps it too |
| `JoinReorderUtils.PermutedColumnsOnlyInOrderWraps` | fe/fe-core/src/main/java/org/apache/doris/nereids/rules/exploration/join/JoinReorderUtils.java:59-72 | a reordering of the plan's own distinct columns is kept by `projectOrSelf` and always wrapped in a new projection by `projectOrSelfInOrder` |
| `JoinReorderUtils.AddSlotsUsedByOn` | fe/fe-core/src/main/java/org/apache/doris/nereids/rules/exploration/join/JoinReorderUtils.java:77-89 | an empty list is left unchanged; otherwise the old list stays a prefix and the appended entries are exactly the used slots whose ExprId the list lacked when the call began, each once, in some order |
| `JoinReorderUtils.AugmentedCoversUsedSlots` | fe/fe-core/src/main/java/org/apache/doris/nereids/rules/exploration/join/JoinReorderUtils.java:84-88 | after a call on a non-empty list, every used slot's ExprId is produced by the list and no used slot is missing any more |
| `JoinReorderUtils.AddSlotsUsedByOnIdempotent` | fe/fe-core/src/main/java/org/apache/doris/nereids/rules/exploration/join/JoinReorderUtils.java:77-89 | a second call with the same slots leaves the list unchanged |
| `JoinReorderUtils.AddSlotsUsedByOnDeterminedUpToOrder` | fe/fe-core/src/main/java/org/apache/doris/nereids/rules/exploration/join/JoinReorderUtils.java:84-88 | any two outcomes of the same call have the same length and the same entries, so only the order of the appended slots depends on the set's iteration order |
| `JoinReorderUtils.AddSlotsUsedByOnKeepsIdsUnique` | fe/fe-core/src/main/java/org/apache/doris/nereids/rules/exploration/join/JoinReorderUtils.java:81-88 | if no ExprId occurs twice in the list before the call, none occurs twice after it |
| `JoinReorderUtils.JoinChildConditionSlots` | fe/fe-core/src/main/java/org/apache/doris/nereids/rules/exploration/join/JoinReorderUtils.java:91-96 | the result is exactly the join's condition slots that are in the chosen child's output set |
| `JoinReorderUtils.JoinChildConditionSlotsPartition` | fe/fe-core/src/main/java/org/apache/doris/nereids/rules/exploration/join/JoinReorderUtils.java:91-96 | when the children's outputs are disjoint, the left and right results are disjoint and their union is the condition slots that lie in either child's output (whatever the join itself outputs, so semi and anti joins are covered) |
| `JoinReorderUtils.JoinChildConditionSlotsCover` | fe/fe-core/src/main/java/org/apache/doris/nereids/rules/exploration/join/JoinReorderUtils.java:91-96 | when, in addition, every condition slot comes from one of the children, the two sides together give back all condition slots |
| `JoinReorderUtils.NewProject` | fe/fe-core/src/main/java/org/apache/doris/nereids/rules/exploration/join/JoinReorderUtils.java:98-103 | the result is always a new projection whose child is the plan and never the plan itself; its list is an order-preserving sub-list of the plan's output holding exactly the output slots whose ExprId is required, each as many times as it occurs in the output, and nothing else |
| `JoinReorderUtils.RequiredSlots` | fe/fe-core/src/main/java/org/apache/doris/nereids/rules/exploration/join/JoinReorderUtils.java:99-101 | filtering an output list by required ExprId keeps only slots, keeps an output slot iff its ExprId is required, and keeps each such slot exactly as many times as the output holds it |
| `JoinReorderUtils.NewProjectKeepsAll` | fe/fe-core/src/main/java/org/apache/doris/nereids/rules/exploration/join/JoinReorderUtils.java:98-103 | when every output ExprId is required, the projection keeps the whole output in order and is still added |
| `JoinReorderUtils.SplitConjuncts` | fe/fe-core/src/main/java/org/apache/doris/nereids/rules/exploration/join/JoinReorderUtils.java:105-122 | the `false` group is the top conjuncts that read no ExprId of B, in order; the `true` group is the top conjuncts that read B, in order, followed by all bottom conjuncts; nothing is dropped or repeated and the lengths add up |

## Left out

- The Nereids plan and expression library is modelled abstractly. A slot is identified by its ExprId alone: nullability, qualifier and name are not modelled. A conjunct is an identity plus the ExprIds it reads. A plan child is a `Leaf` given by its output list. Join kinds and mark joins are not modelled.
- JoinReorderUtils.SplitProject: requires every entry to be a bare slot. The code casts each entry to `Slot`, which throws `ClassCastException` otherwise; that exception path is not modelled.
- JoinReorderUtils.SplitConjuncts: returns the split as a value. The code returns the map whose `true` list it has just extended. That list is created by `partitioningBy` inside the call, so no caller sees the aliasing. The model does not represent that identity.
- JoinReorderUtils.AddSlotsUsedByOn: does not fix the order in which missing slots are appended. The iteration order of the `Set` `usedSlots` is unspecified.
- The end-to-end rotation property (rotating `A ⋈ (B ⋈ C)` keeps the output columns and the truth of the whole predicate) needs the commute, associate and exchange rules and tuple semantics, which are not part of this model. Only the conjunct count behind it is proved: every conjunct is kept exactly once (`SplitConjuncts`).
