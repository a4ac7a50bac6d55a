/** The slice of the Nereids plan and expression library that the join-reorder
    helpers read: ExprIds, slots, named expressions, conjuncts and plan nodes,
    with the derived output list, output set and condition slots. */
module Plans {

  /** A column identity, minted once per output column. */
  type ExprId = nat

  /** A reference to a column; a slot is identified by its ExprId. */
  datatype Slot = Slot(exprId: ExprId)

  /** One entry of a projection list: a bare slot passed through, or a
      computed expression carrying its own ExprId. The helpers only ever ask
      an entry for its ExprId and whether it is a slot, so what a computed
      expression reads is not represented. */
  datatype NamedExpression =
    | SlotRef(slot: Slot)
    | Alias(id: ExprId)
  {
    /** `getExprId()`: the identity of the column this entry produces. */
    function Id(): ExprId {
      match this
      case SlotRef(s) => s.exprId
      case Alias(id) => id
    }

    /** `toSlot()`: the output column this entry produces. */
    function ToSlot(): Slot {
      Slot(Id())
    }
  }

  /** A conjunct of a join condition: an identity and the ExprIds of the
      slots it reads (`getInputSlotExprIds()`). */
  datatype Conjunct = Conjunct(tag: nat, inputIds: set<ExprId>)

  /** Plan nodes. `Leaf` stands for any child whose output is given by its
      schema (a group plan, a scan). */
  datatype Plan =
    | Leaf(schema: seq<Slot>)
    | Project(projects: seq<NamedExpression>, child: Plan)
    | Join(left: Plan, right: Plan, hashConjuncts: seq<Conjunct>, otherConjuncts: seq<Conjunct>)
  {
    /** `getOutput()`: the ordered output columns. */
    function Output(): seq<Slot> {
      match this
      case Leaf(schema) => schema
      case Project(projects, _) => ProjectOutput(projects)
      case Join(left, right, _, _) => left.Output() + right.Output()
    }

    /** `getOutputSet()`. */
    function OutputSet(): set<Slot> {
      set s | s in Output()
    }

    /** `getConditionSlot()`: every slot read by a hash or other conjunct. */
    function ConditionSlots(): set<Slot>
      requires Join?
    {
      set c, id | c in hashConjuncts + otherConjuncts && id in c.inputIds :: Slot(id)
    }
  }

  /** The output of a projection list, in order. */
  function ProjectOutput(projects: seq<NamedExpression>): seq<Slot> {
    seq(|projects|, i requires 0 <= i < |projects| => projects[i].ToSlot())
  }

  /** The set of columns a projection list produces. */
  function SlotSet(projects: seq<NamedExpression>): set<Slot> {
    set s | s in ProjectOutput(projects)
  }

  /** Slots used as a projection list (`List<Slot>` seen as `List<NamedExpression>`). */
  function Refs(slots: seq<Slot>): seq<NamedExpression> {
    seq(|slots|, i requires 0 <= i < |slots| => SlotRef(slots[i]))
  }

  /** The ExprIds a projection list produces. */
  function ExprIds(projects: seq<NamedExpression>): set<ExprId> {
    set e | e in projects :: e.Id()
  }
}
