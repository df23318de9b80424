/** The unit of scheduled work (include/WorkItem.h). */
module WorkItems {
  import opened Basics

  /** A tick at which the work becomes due, and the model-defined operation.
      Nothing else is carried. */
  datatype WorkItem<Op> = WorkItem(Tick: Word, Operator: Op)

  /** `operator<` of WorkItem: items are ordered by their tick alone. */
  predicate Less<Op>(a: WorkItem<Op>, b: WorkItem<Op>)
  {
    a.Tick < b.Tick
  }

  /** The tick-only ordering is a strict order and ignores the operator. */
  lemma LessIsStrictOrder<Op>(a: WorkItem<Op>, b: WorkItem<Op>, c: WorkItem<Op>)
    ensures !Less(a, a)
    ensures Less(a, b) && Less(b, c) ==> Less(a, c)
    ensures Less(a, b) <==> a.Tick < b.Tick
    ensures a.Tick == b.Tick ==> !Less(a, b) && !Less(b, a)
  {
  }
}
