/** Per-worker state (include/WorkerContext.h), the operations of
    include/WorkerContextOp.h and the enqueueing functor of
    include/ProcessCallback.h. */
module WorkerContexts {
  import opened Basics
  import opened WorkItems

  /** Which of the two future buffers the worker is currently writing. */
  datatype BufferSelector = Buffer1Current | Buffer2Current

  /** The selector flip done once per tick for every context. */
  function Flip(b: BufferSelector): (r: BufferSelector)
    ensures r != b
  {
    if b == Buffer1Current then Buffer2Current else Buffer1Current
  }

  /** Flipping twice restores the selector. */
  lemma FlipTwiceRestores(b: BufferSelector)
    ensures Flip(Flip(b)) == b
  {
  }

  /** `PushIfInRange`'s test: `!(index < begin) && index < end`. */
  predicate InRange(index: nat, rangeBegin: nat, rangeEnd: nat)
  {
    !(index < rangeBegin) && index < rangeEnd
  }

  /** An empty or inverted range accepts no index. */
  lemma EmptyRangeAcceptsNothing(index: nat, rangeBegin: nat, rangeEnd: nat)
    requires rangeBegin >= rangeEnd
    ensures !InRange(index, rangeBegin, rangeEnd)
  {
  }

  /** The tick given to work enqueued with `tickDelay` while the engine's
      tick counter reads `iterations`: `Iterations + tickDelay`, computed in
      `unsigned long long`, so a negative delay wraps. */
  function ScheduledTick(iterations: Word, tickDelay: int): (t: Word)
    ensures tickDelay == 0 ==> t == iterations
    ensures 0 <= iterations + tickDelay < WordModulus ==> t == iterations + tickDelay
    ensures (t - iterations - tickDelay) % WordModulus == 0
  {
    Wrap(iterations + tickDelay)
  }

  /** Everything about a worker but its two work lists: who it is, the
      model range it owns and the buffer it writes. */
  datatype WorkerSettings = WorkerSettings(WorkerId: int, RangeBegin: Word, RangeEnd: Word, CurrentBuffer: BufferSelector)

  class WorkerContext<Op> {
    var WorkerId: int
    var RangeBegin: Word
    var RangeEnd: Word
    /** The work handed to this worker for the tick about to run. */
    var WorkForThread: seq<WorkItem<Op>>
    /** The work this worker scheduled for later ticks. */
    var WorkForNextThread: seq<WorkItem<Op>>
    var CurrentBuffer: BufferSelector

    constructor (workerId: int, rangeBegin: Word, rangeEnd: Word)
      ensures WorkerId == workerId && RangeBegin == rangeBegin && RangeEnd == rangeEnd
      ensures WorkForThread == [] && WorkForNextThread == []
      ensures CurrentBuffer == Buffer1Current
    {
      WorkerId := workerId;
      RangeBegin := rangeBegin;
      RangeEnd := rangeEnd;
      WorkForThread := [];
      WorkForNextThread := [];
      CurrentBuffer := Buffer1Current;
    }

    function Settings(): WorkerSettings
      reads this`WorkerId, this`RangeBegin, this`RangeEnd, this`CurrentBuffer
    {
      WorkerSettings(WorkerId, RangeBegin, RangeEnd, CurrentBuffer)
    }

    /** Every field but the pending list is as it was. */
    twostate predicate OnlyPendingChanged()
      reads this
    {
      WorkerId == old(WorkerId) && RangeBegin == old(RangeBegin) && RangeEnd == old(RangeEnd) &&
      WorkForThread == old(WorkForThread) && CurrentBuffer == old(CurrentBuffer)
    }

    /** Every field but the current-tick list is as it was. */
    twostate predicate OnlyWorkForThreadChanged()
      reads this
    {
      WorkerId == old(WorkerId) && RangeBegin == old(RangeBegin) && RangeEnd == old(RangeEnd) &&
      WorkForNextThread == old(WorkForNextThread) && CurrentBuffer == old(CurrentBuffer)
    }

    /** Every field but the two work lists is as it was. */
    twostate predicate OnlyListsChanged()
      reads this
    {
      WorkerId == old(WorkerId) && RangeBegin == old(RangeBegin) && RangeEnd == old(RangeEnd) &&
      CurrentBuffer == old(CurrentBuffer)
    }

    /** WorkerContextOp::CaptureWorkForThread: the segment replaces the
        previous contents. */
    method CaptureWorkForThread(segment: seq<WorkItem<Op>>)
      modifies this`WorkForThread
      ensures WorkForThread == segment
    {
      WorkForThread := [];
      WorkForThread := WorkForThread + segment;
    }

    /** WorkerContextOp::PushIfInRange: append the item when its index lies
        in this worker's half-open range, and report whether it did. */
    method PushIfInRange(work: WorkItem<Op>, indexOf: Op -> nat) returns (pushed: bool)
      modifies this`WorkForThread
      ensures pushed <==> RangeBegin <= indexOf(work.Operator) < RangeEnd
      ensures WorkForThread == if pushed then old(WorkForThread) + [work] else old(WorkForThread)
    {
      var inRange := InRange(indexOf(work.Operator), RangeBegin, RangeEnd);
      if !inRange {
        return false;
      }
      WorkForThread := WorkForThread + [work];
      return true;
    }
  }

  /** One call of a ProcessCallback made by a model's Process: the work and
      the tick delay it was given (0 when the call leaves it out). A model
      operation's calls are listed in the order it makes them; `Call` below
      states what each one enqueues. */
  datatype Emission<Op> = Emission(Work: Op, TickDelay: int)

  /** ProcessCallback: bound to one context, it enqueues new work on that
      context's pending list. The engine's tick counter, which the context
      holds by reference, is passed in as `iterations`. */
  class ProcessCallback<Op> {
    const Context: WorkerContext<Op>

    constructor (context: WorkerContext<Op>)
      ensures Context == context
    {
      Context := context;
    }

    /** `operator()(work, tickDelay = 0)`. */
    method Call(work: Op, iterations: Word, tickDelay: int := 0)
      modifies Context`WorkForNextThread
      ensures Context.WorkForNextThread == old(Context.WorkForNextThread) + [WorkItem(ScheduledTick(iterations, tickDelay), work)]
    {
      Context.WorkForNextThread := Context.WorkForNextThread + [WorkItem(Wrap(iterations + tickDelay), work)];
    }
  }
}
