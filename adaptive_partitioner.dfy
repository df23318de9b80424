/** include/AdaptiveWidthPartitioner.h: each tick, gather all scheduled
    work, keep back what is not yet due, sort the due work by model index
    and cut it into one contiguous segment per worker. */
module AdaptivePartitioning {
  import opened Basics
  import opened WorkItems
  import opened WorkerContexts
  import opened EngineContexts
  import opened Segmentation

  class AdaptiveWidthPartitioner<Op> {
    const Context: EngineContext<Op>
    /** `Operator.Index` of the model's operation type. */
    const IndexOf: Op -> nat
    /** The backlog of work not yet handed out (`totalSourceWork_`). */
    var TotalSourceWork: seq<WorkItem<Op>>

    constructor (context: EngineContext<Op>, indexOf: Op -> nat)
      ensures Context == context && IndexOf == indexOf && TotalSourceWork == []
    {
      Context := context;
      IndexOf := indexOf;
      TotalSourceWork := [];
    }

    /** All work scheduled and not yet handed out: the backlog, then every
        worker's pending list in worker order, then the external source's. */
    ghost function Backlog(): seq<WorkItem<Op>>
      reads this`TotalSourceWork, Context`Workers, Context.Workers, Context.ExternalWorkSource
    {
      TotalSourceWork + Flatten(PendingLists(Context.Workers)) + Context.ExternalWorkSource.WorkForNextThread
    }

    /** Partition: gather, split off the due work, count it, advance the
        tick counter and hand the due work out. `due` is the due work in
        the sorted order the workers receive it. */
    method Partition(workCutoffTick: Word) returns (totalWork: nat, ghost due: seq<WorkItem<Op>>)
      requires Context.Valid() && Wrap(Context.WorkerCount) != 0
      modifies this`TotalSourceWork, Context`TotalWork, Context`Iterations, Context.Workers, Context.ExternalWorkSource
      ensures DueAndKept(old(Backlog()), due, TotalSourceWork, workCutoffTick)
      ensures totalWork == |due|
      ensures SortedBy(due, IndexOf)
      ensures WorkLists(Context.Workers) == Segments(due, IndexOf, SegmentSize(totalWork, Wrap(Context.WorkerCount)), |Context.Workers|, 0)
      ensures Context.TotalWork == old(Context.TotalWork) + totalWork
      ensures Context.Iterations == Increment(old(Context.Iterations))
      ensures PendingLists(Context.Workers) == EmptyLists(|Context.Workers|)
      ensures SettingsList(Context.Workers) == old(SettingsList(Context.Workers))
      ensures Context.ExternalWorkSource.WorkForNextThread == [] && Context.ExternalWorkSource.OnlyPendingChanged()
    {
      ghost var workers := Context.Workers;
      ghost var backlog := Backlog();
      var workForTimeSlice := TakeDueWork(workCutoffTick);
      ghost var kept := TotalSourceWork;
      var sorted;
      totalWork, sorted := CountAndHandOut(workForTimeSlice);
      due := sorted;
      DueAndKeptPermuted(backlog, workForTimeSlice, due, kept, workCutoffTick);
    }

    /** The second half of Partition: count the due work, advance the tick
        counter and hand the due work out. */
    method CountAndHandOut(workForTimeSlice: seq<WorkItem<Op>>) returns (totalWork: nat, sorted: seq<WorkItem<Op>>)
      requires Context.Valid() && Wrap(Context.WorkerCount) != 0
      modifies Context`TotalWork, Context`Iterations, Context.Workers
      ensures totalWork == |workForTimeSlice| == |sorted|
      ensures SortedBy(sorted, IndexOf) && multiset(sorted) == multiset(workForTimeSlice)
      ensures Context.Workers == old(Context.Workers)
      ensures WorkLists(Context.Workers) == Segments(sorted, IndexOf, SegmentSize(totalWork, Wrap(Context.WorkerCount)), |Context.Workers|, 0)
      ensures Context.TotalWork == old(Context.TotalWork) + totalWork
      ensures Context.Iterations == Increment(old(Context.Iterations))
      ensures PendingLists(Context.Workers) == old(PendingLists(Context.Workers))
      ensures SettingsList(Context.Workers) == old(SettingsList(Context.Workers))
      ensures unchanged(Context.ExternalWorkSource)
    {
      ghost var workers := Context.Workers;
      totalWork := |workForTimeSlice|;
      Context.TotalWork := Context.TotalWork + totalWork;
      Context.Iterations := Increment(Context.Iterations);

      label HandingOut:
      sorted := CaptureWorkForEachThread(workForTimeSlice);
      WorkHandedOut@HandingOut(workers);
      assert |sorted| == |multiset(sorted)| == |multiset(workForTimeSlice)| == totalWork;
    }

    /** The first half of Partition: gather all scheduled work into the
        backlog, move the due work to its front and take it out. */
    method TakeDueWork(workCutoffTick: Word) returns (workForTimeSlice: seq<WorkItem<Op>>)
      requires Context.Valid()
      modifies this`TotalSourceWork, Context.Workers, Context.ExternalWorkSource
      ensures DueAndKept(old(Backlog()), workForTimeSlice, TotalSourceWork, workCutoffTick)
      ensures PendingLists(Context.Workers) == EmptyLists(|Context.Workers|)
      ensures WorkLists(Context.Workers) == old(WorkLists(Context.Workers))
      ensures SettingsList(Context.Workers) == old(SettingsList(Context.Workers))
      ensures Context.ExternalWorkSource.WorkForNextThread == [] && Context.ExternalWorkSource.OnlyPendingChanged()
      ensures unchanged(Context)
    {
      ghost var workers := Context.Workers;
      ghost var backlog := Backlog();
      label Gathering:
      AccumulateWorkFromAllWorkers();
      PendingDrained@Gathering(workers);
      assert TotalSourceWork == backlog;

      label Drained:
      var cutoffPoint := FindCutoffPoint(workCutoffTick);
      ghost var split := TotalSourceWork;
      SplitIsDueAndKept(backlog, split, cutoffPoint, workCutoffTick);
      workForTimeSlice := TotalSourceWork[..cutoffPoint];
      TotalSourceWork := TotalSourceWork[cutoffPoint..];
      WorkersUntouched@Drained(workers);
    }

    /** AccumulateWorkFromAllWorkers: append every worker's pending list, in
        worker order, and then the external source's, to the backlog, and
        empty all of those pending lists. */
    method AccumulateWorkFromAllWorkers()
      requires Context.Valid()
      modifies this`TotalSourceWork, Context.Workers, Context.ExternalWorkSource
      ensures TotalSourceWork == old(TotalSourceWork) + Flatten(old(PendingLists(Context.Workers))) + old(Context.ExternalWorkSource.WorkForNextThread)
      ensures forall i :: 0 <= i < |Context.Workers| ==>
        Context.Workers[i].WorkForNextThread == [] && Context.Workers[i].OnlyPendingChanged()
      ensures Context.ExternalWorkSource.WorkForNextThread == [] && Context.ExternalWorkSource.OnlyPendingChanged()
      ensures unchanged(Context)
    {
      var gathered := DrainPending(Context.Workers);
      TotalSourceWork := TotalSourceWork + gathered + Context.ExternalWorkSource.WorkForNextThread;
      Context.ExternalWorkSource.WorkForNextThread := [];
    }

    /** FindCutoffPoint: `std::partition` of the backlog by
        `Tick < workCutoffTick`, returning the position of the first item
        that is not due. */
    method FindCutoffPoint(workCutoffTick: Word) returns (cutoffPoint: nat)
      modifies this`TotalSourceWork
      ensures SplitAtCutoff(old(TotalSourceWork), TotalSourceWork, cutoffPoint, workCutoffTick)
    {
      var work := TotalSourceWork;
      var lo, hi := 0, |work|;
      while lo < hi
        invariant 0 <= lo <= hi <= |work|
        invariant multiset(work) == multiset(old(TotalSourceWork))
        invariant forall i :: 0 <= i < lo ==> work[i].Tick < workCutoffTick
        invariant forall i :: hi <= i < |work| ==> work[i].Tick >= workCutoffTick
      {
        if work[lo].Tick < workCutoffTick {
          lo := lo + 1;
        } else {
          hi := hi - 1;
          work := Swap(work, lo, hi);
        }
      }
      TotalSourceWork := work;
      cutoffPoint := lo;
    }

    /** CaptureWorkForEachThread: sort the due work by index (the caller's
        list is sorted in place, so the sorted list is returned) and give
        worker `i` the `i`-th segment as its new `WorkForThread`. */
    method CaptureWorkForEachThread(workForTimeSlice: seq<WorkItem<Op>>) returns (sorted: seq<WorkItem<Op>>)
      requires Context.Valid() && Wrap(Context.WorkerCount) != 0
      modifies Context.Workers
      ensures SortedBy(sorted, IndexOf) && multiset(sorted) == multiset(workForTimeSlice)
      ensures WorkLists(Context.Workers) == Segments(sorted, IndexOf, SegmentSize(|sorted|, Wrap(Context.WorkerCount)), |Context.Workers|, 0)
      ensures forall i :: 0 <= i < |Context.Workers| ==> Context.Workers[i].OnlyWorkForThreadChanged()
      ensures unchanged(Context)
    {
      sorted := SortByIndex(workForTimeSlice, IndexOf);
      assert |sorted| == |multiset(sorted)| == |workForTimeSlice|;
      var segmentSize := |sorted| / Wrap(Context.WorkerCount);
      if segmentSize < 1 {
        segmentSize := 1;
      }
      assert segmentSize == SegmentSize(|sorted|, Wrap(Context.WorkerCount));
      HandOutSegments(sorted, segmentSize);
    }

    /** The worker loop of CaptureWorkForEachThread: worker `i` receives the
        `i`-th segment of `sorted`, found by FindSegmentEnd. */
    method HandOutSegments(sorted: seq<WorkItem<Op>>, segmentSize: nat)
      requires Context.Valid() && segmentSize >= 1
      modifies Context.Workers
      ensures WorkLists(Context.Workers) == Segments(sorted, IndexOf, segmentSize, |Context.Workers|, 0)
      ensures forall i :: 0 <= i < |Context.Workers| ==> Context.Workers[i].OnlyWorkForThreadChanged()
      ensures unchanged(Context)
    {
      var workers: seq<WorkerContext<Op>> := Context.Workers;
      ghost var whole := Segments(sorted, IndexOf, segmentSize, |workers|, 0);
      ghost var bounds := Boundaries(sorted, IndexOf, segmentSize, |workers|, 0);
      SegmentsByBoundaries(sorted, IndexOf, segmentSize, |workers|, 0);
      var segmentBegin := 0;
      var workerIndex := 0;
      while workerIndex < |workers|
        invariant 0 <= workerIndex <= |workers| && segmentBegin == bounds[workerIndex]
        invariant forall j :: 0 <= j < workerIndex ==> workers[j].WorkForThread == whole[j]
        invariant forall j :: 0 <= j < |workers| ==> workers[j].OnlyWorkForThreadChanged()
      {
        var segmentEnd := FindSegmentEnd(sorted, segmentSize, segmentBegin, workerIndex);
        assert segmentEnd == bounds[workerIndex + 1];
        workers[workerIndex].CaptureWorkForThread(sorted[segmentBegin..segmentEnd]);
        segmentBegin := segmentEnd;
        workerIndex := workerIndex + 1;
      }
      assert Context.Workers == workers;
      WorkListsAre(workers, whole);
    }

    /** FindSegmentEnd: where the segment of worker `workerIndex` that
        starts at `segmentBegin` ends. */
    method FindSegmentEnd(workForTimeSlice: seq<WorkItem<Op>>, segmentSize: nat, segmentBegin: nat, workerIndex: int) returns (segmentEnd: nat)
      requires segmentSize >= 1 && segmentBegin <= |workForTimeSlice|
      ensures segmentEnd == SegmentEnd(workForTimeSlice, IndexOf, segmentSize, segmentBegin, !(workerIndex < |Context.Workers| - 1))
    {
      segmentEnd := if |workForTimeSlice| - segmentBegin <= segmentSize then |workForTimeSlice| else segmentBegin + segmentSize;
      if segmentEnd != |workForTimeSlice| && workerIndex < |Context.Workers| - 1 {
        var previousIndex := IndexOf(workForTimeSlice[segmentEnd - 1].Operator);
        while segmentEnd != |workForTimeSlice| && IndexOf(workForTimeSlice[segmentEnd].Operator) == previousIndex
          invariant segmentBegin + segmentSize <= segmentEnd <= |workForTimeSlice|
          invariant RunEnd(workForTimeSlice, IndexOf, segmentEnd, previousIndex)
            == RunEnd(workForTimeSlice, IndexOf, segmentBegin + segmentSize, previousIndex)
          decreases |workForTimeSlice| - segmentEnd
        {
          segmentEnd := segmentEnd + 1;
        }
      } else {
        segmentEnd := |workForTimeSlice|;
      }
    }
  }

  /** The loop of AccumulateWorkFromAllWorkers: take every worker's
      pending list, in worker order, leaving it empty. */
  method DrainPending<Op>(workers: seq<WorkerContext<Op>>) returns (gathered: seq<WorkItem<Op>>)
    requires forall i, j :: 0 <= i < j < |workers| ==> workers[i] != workers[j]
    modifies workers
    ensures gathered == Flatten(old(PendingLists(workers)))
    ensures forall i :: 0 <= i < |workers| ==> workers[i].WorkForNextThread == [] && workers[i].OnlyPendingChanged()
  {
    ghost var pending := PendingLists(workers);
    ghost var parts := FlattenPrefixes(pending);
    gathered := [];
    var i := 0;
    while i < |workers|
      invariant 0 <= i <= |workers|
      invariant gathered == parts[i]
      invariant forall j :: 0 <= j < i ==> workers[j].WorkForNextThread == []
      invariant forall j :: i <= j < |workers| ==> workers[j].WorkForNextThread == pending[j]
      invariant forall j :: 0 <= j < |workers| ==> workers[j].OnlyPendingChanged()
    {
      gathered := gathered + workers[i].WorkForNextThread;
      workers[i].WorkForNextThread := [];
      i := i + 1;
    }
  }

  /** The exchange of two positions. */
  function Swap<T>(s: seq<T>, i: nat, j: nat): (r: seq<T>)
    requires i < |s| && j < |s|
    ensures |r| == |s| && r[i] == s[j] && r[j] == s[i]
    ensures forall k :: 0 <= k < |s| && k != i && k != j ==> r[k] == s[k]
    ensures multiset(r) == multiset(s)
  {
    s[i := s[j]][j := s[i]]
  }
}
