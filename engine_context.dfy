/** The engine's shared state (include/ModelEngineContext.h) and the
    worker layout computed by `CreateWorkers`
    (include/ModelEngineContextOp.h). */
module EngineContexts {
  import opened Basics
  import opened WorkItems
  import opened WorkerContexts

  /** First index of worker `id`'s fixed range: worker 1 starts at 0 and
      each later worker where the previous one ends (CreateWorkers'
      running `segmentStart`). */
  function RangeBeginOf(id: nat, workerCount: nat, modelSize: nat): nat
    requires 1 <= id <= workerCount
    decreases id, 0
  {
    if id == 1 then 0 else RangeEndOf(id - 1, workerCount, modelSize)
  }

  /** One past the last index of worker `id`'s range: `modelSize /
      workerCount` indices after its start, except that the last worker's
      range runs to the end of the model. */
  function RangeEndOf(id: nat, workerCount: nat, modelSize: nat): nat
    requires 1 <= id <= workerCount
    decreases id, 1
  {
    if id == workerCount then modelSize else RangeBeginOf(id, workerCount, modelSize) + modelSize / workerCount
  }

  lemma MulMonotone(a: nat, b: nat, c: nat)
    requires a <= b
    ensures a * c <= b * c
  {
  }

  /** The running start of worker `id` is `(id - 1)` whole segments. */
  lemma {:induction false} RangeBeginClosedForm(id: nat, workerCount: nat, modelSize: nat)
    requires 1 <= id <= workerCount
    ensures RangeBeginOf(id, workerCount, modelSize) == (id - 1) * (modelSize / workerCount)
    decreases id
  {
    if id > 1 {
      RangeBeginClosedForm(id - 1, workerCount, modelSize);
      var seg := modelSize / workerCount;
      assert (id - 2) * seg + seg == (id - 1) * seg;
    }
  }

  /** A worker other than the last ends `id` whole segments in. */
  lemma RangeEndClosedForm(id: nat, workerCount: nat, modelSize: nat)
    requires 1 <= id < workerCount
    ensures RangeEndOf(id, workerCount, modelSize) == id * (modelSize / workerCount)
  {
    RangeBeginClosedForm(id, workerCount, modelSize);
    var seg := modelSize / workerCount;
    assert (id - 1) * seg + seg == id * seg;
  }

  /** The ranges are well formed, lie inside the model, follow one another
      without gap (worker 1 starts at 0, each next worker starts where the
      previous one ends) and therefore never overlap. */
  lemma RangesTile(workerCount: nat, modelSize: nat)
    requires workerCount >= 1
    ensures RangeBeginOf(1, workerCount, modelSize) == 0
    ensures RangeEndOf(workerCount, workerCount, modelSize) == modelSize
    ensures forall id :: 1 <= id <= workerCount ==>
      RangeBeginOf(id, workerCount, modelSize) <= RangeEndOf(id, workerCount, modelSize) <= modelSize
    ensures forall id :: 1 <= id < workerCount ==>
      RangeEndOf(id, workerCount, modelSize) == RangeBeginOf(id + 1, workerCount, modelSize)
    ensures forall i, j :: 1 <= i < j <= workerCount ==>
      RangeEndOf(i, workerCount, modelSize) <= RangeBeginOf(j, workerCount, modelSize)
  {
    var seg := modelSize / workerCount;
    assert seg * workerCount <= modelSize;
    forall id | 1 <= id <= workerCount
      ensures RangeBeginOf(id, workerCount, modelSize) <= RangeEndOf(id, workerCount, modelSize) <= modelSize
    {
      RangeBeginClosedForm(id, workerCount, modelSize);
      MulMonotone(id, workerCount, seg);
      assert (id - 1) * seg + seg == id * seg;
      assert seg * workerCount == workerCount * seg;
    }
    forall i, j | 1 <= i < j <= workerCount
      ensures RangeEndOf(i, workerCount, modelSize) <= RangeBeginOf(j, workerCount, modelSize)
    {
      RangeBeginClosedForm(i, workerCount, modelSize);
      RangeBeginClosedForm(j, workerCount, modelSize);
      MulMonotone(i, j - 1, seg);
      assert (i - 1) * seg + seg == i * seg;
    }
  }

  /** Every model index below `modelSize` lies in the range of some
      worker. */
  lemma EveryIndexHasAnOwner(workerCount: nat, modelSize: nat, index: nat)
    requires workerCount >= 1 && index < modelSize
    ensures exists id :: (1 <= id <= workerCount
      && InRange(index, RangeBeginOf(id, workerCount, modelSize), RangeEndOf(id, workerCount, modelSize)))
  {
    var id := OwnerOf(workerCount, modelSize, index);
  }

  /** The owner of an index: the worker of its whole segment, or the last
      worker past the whole segments. */
  lemma OwnerOf(workerCount: nat, modelSize: nat, index: nat) returns (id: nat)
    requires workerCount >= 1 && index < modelSize
    ensures 1 <= id <= workerCount
    ensures InRange(index, RangeBeginOf(id, workerCount, modelSize), RangeEndOf(id, workerCount, modelSize))
  {
    var seg := modelSize / workerCount;
    if seg == 0 || index / seg + 1 >= workerCount {
      TailOwnedByLast(workerCount, modelSize, index);
      id := workerCount;
    } else {
      SegmentOwnedByWorker(workerCount, modelSize, index);
      id := index / seg + 1;
    }
  }

  lemma TailOwnedByLast(workerCount: nat, modelSize: nat, index: nat)
    requires workerCount >= 1 && index < modelSize
    requires modelSize / workerCount == 0 || index / (modelSize / workerCount) + 1 >= workerCount
    ensures InRange(index, RangeBeginOf(workerCount, workerCount, modelSize), RangeEndOf(workerCount, workerCount, modelSize))
  {
    var seg := modelSize / workerCount;
    if seg > 0 {
      QuotientBounds(index, seg);
      MulMonotone(workerCount - 1, index / seg, seg);
    }
    LastWorkerOwns(workerCount, modelSize, index);
  }

  lemma SegmentOwnedByWorker(workerCount: nat, modelSize: nat, index: nat)
    requires workerCount >= 1 && modelSize / workerCount > 0 && index / (modelSize / workerCount) + 1 < workerCount
    ensures var id := index / (modelSize / workerCount) + 1;
      InRange(index, RangeBeginOf(id, workerCount, modelSize), RangeEndOf(id, workerCount, modelSize))
  {
    var seg := modelSize / workerCount;
    QuotientBounds(index, seg);
    EarlierWorkerOwns(workerCount, modelSize, index, index / seg + 1);
  }

  lemma QuotientBounds(index: nat, seg: nat)
    requires seg > 0
    ensures (index / seg) * seg <= index < (index / seg + 1) * seg
  {
  }

  /** The last worker owns every index from its start on. */
  lemma LastWorkerOwns(workerCount: nat, modelSize: nat, index: nat)
    requires workerCount >= 1 && (workerCount - 1) * (modelSize / workerCount) <= index < modelSize
    ensures InRange(index, RangeBeginOf(workerCount, workerCount, modelSize), RangeEndOf(workerCount, workerCount, modelSize))
  {
    RangeBeginClosedForm(workerCount, workerCount, modelSize);
  }

  /** A worker before the last owns the indices of its whole segment. */
  lemma EarlierWorkerOwns(workerCount: nat, modelSize: nat, index: nat, id: nat)
    requires 1 <= id < workerCount
    requires (id - 1) * (modelSize / workerCount) <= index < id * (modelSize / workerCount)
    ensures InRange(index, RangeBeginOf(id, workerCount, modelSize), RangeEndOf(id, workerCount, modelSize))
  {
    RangeBeginClosedForm(id, workerCount, modelSize);
    RangeEndClosedForm(id, workerCount, modelSize);
  }

  /** No model index lies in the ranges of two different workers. */
  lemma NoIndexHasTwoOwners(workerCount: nat, modelSize: nat, index: nat, i: nat, j: nat)
    requires 1 <= i <= workerCount && 1 <= j <= workerCount
    requires InRange(index, RangeBeginOf(i, workerCount, modelSize), RangeEndOf(i, workerCount, modelSize))
    requires InRange(index, RangeBeginOf(j, workerCount, modelSize), RangeEndOf(j, workerCount, modelSize))
    ensures i == j
  {
    RangesTile(workerCount, modelSize);
  }

  /** Shared engine state. The workers' own threads, the logger, the
      configuration and the synchronisation primitives are not modelled;
      each worker is represented by its context. */
  class EngineContext<Op> {
    var Quit: bool
    var Workers: seq<WorkerContext<Op>>
    const ExternalWorkSource: WorkerContext<Op>
    var WorkerCount: int
    /** Microseconds per tick. */
    var EnginePeriod: int
    var EngineInitialized: bool
    /** Accumulated partition time, in microseconds. */
    var PartitionTime: nat
    var Iterations: Word
    var TotalWork: int

    /** `modelTicks` is the configured `Model.ModelTicks` when it is an
        integer; the period defaults to 1000 microseconds otherwise. */
    constructor (modelTicks: Option<int>)
      ensures !Quit && Workers == [] && WorkerCount == 0
      ensures EnginePeriod == (if modelTicks.Some? then modelTicks.value else 1000)
      ensures !EngineInitialized && PartitionTime == 0 && Iterations == 0 && TotalWork == 0
      ensures fresh(ExternalWorkSource)
      ensures ExternalWorkSource.WorkerId == 0 && ExternalWorkSource.RangeBegin == 0 && ExternalWorkSource.RangeEnd == 0
      ensures ExternalWorkSource.WorkForThread == [] && ExternalWorkSource.WorkForNextThread == []
      ensures ExternalWorkSource.CurrentBuffer == Buffer1Current
      ensures Valid()
    {
      Quit := false;
      Workers := [];
      ExternalWorkSource := new WorkerContext(0, 0, 0);
      WorkerCount := 0;
      EnginePeriod := if modelTicks.Some? then modelTicks.value else 1000;
      EngineInitialized := false;
      PartitionTime := 0;
      Iterations := 0;
      TotalWork := 0;
    }

    /** The workers are distinct objects and the external source is none of
        them, so updating one context never changes another. */
    predicate Valid()
      reads this`Workers
    {
      && ExternalWorkSource !in Workers
      && forall i, j :: 0 <= i < j < |Workers| ==> Workers[i] != Workers[j]
    }

    /** ModelEngineContextOp::CreateWorkers: append `WorkerCount` workers
        with ids 1..WorkerCount and the fixed ranges of `RangeBeginOf` /
        `RangeEndOf`, then give the external work source id
        `WorkerCount + 1` and the whole model as its range. A negative
        count (an unknown hardware concurrency leaves -1) makes one worker,
        with that count as its id, over the whole model. */
    method CreateWorkers(modelSize: Word)
      requires WorkerCount != 0 && IsInt(WorkerCount)
      requires Valid()
      modifies this`Workers, ExternalWorkSource`WorkerId, ExternalWorkSource`RangeBegin, ExternalWorkSource`RangeEnd
      ensures Valid()
      ensures |Workers| == |old(Workers)| + WorkersMade(WorkerCount)
      ensures Workers[..|old(Workers)|] == old(Workers)
      ensures forall k :: |old(Workers)| <= k < |Workers| ==> fresh(Workers[k])
      ensures WorkerCount >= 1 ==> forall k :: |old(Workers)| <= k < |Workers| ==>
        NewWorker(Workers[k], k - |old(Workers)| + 1, WorkerCount, modelSize)
      ensures WorkerCount < 0 ==> SoleWorker(Workers[|old(Workers)|], WorkerCount, modelSize)
      ensures ExternalWorkSource.WorkerId == WorkerCount + 1
      ensures ExternalWorkSource.RangeBegin == 0 && ExternalWorkSource.RangeEnd == modelSize
    {
      var created := MakeWorkers(WorkerCount, modelSize);
      Workers := Workers + created;
      ExternalWorkSource.WorkerId := WorkerCount + 1;
      ExternalWorkSource.RangeBegin := 0;
      ExternalWorkSource.RangeEnd := modelSize;
    }
  }

  /** How many workers CreateWorkers makes: `workerCount` of them, or only
      the last one when the count is negative and the loop does not run. */
  function WorkersMade(workerCount: int): (n: nat)
    ensures n >= 1
    ensures workerCount >= 1 ==> n == workerCount
    ensures workerCount < 1 ==> n == 1
  {
    if workerCount >= 1 then workerCount else 1
  }

  /** The loop of CreateWorkers: workers 1..workerCount - 1 get
      `modelSize / workerCount` indices each, in order, and the last one
      the rest of the model. The division is done in `unsigned long`; with
      a negative count the loop does not run and the last worker, whose id
      is the count, starts at 0. */
  method MakeWorkers<Op>(workerCount: int, modelSize: Word) returns (ws: seq<WorkerContext<Op>>)
    requires workerCount != 0 && IsInt(workerCount)
    ensures |ws| == WorkersMade(workerCount)
    ensures forall k :: 0 <= k < |ws| ==> fresh(ws[k])
    ensures workerCount >= 1 ==> forall k :: 0 <= k < |ws| ==> NewWorker(ws[k], k + 1, workerCount, modelSize)
    ensures workerCount < 0 ==> SoleWorker(ws[0], workerCount, modelSize)
    ensures forall i, j :: 0 <= i < j < |ws| ==> ws[i] != ws[j]
  {
    var segmentSize := modelSize / Wrap(workerCount);
    var segmentStart: Word := 0;
    ws := [];
    var id := 1;
    while id < workerCount
      invariant 1 <= id && |ws| == id - 1
      invariant workerCount >= 1 ==> id <= workerCount && segmentStart == RangeBeginOf(id, workerCount, modelSize)
      invariant workerCount < 1 ==> id == 1 && segmentStart == 0
      invariant forall k :: 0 <= k < |ws| ==> fresh(ws[k])
      invariant workerCount >= 1 ==> forall k :: 0 <= k < |ws| ==> NewWorker(ws[k], k + 1, workerCount, modelSize)
    {
      assert segmentStart + segmentSize == RangeEndOf(id, workerCount, modelSize) <= modelSize by {
        NextRange(id, workerCount, modelSize);
      }
      var worker := new WorkerContext(id, segmentStart, segmentStart + segmentSize);
      ws := ws + [worker];
      segmentStart := segmentStart + segmentSize;
      id := id + 1;
    }
    var last := new WorkerContext(workerCount, segmentStart, modelSize);
    ws := ws + [last];
    forall i, j | 0 <= i < j < |ws| ensures ws[i] != ws[j] {
      assert ws[i].WorkerId != ws[j].WorkerId;
    }
  }

  /** A worker before the last ends one segment after its start, inside
      the model. */
  lemma NextRange(id: nat, workerCount: nat, modelSize: nat)
    requires 1 <= id < workerCount
    ensures RangeEndOf(id, workerCount, modelSize) == RangeBeginOf(id, workerCount, modelSize) + modelSize / workerCount
    ensures RangeEndOf(id, workerCount, modelSize) <= modelSize
  {
    RangesTile(workerCount, modelSize);
  }

  /** A worker as CreateWorkers makes it: its id, its fixed range, empty
      lists and the first buffer selected. */
  predicate NewWorker<Op>(w: WorkerContext<Op>, id: nat, workerCount: nat, modelSize: nat)
    requires 1 <= id <= workerCount
    reads w
  {
    && w.WorkerId == id
    && w.RangeBegin == RangeBeginOf(id, workerCount, modelSize)
    && w.RangeEnd == RangeEndOf(id, workerCount, modelSize)
    && w.WorkForThread == [] && w.WorkForNextThread == [] && w.CurrentBuffer == Buffer1Current
  }

  /** The one worker CreateWorkers makes for a negative `workerCount`: that
      count as its id, the whole model as its range, empty lists and the
      first buffer selected. */
  predicate SoleWorker<Op>(w: WorkerContext<Op>, workerCount: int, modelSize: nat)
    reads w
  {
    && w.WorkerId == workerCount
    && w.RangeBegin == 0 && w.RangeEnd == modelSize
    && w.WorkForThread == [] && w.WorkForNextThread == [] && w.CurrentBuffer == Buffer1Current
  }

  /** The pending lists (`WorkForNextThread`) of the given workers, in
      worker order. */
  function PendingLists<Op>(ws: seq<WorkerContext<Op>>): (r: seq<seq<WorkItem<Op>>>)
    reads ws
    ensures |r| == |ws|
    ensures forall i :: 0 <= i < |ws| ==> r[i] == ws[i].WorkForNextThread
  {
    if ws == [] then [] else [ws[0].WorkForNextThread] + PendingLists(ws[1..])
  }

  /** The current-tick lists (`WorkForThread`) of the given workers, in
      worker order. */
  function WorkLists<Op>(ws: seq<WorkerContext<Op>>): (r: seq<seq<WorkItem<Op>>>)
    reads ws
    ensures |r| == |ws|
    ensures forall i :: 0 <= i < |ws| ==> r[i] == ws[i].WorkForThread
  {
    if ws == [] then [] else [ws[0].WorkForThread] + WorkLists(ws[1..])
  }

  /** The settings of the given workers, in worker order. */
  function SettingsList<Op>(ws: seq<WorkerContext<Op>>): (r: seq<WorkerSettings>)
    reads ws
    ensures |r| == |ws|
    ensures forall i :: 0 <= i < |ws| ==> r[i] == ws[i].Settings()
  {
    if ws == [] then [] else [ws[0].Settings()] + SettingsList(ws[1..])
  }

  /** The current-tick lists of the workers are the given lists. */
  lemma WorkListsAre<Op>(ws: seq<WorkerContext<Op>>, lists: seq<seq<WorkItem<Op>>>)
    requires |ws| == |lists| && forall j :: 0 <= j < |ws| ==> ws[j].WorkForThread == lists[j]
    ensures WorkLists(ws) == lists
  {
  }

  /** Per-worker "pending list emptied, nothing else changed", stated on
      the lists of all workers. */
  twostate lemma PendingDrained<Op>(ws: seq<WorkerContext<Op>>)
    requires forall j :: 0 <= j < |ws| ==> ws[j].WorkForNextThread == [] && ws[j].OnlyPendingChanged()
    ensures PendingLists(ws) == EmptyLists(|ws|)
    ensures WorkLists(ws) == old(WorkLists(ws)) && SettingsList(ws) == old(SettingsList(ws))
  {
    WorkListsKept(ws);
    SettingsKept(ws);
  }

  /** Per-worker "only the current-tick list changed", stated on the lists
      of all workers. */
  twostate lemma WorkHandedOut<Op>(ws: seq<WorkerContext<Op>>)
    requires forall j :: 0 <= j < |ws| ==> ws[j].OnlyWorkForThreadChanged()
    ensures PendingLists(ws) == old(PendingLists(ws)) && SettingsList(ws) == old(SettingsList(ws))
  {
    PendingKept(ws);
    SettingsKept(ws);
  }

  /** Workers none of which changed keep all their lists. */
  twostate lemma WorkersUntouched<Op>(ws: seq<WorkerContext<Op>>)
    requires forall j :: 0 <= j < |ws| ==> unchanged(ws[j])
    ensures PendingLists(ws) == old(PendingLists(ws)) && WorkLists(ws) == old(WorkLists(ws))
    ensures SettingsList(ws) == old(SettingsList(ws))
  {
    PendingKept(ws);
    WorkListsKept(ws);
    SettingsKept(ws);
  }

  twostate lemma PendingKept<Op>(ws: seq<WorkerContext<Op>>)
    requires forall j :: 0 <= j < |ws| ==> ws[j].WorkForNextThread == old(ws[j].WorkForNextThread)
    ensures PendingLists(ws) == old(PendingLists(ws))
  {
  }

  twostate lemma WorkListsKept<Op>(ws: seq<WorkerContext<Op>>)
    requires forall j :: 0 <= j < |ws| ==> ws[j].WorkForThread == old(ws[j].WorkForThread)
    ensures WorkLists(ws) == old(WorkLists(ws))
  {
  }

  twostate lemma SettingsKept<Op>(ws: seq<WorkerContext<Op>>)
    requires forall j :: 0 <= j < |ws| ==> ws[j].Settings() == old(ws[j].Settings())
    ensures SettingsList(ws) == old(SettingsList(ws))
  {
  }
}
