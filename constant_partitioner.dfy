/** include/ConstantWidthPartitioner.h: every worker keeps the fixed model
    range CreateWorkers gave it, and each tick every scheduled item goes to
    the first worker, in worker order, whose range holds its index. */
module ConstantPartitioning {
  import opened Basics
  import opened WorkItems
  import opened WorkerContexts
  import opened EngineContexts

  /** The first worker, in worker order, whose range holds `index`: the
      worker the innermost loop of DistributeWorkToWorkers stops at. */
  function FirstOwner(ranges: seq<WorkerSettings>, index: nat): (r: Option<nat>)
    ensures r.Some? ==> r.value < |ranges|
  {
    if ranges == [] then None
    else if InRange(index, ranges[0].RangeBegin, ranges[0].RangeEnd) then Some(0)
    else
      match FirstOwner(ranges[1..], index)
      case None => None
      case Some(u) => Some(u + 1)
  }

  /** FirstOwner names a worker whose range holds the index and before
      which no range does, and it names none exactly when no range holds
      the index. */
  lemma {:induction false} FirstOwnerIsFirst(ranges: seq<WorkerSettings>, index: nat)
    ensures var r := FirstOwner(ranges, index);
      && (r.Some? ==> InRange(index, ranges[r.value].RangeBegin, ranges[r.value].RangeEnd))
      && (r.Some? ==> forall u :: 0 <= u < r.value ==> !InRange(index, ranges[u].RangeBegin, ranges[u].RangeEnd))
      && (r.None? <==> forall u :: 0 <= u < |ranges| ==> !InRange(index, ranges[u].RangeBegin, ranges[u].RangeEnd))
  {
    if ranges != [] && !InRange(index, ranges[0].RangeBegin, ranges[0].RangeEnd) {
      FirstOwnerIsFirst(ranges[1..], index);
      forall u | 1 <= u < |ranges| ensures ranges[u] == ranges[1..][u - 1] { }
    }
  }

  /** With the layout CreateWorkers computes, every index inside the model
      is routed to the one worker whose range holds it. */
  lemma LayoutRoutesToOwner(ranges: seq<WorkerSettings>, workerCount: nat, modelSize: nat, index: nat)
    requires workerCount >= 1 && |ranges| == workerCount
    requires forall t :: 0 <= t < workerCount ==>
      ranges[t].RangeBegin == RangeBeginOf(t + 1, workerCount, modelSize) && ranges[t].RangeEnd == RangeEndOf(t + 1, workerCount, modelSize)
    requires index < modelSize
    ensures FirstOwner(ranges, index).Some?
    ensures forall t :: 0 <= t < workerCount ==>
      (FirstOwner(ranges, index) == Some(t) <==> InRange(index, RangeBeginOf(t + 1, workerCount, modelSize), RangeEndOf(t + 1, workerCount, modelSize)))
  {
    FirstOwnerIsFirst(ranges, index);
    EveryIndexHasAnOwner(workerCount, modelSize, index);
    var id :| 1 <= id <= workerCount && InRange(index, RangeBeginOf(id, workerCount, modelSize), RangeEndOf(id, workerCount, modelSize));
    assert InRange(index, ranges[id - 1].RangeBegin, ranges[id - 1].RangeEnd);
    forall t | 0 <= t < workerCount
      ensures FirstOwner(ranges, index) == Some(t) <==> InRange(index, RangeBeginOf(t + 1, workerCount, modelSize), RangeEndOf(t + 1, workerCount, modelSize))
    {
      var o := FirstOwner(ranges, index).value;
      if InRange(index, RangeBeginOf(t + 1, workerCount, modelSize), RangeEndOf(t + 1, workerCount, modelSize)) {
        NoIndexHasTwoOwners(workerCount, modelSize, index, o + 1, t + 1);
      }
    }
  }

  /** `lists` with `work` appended to the list of worker `owner`, if any:
      one PushIfInRange that succeeded, or none. */
  function Deliver<T>(lists: seq<seq<T>>, owner: Option<nat>, work: T): (r: seq<seq<T>>)
    ensures |r| == |lists| && forall t :: 0 <= t < |lists| ==> r[t] == lists[t] + if owner == Some(t) then [work] else []
  {
    seq(|lists|, t requires 0 <= t < |lists| => lists[t] + if owner == Some(t) then [work] else [])
  }

  /** The workers' current lists after the items of `items`, in order, have
      each been delivered to their first owner, starting from `lists`. */
  function Distribution<Op>(lists: seq<seq<WorkItem<Op>>>, ranges: seq<WorkerSettings>, items: seq<WorkItem<Op>>, indexOf: Op -> nat): (r: seq<seq<WorkItem<Op>>>)
    ensures |r| == |lists|
  {
    if items == [] then lists
    else
      var last := items[|items| - 1];
      Deliver(Distribution(lists, ranges, items[..|items| - 1], indexOf), FirstOwner(ranges, indexOf(last.Operator)), last)
  }

  /** The items of `items`, in order, whose first owner is worker `t`. */
  function Routed<Op>(ranges: seq<WorkerSettings>, items: seq<WorkItem<Op>>, indexOf: Op -> nat, t: nat): seq<WorkItem<Op>>
  {
    if items == [] then []
    else
      var last := items[|items| - 1];
      Routed(ranges, items[..|items| - 1], indexOf, t)
        + (if FirstOwner(ranges, indexOf(last.Operator)) == Some(t) then [last] else [])
  }

  /** Distribution appends to every worker's list exactly the items routed
      to it, in scan order. */
  lemma {:induction false} DistributionIsRouted<Op>(lists: seq<seq<WorkItem<Op>>>, ranges: seq<WorkerSettings>, items: seq<WorkItem<Op>>, indexOf: Op -> nat, t: nat)
    requires t < |lists|
    ensures Distribution(lists, ranges, items, indexOf)[t] == lists[t] + Routed(ranges, items, indexOf, t)
    decreases |items|
  {
    if items != [] {
      var front := items[..|items| - 1];
      DistributionIsRouted(lists, ranges, front, indexOf, t);
      var extra := if FirstOwner(ranges, indexOf(items[|items| - 1].Operator)) == Some(t) then [items[|items| - 1]] else [];
      assert (lists[t] + Routed(ranges, front, indexOf, t)) + extra == lists[t] + (Routed(ranges, front, indexOf, t) + extra);
    }
  }

  /** Distributing two lists in turn is distributing their concatenation. */
  lemma {:induction false} DistributionAppend<Op>(lists: seq<seq<WorkItem<Op>>>, ranges: seq<WorkerSettings>, a: seq<WorkItem<Op>>, b: seq<WorkItem<Op>>, indexOf: Op -> nat)
    ensures Distribution(Distribution(lists, ranges, a, indexOf), ranges, b, indexOf) == Distribution(lists, ranges, a + b, indexOf)
    decreases |b|
  {
    if b == [] {
      assert a + b == a;
    } else {
      var front := b[..|b| - 1];
      assert (a + b)[..|a + b| - 1] == a + front;
      assert (a + b)[|a + b| - 1] == b[|b| - 1];
      DistributionAppend(lists, ranges, a, front, indexOf);
    }
  }

  /** Routing a concatenation routes each part in turn: every worker
      receives its items in scan order. */
  lemma {:induction false} RoutedAppend<Op>(ranges: seq<WorkerSettings>, a: seq<WorkItem<Op>>, b: seq<WorkItem<Op>>, indexOf: Op -> nat, t: nat)
    ensures Routed(ranges, a + b, indexOf, t) == Routed(ranges, a, indexOf, t) + Routed(ranges, b, indexOf, t)
    decreases |b|
  {
    if b == [] {
      assert a + b == a;
    } else {
      var front := b[..|b| - 1];
      assert (a + b)[..|a + b| - 1] == a + front;
      assert (a + b)[|a + b| - 1] == b[|b| - 1];
      RoutedAppend(ranges, a, front, indexOf, t);
    }
  }

  /** Exactly the items whose first owner is `t` reach worker `t`, each as
      often as it occurs: an item goes to one worker at most, and an item
      whose index lies in no range goes nowhere. */
  lemma {:induction false} RoutedCounts<Op>(ranges: seq<WorkerSettings>, items: seq<WorkItem<Op>>, indexOf: Op -> nat, t: nat, x: WorkItem<Op>)
    ensures multiset(Routed(ranges, items, indexOf, t))[x]
      == if FirstOwner(ranges, indexOf(x.Operator)) == Some(t) then multiset(items)[x] else 0
    decreases |items|
  {
    if items != [] {
      var front := items[..|items| - 1];
      RoutedCounts(ranges, front, indexOf, t, x);
      assert items == front + [items[|items| - 1]];
    }
  }

  /** With the layout CreateWorkers computes, and every scheduled index
      inside the model, distributing onto empty lists gives worker `t`
      every item whose index lies in its range, as often as it was
      scheduled, and no other item. */
  lemma DistributionByLayout<Op>(ranges: seq<WorkerSettings>, workerCount: nat, modelSize: nat, items: seq<WorkItem<Op>>, indexOf: Op -> nat, t: nat, x: WorkItem<Op>)
    requires workerCount >= 1 && |ranges| == workerCount && t < workerCount
    requires forall u :: 0 <= u < workerCount ==>
      ranges[u].RangeBegin == RangeBeginOf(u + 1, workerCount, modelSize) && ranges[u].RangeEnd == RangeEndOf(u + 1, workerCount, modelSize)
    requires forall i :: 0 <= i < |items| ==> indexOf(items[i].Operator) < modelSize
    ensures multiset(Distribution(EmptyLists(workerCount), ranges, items, indexOf)[t])[x]
      == if InRange(indexOf(x.Operator), RangeBeginOf(t + 1, workerCount, modelSize), RangeEndOf(t + 1, workerCount, modelSize))
         then multiset(items)[x] else 0
  {
    DistributionIsRouted(EmptyLists(workerCount), ranges, items, indexOf, t);
    assert Distribution(EmptyLists(workerCount), ranges, items, indexOf)[t] == Routed(ranges, items, indexOf, t);
    RoutedCounts(ranges, items, indexOf, t, x);
    if x in items {
      var i :| 0 <= i < |items| && items[i] == x;
      LayoutRoutesToOwner(ranges, workerCount, modelSize, indexOf(x.Operator));
    }
  }

  class ConstantWidthPartitioner<Op> {
    const Context: EngineContext<Op>
    /** `Operator.Index` of the model's operation type. */
    const IndexOf: Op -> nat

    constructor (context: EngineContext<Op>, indexOf: Op -> nat)
      ensures Context == context && IndexOf == indexOf
    {
      Context := context;
      IndexOf := indexOf;
    }

    /** Partition: count and clear the work of the tick just run, advance
        the tick counter and deliver every pending item to its worker. The
        cutoff tick is ignored. */
    method Partition(workCutoffTick: Word) returns (totalWork: nat)
      requires Context.Valid()
      modifies Context`TotalWork, Context`Iterations, Context.Workers
      ensures totalWork == SumOfLengths(old(WorkLists(Context.Workers)))
      ensures Context.TotalWork == old(Context.TotalWork) + totalWork
      ensures Context.Iterations == Increment(old(Context.Iterations))
      ensures WorkLists(Context.Workers) == Distribution(EmptyLists(|Context.Workers|),
        old(SettingsList(Context.Workers)), Flatten(old(PendingLists(Context.Workers))), IndexOf)
      ensures PendingLists(Context.Workers) == EmptyLists(|Context.Workers|)
      ensures SettingsList(Context.Workers) == old(SettingsList(Context.Workers))
    {
      ghost var workers := Context.Workers;
      ghost var pending := PendingLists(workers);
      ghost var ranges := SettingsList(workers);
      totalWork := AccumulateWorkfromWorkers();
      label Counted:
      Context.Iterations := Increment(Context.Iterations);
      WorkersUntouched@Counted(workers);
      DistributeWorkToWorkers(ranges, pending, EmptyLists(|workers|));
    }

    /** AccumulateWorkfromWorkers: add up the sizes of the workers' current
        lists into the result and `TotalWork`, emptying the lists. */
    method AccumulateWorkfromWorkers() returns (totalWork: nat)
      requires Context.Valid()
      modifies Context`TotalWork, Context.Workers
      ensures totalWork == SumOfLengths(old(WorkLists(Context.Workers)))
      ensures Context.TotalWork == old(Context.TotalWork) + totalWork
      ensures Context.Workers == old(Context.Workers)
      ensures WorkLists(Context.Workers) == EmptyLists(|Context.Workers|)
      ensures PendingLists(Context.Workers) == old(PendingLists(Context.Workers))
      ensures SettingsList(Context.Workers) == old(SettingsList(Context.Workers))
    {
      ghost var workers := Context.Workers;
      totalWork := ClearWorkLists(Context.Workers);
      WorkHandedOut(workers);
      WorkListsAre(workers, EmptyLists(|workers|));
      Context.TotalWork := Context.TotalWork + totalWork;
    }

    /** DistributeWorkToWorkers: for every worker in turn, push each of its
        pending items to the first worker whose range holds the item's
        index, then empty its pending list. `ranges` and `pending` name the
        workers' settings, pending lists and current lists on entry. */
    method DistributeWorkToWorkers(ghost ranges: seq<WorkerSettings>, ghost pending: seq<seq<WorkItem<Op>>>, ghost start: seq<seq<WorkItem<Op>>>)
      requires Context.Valid()
      requires ranges == SettingsList(Context.Workers) && pending == PendingLists(Context.Workers) && start == WorkLists(Context.Workers)
      modifies Context.Workers
      ensures WorkLists(Context.Workers) == Distribution(start, ranges, Flatten(pending), IndexOf)
      ensures unchanged(Context)
      ensures PendingLists(Context.Workers) == EmptyLists(|Context.Workers|)
      ensures SettingsList(Context.Workers) == ranges
    {
      ghost var lists := DistributeAll(Context.Workers, ranges, pending, start, IndexOf);
      WorkersHold(Context.Workers, ranges, lists);
    }
  }

  /** The loops of DistributeWorkToWorkers, on workers whose settings,
      pending lists and current lists are `ranges`, `pending` and `start`:
      afterwards the current lists are `lists`. */
  method DistributeAll<Op>(workers: seq<WorkerContext<Op>>, ghost ranges: seq<WorkerSettings>, ghost pending: seq<seq<WorkItem<Op>>>,
                           ghost start: seq<seq<WorkItem<Op>>>, indexOf: Op -> nat) returns (ghost lists: seq<seq<WorkItem<Op>>>)
    requires forall i, j :: 0 <= i < j < |workers| ==> workers[i] != workers[j]
    requires |ranges| == |pending| == |start| == |workers|
    requires forall j :: 0 <= j < |workers| ==>
      workers[j].Settings() == ranges[j] && workers[j].WorkForNextThread == pending[j] && workers[j].WorkForThread == start[j]
    modifies workers
    ensures lists == Distribution(start, ranges, Flatten(pending), indexOf)
    ensures forall j :: 0 <= j < |workers| ==>
      workers[j].WorkForThread == lists[j] && workers[j].WorkForNextThread == [] && workers[j].Settings() == ranges[j]
  {
    ghost var parts := FlattenPrefixes(pending);
    lists := start;
    for s := 0 to |workers|
      invariant lists == Distribution(start, ranges, parts[s], indexOf)
      invariant forall t :: 0 <= t < |workers| ==> workers[t].WorkForThread == lists[t]
      invariant forall j :: 0 <= j < s ==> workers[j].WorkForNextThread == []
      invariant forall j :: s <= j < |workers| ==> workers[j].WorkForNextThread == pending[j]
      invariant forall j :: 0 <= j < |workers| ==> workers[j].Settings() == ranges[j]
    {
      DistributionAppend(start, ranges, parts[s], pending[s], indexOf);
      lists := DistributeFrom(workers, ranges, lists, s, indexOf);
    }
  }

  /** One pass of the outer loop of DistributeWorkToWorkers: deliver the
      pending items of worker `s`, then empty its pending list. */
  method DistributeFrom<Op>(workers: seq<WorkerContext<Op>>, ghost ranges: seq<WorkerSettings>, ghost before: seq<seq<WorkItem<Op>>>,
                            s: nat, indexOf: Op -> nat) returns (ghost after: seq<seq<WorkItem<Op>>>)
    requires forall i, j :: 0 <= i < j < |workers| ==> workers[i] != workers[j]
    requires |ranges| == |workers| == |before| && s < |workers|
    requires forall t :: 0 <= t < |workers| ==> workers[t].Settings() == ranges[t] && workers[t].WorkForThread == before[t]
    modifies workers
    ensures after == Distribution(before, ranges, old(workers[s].WorkForNextThread), indexOf)
    ensures forall t :: 0 <= t < |workers| ==> workers[t].WorkForThread == after[t] && workers[t].Settings() == ranges[t]
    ensures forall t :: 0 <= t < |workers| && t != s ==> workers[t].WorkForNextThread == old(workers[t].WorkForNextThread)
    ensures workers[s].WorkForNextThread == []
  {
    after := PushAllToFirstOwners(workers, ranges, before, workers[s].WorkForNextThread, indexOf);
    workers[s].WorkForNextThread := [];
  }

  /** The middle loop of DistributeWorkToWorkers: deliver every item of
      one pending list. The workers' current lists go from `before` to
      `after`. */
  method PushAllToFirstOwners<Op>(workers: seq<WorkerContext<Op>>, ghost ranges: seq<WorkerSettings>, ghost before: seq<seq<WorkItem<Op>>>,
                                  items: seq<WorkItem<Op>>, indexOf: Op -> nat) returns (ghost after: seq<seq<WorkItem<Op>>>)
    requires forall i, j :: 0 <= i < j < |workers| ==> workers[i] != workers[j]
    requires |ranges| == |workers| == |before|
    requires forall t :: 0 <= t < |workers| ==> workers[t].Settings() == ranges[t] && workers[t].WorkForThread == before[t]
    modifies workers
    ensures after == Distribution(before, ranges, items, indexOf)
    ensures forall t :: 0 <= t < |workers| ==> workers[t].WorkForThread == after[t]
    ensures forall t :: 0 <= t < |workers| ==> workers[t].Settings() == ranges[t]
    ensures forall t :: 0 <= t < |workers| ==> workers[t].WorkForNextThread == old(workers[t].WorkForNextThread)
  {
    after := before;
    assert items[..0] == [];
    for i := 0 to |items|
      invariant after == Distribution(before, ranges, items[..i], indexOf)
      invariant forall t :: 0 <= t < |workers| ==> workers[t].WorkForThread == after[t]
      invariant forall t :: 0 <= t < |workers| ==> workers[t].Settings() == ranges[t]
      invariant forall t :: 0 <= t < |workers| ==> workers[t].WorkForNextThread == old(workers[t].WorkForNextThread)
    {
      ghost var owner := FirstOwner(ranges, indexOf(items[i].Operator));
      PushToFirstOwner(workers, ranges, owner, items[i], indexOf);
      assert items[..i + 1][..i] == items[..i];
      after := Deliver(after, owner, items[i]);
    }
    assert items[..|items|] == items;
  }

  /** The innermost loop of DistributeWorkToWorkers: offer the item to
      each worker in order until one accepts it. */
  method PushToFirstOwner<Op>(workers: seq<WorkerContext<Op>>, ghost ranges: seq<WorkerSettings>, ghost owner: Option<nat>, work: WorkItem<Op>, indexOf: Op -> nat)
    requires forall i, j :: 0 <= i < j < |workers| ==> workers[i] != workers[j]
    requires |ranges| == |workers|
    requires forall t :: 0 <= t < |workers| ==> workers[t].Settings() == ranges[t]
    requires owner == FirstOwner(ranges, indexOf(work.Operator))
    modifies workers
    ensures forall t :: 0 <= t < |workers| ==>
      workers[t].WorkForThread == old(workers[t].WorkForThread) + (if owner == Some(t) then [work] else [])
    ensures forall t :: 0 <= t < |workers| ==> workers[t].Settings() == ranges[t]
    ensures forall t :: 0 <= t < |workers| ==> workers[t].WorkForNextThread == old(workers[t].WorkForNextThread)
  {
    var index := indexOf(work.Operator);
    FirstOwnerIsFirst(ranges, index);
    for t := 0 to |workers|
      invariant forall u :: 0 <= u < t ==> !InRange(index, ranges[u].RangeBegin, ranges[u].RangeEnd)
      invariant forall u :: 0 <= u < |workers| ==> workers[u].WorkForThread == old(workers[u].WorkForThread)
      invariant forall u :: 0 <= u < |workers| ==> workers[u].Settings() == ranges[u]
      invariant forall u :: 0 <= u < |workers| ==> workers[u].WorkForNextThread == old(workers[u].WorkForNextThread)
    {
      var pushed := workers[t].PushIfInRange(work, indexOf);
      if pushed {
        assert owner == Some(t);
        return;
      }
    }
  }

  /** The worker loop of AccumulateWorkfromWorkers: the total size of the
      current lists, each of which is emptied. */
  method ClearWorkLists<Op>(workers: seq<WorkerContext<Op>>) returns (totalWork: nat)
    requires forall i, j :: 0 <= i < j < |workers| ==> workers[i] != workers[j]
    modifies workers
    ensures totalWork == SumOfLengths(old(WorkLists(workers)))
    ensures forall t :: 0 <= t < |workers| ==> workers[t].WorkForThread == [] && workers[t].OnlyWorkForThreadChanged()
  {
    ghost var lists := WorkLists(workers);
    totalWork := 0;
    for i := 0 to |workers|
      invariant totalWork == SumOfLengths(lists[..i])
      invariant forall t :: 0 <= t < i ==> workers[t].WorkForThread == []
      invariant forall t :: i <= t < |workers| ==> workers[t].WorkForThread == lists[t]
      invariant forall t :: 0 <= t < |workers| ==> workers[t].OnlyWorkForThreadChanged()
    {
      assert lists[..i + 1] == lists[..i] + [lists[i]];
      SumOfLengthsAppend(lists[..i], lists[i]);
      totalWork := totalWork + |workers[i].WorkForThread|;
      workers[i].WorkForThread := [];
    }
    assert lists[..|workers|] == lists;
  }

  /** Workers whose current lists are `lists`, whose pending lists are empty
      and whose settings are `ranges`, stated on the lists of all of them. */
  lemma WorkersHold<Op>(ws: seq<WorkerContext<Op>>, ranges: seq<WorkerSettings>, lists: seq<seq<WorkItem<Op>>>)
    requires |ranges| == |ws| == |lists|
    requires forall t :: 0 <= t < |ws| ==> ws[t].WorkForThread == lists[t]
    requires forall j :: 0 <= j < |ws| ==> ws[j].WorkForNextThread == [] && ws[j].Settings() == ranges[j]
    ensures WorkLists(ws) == lists
    ensures PendingLists(ws) == EmptyLists(|ws|)
    ensures SettingsList(ws) == ranges
  {
    WorkListsAre(ws, lists);
  }
}
