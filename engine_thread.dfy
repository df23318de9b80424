/** The per-tick bookkeeping of include/ModelEngineThread.h: initialising
    the counters, the main loop's tick step, the fallback when no waiter is
    installed, the partition-time accounting and the buffer switch. Worker
    threads, their scan handshake, the clock and the partitioner's two steps
    are outside the model: what they report enters as parameters. */
module EngineThreads {
  import opened Basics
  import opened WorkerContexts
  import opened EngineContexts
  import opened TickWaiters

  /** A selector after `n` buffer switches. */
  function FlipTimes(b: BufferSelector, n: nat): BufferSelector
  {
    if n == 0 then b else Flip(FlipTimes(b, n - 1))
  }

  /** After `n` switches a selector is back where it started exactly when
      `n` is even. */
  lemma {:induction false} FlipTimesParity(b: BufferSelector, n: nat)
    ensures FlipTimes(b, n) == if n % 2 == 0 then b else Flip(b)
  {
    if n > 0 {
      FlipTimesParity(b, n - 1);
      FlipTwiceRestores(b);
    }
  }

  /** The index of the first wait that sees a quit signal. */
  function FirstQuit(signals: seq<bool>): (k: nat)
    requires true in signals
    ensures k < |signals| && signals[k]
    ensures forall j :: 0 <= j < k ==> !signals[j]
  {
    if signals[0] then 0 else FirstQuit(signals[1..]) + 1
  }

  /** The partition time the ticks with the given work counts and
      partition durations add up to: only ticks that handed out work are
      timed. */
  function TimedWork(works: seq<nat>, elapsed: seq<nat>): nat
    requires |works| == |elapsed|
  {
    if works == [] then 0
    else
      var last := if works[|works| - 1] > 0 then elapsed[|works| - 1] else 0;
      TimedWork(works[..|works| - 1], elapsed[..|works| - 1]) + last
  }

  /** Ticks that handed out no work add no partition time. */
  lemma {:induction false} IdleTicksAreNotTimed(works: seq<nat>, elapsed: seq<nat>)
    requires |works| == |elapsed|
    requires forall i :: 0 <= i < |works| ==> works[i] == 0
    ensures TimedWork(works, elapsed) == 0
  {
    if works != [] {
      IdleTicksAreNotTimed(works[..|works| - 1], elapsed[..|works| - 1]);
    }
  }

  /** Partition time is at most the time spent partitioning, and equal to
      it when every tick handed out work. */
  lemma {:induction false} TimedWorkBounded(works: seq<nat>, elapsed: seq<nat>)
    requires |works| == |elapsed|
    ensures TimedWork(works, elapsed) <= Total(elapsed)
    ensures (forall i :: 0 <= i < |works| ==> works[i] > 0) ==> TimedWork(works, elapsed) == Total(elapsed)
  {
    if works != [] {
      TimedWorkBounded(works[..|works| - 1], elapsed[..|works| - 1]);
    }
  }

  /** One more tick adds its own partition time, if it handed out work. */
  lemma TimedWorkStep(works: seq<nat>, elapsed: seq<nat>, n: nat)
    requires |works| == |elapsed| && n < |works|
    ensures TimedWork(works[..n + 1], elapsed[..n + 1])
      == TimedWork(works[..n], elapsed[..n]) + (if works[n] > 0 then elapsed[n] else 0)
  {
    assert works[..n + 1][..n] == works[..n];
    assert elapsed[..n + 1][..n] == elapsed[..n];
  }

  function Total(xs: seq<nat>): nat
  {
    if xs == [] then 0 else Total(xs[..|xs| - 1]) + xs[|xs| - 1]
  }

  class ModelEngineThread<Op> {
    const Context: EngineContext<Op>
    /** The installed waiter, if any. */
    const Waiter: ConstantTickWaiter?<Op>

    /** A worker count of 0 asks for one worker per hardware thread but
        one; `hardwareConcurrency` is what the platform reports, and 0 - 1
        in `unsigned` arithmetic lands on -1 once stored in the `int`. */
    constructor (context: EngineContext<Op>, waiter: ConstantTickWaiter?<Op>, hardwareConcurrency: nat)
      modifies context`WorkerCount
      ensures Context == context && Waiter == waiter
      ensures context.WorkerCount == if old(context.WorkerCount) == 0 then hardwareConcurrency - 1 else old(context.WorkerCount)
    {
      Context := context;
      Waiter := waiter;
      if context.WorkerCount == 0 {
        context.WorkerCount := hardwareConcurrency - 1;
      }
    }

    /** Initialize: lay out the workers, then start counting ticks from 0
        and mark the engine initialised. */
    method Initialize(modelSize: Word)
      requires Context.WorkerCount != 0 && IsInt(Context.WorkerCount) && Context.Valid()
      modifies Context`Workers, Context.ExternalWorkSource`WorkerId, Context.ExternalWorkSource`RangeBegin,
        Context.ExternalWorkSource`RangeEnd, Context`Iterations, Context`EngineInitialized
      ensures Context.Valid()
      ensures |Context.Workers| == |old(Context.Workers)| + WorkersMade(Context.WorkerCount)
      ensures Context.Workers[..|old(Context.Workers)|] == old(Context.Workers)
      ensures forall k :: |old(Context.Workers)| <= k < |Context.Workers| ==> fresh(Context.Workers[k])
      ensures Context.WorkerCount >= 1 ==> forall k :: |old(Context.Workers)| <= k < |Context.Workers| ==>
        NewWorker(Context.Workers[k], k - |old(Context.Workers)| + 1, Context.WorkerCount, modelSize)
      ensures Context.WorkerCount < 0 ==> SoleWorker(Context.Workers[|old(Context.Workers)|], Context.WorkerCount, modelSize)
      ensures Context.ExternalWorkSource.WorkerId == Context.WorkerCount + 1
      ensures Context.ExternalWorkSource.RangeBegin == 0 && Context.ExternalWorkSource.RangeEnd == modelSize
      ensures Context.Iterations == 0 && Context.EngineInitialized
    {
      Context.CreateWorkers(modelSize);
      Context.Iterations := 0;
      Context.EngineInitialized := true;
    }

    /** WaitForWorkOrQuit: ask the waiter, or quit at once when there is
        none. */
    method WaitForWorkOrQuit(quitSignalled: bool) returns (quit: bool)
      requires Waiter != null ==> Waiter.Context == Context
      modifies (if Waiter == null then {} else {Waiter})`NextScheduledTick, Context`Quit
      ensures Waiter == null ==> quit && unchanged(Context)
      ensures Waiter != null ==> quit == (old(Context.Quit) || quitSignalled) && Context.Quit == quit
      ensures Waiter != null ==> Waiter.NextScheduledTick == old(Waiter.NextScheduledTick) + Context.EnginePeriod
    {
      if Waiter != null {
        quit := Waiter.WaitForWorkOrQuit(quitSignalled);
        return;
      }
      return true;
    }

    /** PartitionWork: `workForTick` is what the partitioner's single-thread
        step reported and `elapsed` how long it took; the time counts only
        when there was work. */
    method PartitionWork(workForTick: nat, elapsed: nat)
      modifies Context`PartitionTime
      ensures Context.PartitionTime == old(Context.PartitionTime) + if workForTick > 0 then elapsed else 0
    {
      if workForTick > 0 {
        Context.PartitionTime := Context.PartitionTime + elapsed;
      }
    }

    /** SwitchWorkingBuffersForAllWorkers: flip the selector of every worker
        and of the external work source; the frame says nothing else
        changes. */
    method SwitchWorkingBuffersForAllWorkers()
      requires Context.Valid()
      modifies Context.Workers`CurrentBuffer, Context.ExternalWorkSource`CurrentBuffer
      ensures forall j :: 0 <= j < |Context.Workers| ==>
        Context.Workers[j].CurrentBuffer == Flip(old(Context.Workers[j].CurrentBuffer))
      ensures Context.ExternalWorkSource.CurrentBuffer == Flip(old(Context.ExternalWorkSource.CurrentBuffer))
    {
      var workers := Context.Workers;
      for i := 0 to |workers|
        invariant forall j :: 0 <= j < i ==> workers[j].CurrentBuffer == Flip(old(workers[j].CurrentBuffer))
        invariant forall j :: i <= j < |workers| ==> workers[j].CurrentBuffer == old(workers[j].CurrentBuffer)
        invariant Context.ExternalWorkSource.CurrentBuffer == old(Context.ExternalWorkSource.CurrentBuffer)
      {
        var currentBuffer := workers[i].CurrentBuffer;
        workers[i].CurrentBuffer := if currentBuffer == Buffer1Current then Buffer2Current else Buffer1Current;
      }
      var currentExternalBuffer := Context.ExternalWorkSource.CurrentBuffer;
      Context.ExternalWorkSource.CurrentBuffer := if currentExternalBuffer == Buffer1Current then Buffer2Current else Buffer1Current;
    }

    /** The tick step of MainLoop once the workers are done: partition the
        work, switch buffers and count the tick. */
    method Tick(workForTick: nat, elapsed: nat)
      requires Context.Valid()
      modifies Context`Iterations, Context`PartitionTime
      modifies Context.Workers`CurrentBuffer, Context.ExternalWorkSource`CurrentBuffer
      ensures Context.Iterations == Increment(old(Context.Iterations))
      ensures Context.PartitionTime == old(Context.PartitionTime) + if workForTick > 0 then elapsed else 0
      ensures forall j :: 0 <= j < |Context.Workers| ==>
        Context.Workers[j].CurrentBuffer == Flip(old(Context.Workers[j].CurrentBuffer))
      ensures Context.ExternalWorkSource.CurrentBuffer == Flip(old(Context.ExternalWorkSource.CurrentBuffer))
      ensures Waiter != null ==> Waiter.NextScheduledTick == old(Waiter.NextScheduledTick)
    {
      PartitionWork(workForTick, elapsed);
      SwitchWorkingBuffersForAllWorkers();
      Context.Iterations := Increment(Context.Iterations);
    }

    /** One pass of MainLoop's body: wait, and unless told to quit, run
        one tick. */
    method Step(quitSignalled: bool, workForTick: nat, elapsed: nat) returns (quit: bool)
      requires Context.Valid()
      requires Waiter != null ==> Waiter.Context == Context
      modifies Context`Iterations, Context`PartitionTime, Context`Quit, (if Waiter == null then {} else {Waiter})`NextScheduledTick
      modifies Context.Workers`CurrentBuffer, Context.ExternalWorkSource`CurrentBuffer
      ensures quit == (Waiter == null || old(Context.Quit) || quitSignalled)
      ensures Context.Quit == (old(Context.Quit) || (Waiter != null && quitSignalled))
      ensures Context.Iterations == if quit then old(Context.Iterations) else Increment(old(Context.Iterations))
      ensures Context.PartitionTime == old(Context.PartitionTime) + if quit || workForTick == 0 then 0 else elapsed
      ensures forall j :: 0 <= j < |Context.Workers| ==>
        Context.Workers[j].CurrentBuffer == FlipTimes(old(Context.Workers[j].CurrentBuffer), if quit then 0 else 1)
      ensures Context.ExternalWorkSource.CurrentBuffer
        == FlipTimes(old(Context.ExternalWorkSource.CurrentBuffer), if quit then 0 else 1)
      ensures Waiter != null ==> Waiter.NextScheduledTick == old(Waiter.NextScheduledTick) + Context.EnginePeriod
    {
      quit := WaitForWorkOrQuit(quitSignalled);
      if !quit {
        Tick(workForTick, elapsed);
      }
    }

    /** MainLoop: run ticks until a wait reports quit. `signals[k]` says
        whether a quit was signalled during wait `k`; `works[k]` and
        `elapsed[k]` are what the partitioner's step reported in tick `k`
        and how long it took. A run that is never stopped is described by
        its prefixes: the quit signal arrives at some wait. */
    method MainLoop(signals: seq<bool>, works: seq<nat>, elapsed: seq<nat>) returns (ticks: nat)
      requires Context.Valid()
      requires Waiter != null ==> Waiter.Context == Context && true in signals
      requires |works| == |elapsed| == |signals|
      modifies Context`Iterations, Context`PartitionTime, Context`Quit, (if Waiter == null then {} else {Waiter})`NextScheduledTick
      modifies Context.Workers`CurrentBuffer, Context.ExternalWorkSource`CurrentBuffer
      ensures ticks == if Waiter == null || old(Context.Quit) then 0 else FirstQuit(signals)
      ensures Context.Iterations == Incremented(old(Context.Iterations), ticks)
      ensures ticks <= |works| && Context.PartitionTime == old(Context.PartitionTime) + TimedWork(works[..ticks], elapsed[..ticks])
      ensures forall j :: 0 <= j < |Context.Workers| ==>
        Context.Workers[j].CurrentBuffer == FlipTimes(old(Context.Workers[j].CurrentBuffer), ticks)
      ensures Context.ExternalWorkSource.CurrentBuffer == FlipTimes(old(Context.ExternalWorkSource.CurrentBuffer), ticks)
      ensures Waiter != null ==> Waiter.NextScheduledTick == old(Waiter.NextScheduledTick) + (ticks + 1) * Context.EnginePeriod
    {
      ghost var expected := if Waiter == null || Context.Quit then 0 else FirstQuit(signals);
      ghost var startQuit := Context.Quit;
      ghost var period := Context.EnginePeriod;
      ghost var deadline := if Waiter == null then 0 else Waiter.NextScheduledTick;
      ticks := 0;
      var quit := false;
      while !quit
        invariant ticks <= expected
        invariant quit ==> ticks == expected
        invariant !quit ==> Context.Quit == startQuit
        invariant ticks > 0 ==> Waiter != null && !startQuit
        invariant Context.EnginePeriod == period
        invariant Context.Iterations == Incremented(old(Context.Iterations), ticks)
        invariant Context.PartitionTime == old(Context.PartitionTime) + TimedWork(works[..ticks], elapsed[..ticks])
        invariant forall j :: 0 <= j < |Context.Workers| ==>
          Context.Workers[j].CurrentBuffer == FlipTimes(old(Context.Workers[j].CurrentBuffer), ticks)
        invariant Context.ExternalWorkSource.CurrentBuffer == FlipTimes(old(Context.ExternalWorkSource.CurrentBuffer), ticks)
        invariant Waiter != null ==> Waiter.NextScheduledTick == Advanced(deadline, period, if quit then ticks + 1 else ticks)
        decreases expected - ticks, if quit then 0 else 1
      {
        if Waiter == null {
          quit := Step(true, 0, 0);
        } else {
          quit := Step(signals[ticks], works[ticks], elapsed[ticks]);
        }
        if !quit {
          TimedWorkStep(works, elapsed, ticks);
          ticks := ticks + 1;
        }
      }
      AdvancedClosedForm(deadline, period, ticks + 1);
    }
  }
}
