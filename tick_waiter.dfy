/** include/ConstantTickWaiter.h: the waiter that paces the engine to one
    tick per `EnginePeriod`. Times are microsecond counts; the clock is read
    once, by the caller of the constructor, and the timed wait on the
    context's condition variable is reduced to its outcome. */
module TickWaiters {
  import opened EngineContexts

  class ConstantTickWaiter<Op> {
    const Context: EngineContext<Op>
    /** The time the next wait ends at, at the latest. */
    var NextScheduledTick: int

    /** The first deadline is one period after construction time `now`. */
    constructor (context: EngineContext<Op>, now: int)
      ensures Context == context
      ensures NextScheduledTick == now + context.EnginePeriod
    {
      Context := context;
      NextScheduledTick := now + context.EnginePeriod;
    }

    /** WaitForWorkOrQuit: wait until the deadline or a quit signal, then
        move the deadline on by exactly one period, however late the
        wake-up was, and report the context's quit flag. `quitSignalled`
        says whether another thread called SignalQuit before the deadline;
        the flag, once set, stays set. */
    method WaitForWorkOrQuit(quitSignalled: bool) returns (quit: bool)
      modifies this`NextScheduledTick, Context`Quit
      ensures quit == (old(Context.Quit) || quitSignalled)
      ensures Context.Quit == quit
      ensures NextScheduledTick == old(NextScheduledTick) + Context.EnginePeriod
    {
      if quitSignalled {
        Context.Quit := true;
      }
      quit := Context.Quit;
      NextScheduledTick := NextScheduledTick + Context.EnginePeriod;
    }
  }

  /** The deadline `n` waits after `base`, the period added once per wait. */
  function Advanced(base: int, period: int, n: nat): int
  {
    if n == 0 then base else Advanced(base, period, n - 1) + period
  }

  /** After `n` waits the deadline has moved by exactly `n` periods: no
      wait skips or re-bases it, however late it wakes up. With the
      constructor's first deadline, that is `start + (n + 1) * period`. */
  lemma {:induction false} AdvancedClosedForm(base: int, period: int, n: nat)
    ensures Advanced(base, period, n) == base + n * period
  {
    if n > 0 {
      AdvancedClosedForm(base, period, n - 1);
      assert n * period == (n - 1) * period + period;
    }
  }
}
