/**
 * Scheduler: runs work now, after a delay, at a point in time, or a given number of
 * times, and for the "and notify" variants fires an @AfterTask event once the work has
 * been handed over (and, where there is a delay, once the calling thread has slept
 * until the work became due, plus a safety margin).
 *
 * The pool is the abstract ScheduledExecutor; every promise about order and counting
 * is stated on its trace. Runnable and Callable overloads behave alike and are one
 * member here; so are the ScheduledFuture and CompletableFuture overloads of delete
 * and deleteAll, whose handles are all indices into the executor's futures.
 */
module Scheduling {
  import opened Wrappers
  import opened AfterTask
  import opened Executors

  /** The pool size the constructor passes to newScheduledThreadPool, whatever it is given. */
  const PoolSize: nat := 2

  /** What getIntermission adds to a future's remaining delay. */
  const SafetyMarginMillis: nat := 3

  /** The poll interval of the date-triggered variants. */
  const PollMillis: nat := 1000

  /**
   * How many times the loop over numRepeats (Scheduler.java:231) runs its body; the
   * count is proved in Scheduler.Repeat, whose loop stops after exactly this many.
   */
  function Repeats(numRepeats: int): (r: nat)
  {
    if numRepeats < 0 then 0 else numRepeats
  }

  // ---------------------------------------------------------------------------
  // What the loops of Scheduler leave behind, as values

  /**
   * The trace of `n` repetitions whose first future gets handle `first`: each one
   * submits, then sleeps `pause`.
   */
  function RepeatTrace(first: nat, n: nat, pause: nat): (r: seq<Action>)
    ensures |r| == 2 * n
  {
    if n == 0 then [] else RepeatTrace(first, n - 1, pause) + [Submitted(first + n - 1), Slept(pause)]
  }

  /**
   * The futures of `n` repetitions begun at clock `start`, each due `delay` after it
   * was scheduled and followed by a sleep of `delay` plus the safety margin.
   */
  function RepeatFutures(start: int, n: nat, delay: nat): (r: seq<Future>)
    ensures |r| == n
  {
    if n == 0 then []
    else RepeatFutures(start, n - 1, delay) + [Future(start + (n - 1) * (delay + SafetyMarginMillis) + delay, false)]
  }

  /**
   * The delay of repetition `k` when, as the documentation of the repetition methods
   * says, the first one has no delay and runs at once.
   */
  function ImmediateDelay(k: nat, delay: nat): (r: nat)
  {
    if k == 0 then 0 else delay
  }

  /** The trace of `n` repetitions of which the first has no delay. */
  function ImmediateTrace(first: nat, n: nat, delay: nat): (r: seq<Action>)
    ensures |r| == 2 * n
  {
    if n == 0 then []
    else ImmediateTrace(first, n - 1, delay) + [Submitted(first + n - 1), Slept(ImmediateDelay(n - 1, delay) + SafetyMarginMillis)]
  }

  /** The futures of `n` repetitions begun at clock `start` of which the first has no delay. */
  function ImmediateFutures(start: int, n: nat, delay: nat): (r: seq<Future>)
    ensures |r| == n
  {
    if n == 0 then []
    else ImmediateFutures(start, n - 1, delay) + [Future(start + (n - 1) * (delay + SafetyMarginMillis), false)]
  }

  /** The clock reading after `n` repetitions of which the first has no delay. */
  function ImmediateClock(start: int, n: nat, delay: nat): (r: int)
  {
    if n == 0 then start else start + n * (delay + SafetyMarginMillis) - delay
  }

  /** The trace of cancelling `handles` one after the other. */
  function CancelTrace(handles: seq<nat>): (r: seq<Action>)
    ensures |r| == |handles|
    ensures forall k :: 0 <= k < |handles| ==> r[k] == Cancelled(handles[k])
  {
    if handles == [] then [] else CancelTrace(handles[..|handles| - 1]) + [Cancelled(handles[|handles| - 1])]
  }

  /**
   * The futures after cancelling `handles` one after the other: exactly the futures
   * named are flagged cancelled, and no deadline changes.
   */
  function WithCancelled(fs: seq<Future>, handles: seq<nat>): (r: seq<Future>)
    requires forall k :: 0 <= k < |handles| ==> handles[k] < |fs|
    ensures |r| == |fs|
    ensures forall i :: 0 <= i < |fs| ==> r[i] == Future(fs[i].deadline, fs[i].cancelled || i in handles)
  {
    if handles == [] then fs
    else
      var rest := WithCancelled(fs, handles[..|handles| - 1]);
      var h := handles[|handles| - 1];
      assert forall i :: i in handles <==> i in handles[..|handles| - 1] || i == h by {
        assert handles == handles[..|handles| - 1] + [h];
      }
      rest[h := rest[h].(cancelled := true)]
  }

  /** The sleeps of `n` polls. */
  function Polls(n: nat): (r: seq<Action>)
  {
    if n == 0 then [] else Polls(n - 1) + [Slept(PollMillis)]
  }

  /**
   * How many polls take a clock reading `now` to `target` or beyond: none when it is
   * there already, otherwise enough to reach it and less than one poll more.
   */
  function PollCount(now: int, target: int): (r: nat)
    ensures target <= now ==> r == 0
    ensures now < target ==> target <= now + r * PollMillis < target + PollMillis
  {
    if target <= now then 0 else (target - now + PollMillis - 1) / PollMillis
  }

  datatype Kind = SubmitKind | SleepKind | DispatchKind | CancelKind | ShutdownKind

  function KindOf(a: Action): (r: Kind)
  {
    match a
    case Submitted(_) => SubmitKind
    case Slept(_) => SleepKind
    case Dispatched(_, _) => DispatchKind
    case Cancelled(_) => CancelKind
    case ShutDown => ShutdownKind
    case ShutDownNow => ShutdownKind
  }

  /** How many actions of kind `k` the trace holds. */
  function Count(t: seq<Action>, k: Kind): (r: nat)
  {
    if t == [] then 0 else Count(t[..|t| - 1], k) + (if KindOf(t[|t| - 1]) == k then 1 else 0)
  }

  // ---------------------------------------------------------------------------
  // The scheduler

  class Scheduler {
    const executor: ScheduledExecutor

    /** Scheduler(numThreads): the pool gets PoolSize threads; `numThreads` is not used. */
    constructor (numThreads: int, now: int)
      ensures fresh(executor) && executor.Valid()
      ensures executor.corePoolSize == PoolSize
      ensures executor.clock == now && !executor.isShutdown && executor.futures == [] && executor.trace == []
    {
      executor := new ScheduledExecutor(PoolSize, now);
    }

    /** The constructor as evidently intended: the pool gets `numThreads` threads. */
    constructor WithPoolSize(numThreads: nat, now: int)
      ensures fresh(executor) && executor.Valid()
      ensures executor.corePoolSize == numThreads
      ensures executor.clock == now && !executor.isShutdown && executor.futures == [] && executor.trace == []
    {
      executor := new ScheduledExecutor(numThreads, now);
    }

    /**
     * getIntermission: the future's remaining delay plus the safety margin, so that
     * sleeping that long ends exactly SafetyMarginMillis after the future is due.
     */
    function GetIntermission(handle: nat): (r: int)
      reads executor
      requires handle < |executor.futures|
      ensures executor.clock + r == executor.futures[handle].deadline + SafetyMarginMillis
    {
      executor.GetDelay(handle) + SafetyMarginMillis
    }

    /**
     * The dispatch every "and notify" variant makes (Scheduler.java:38): the handlers of
     * `eventName` are looked up and invoked. With no classes to scan, no handler is found,
     * none is invoked and nothing is thrown.
     */
    method InvokeAfterTasks(eventName: string)
      requires executor.Valid()
      modifies executor
      ensures executor.Valid()
      ensures executor.Appended([Dispatched(eventName, [])])
    {
      var handlers := GetSpecificMethods(eventName, []);
      var invoked, thrown := InvokeMethods(handlers);
      assert thrown == None;
      executor.RecordDispatch(eventName, invoked);
    }

    /** run(task): hands the task to the pool at once. */
    method Run() returns (r: Outcome<nat>)
      requires executor.Valid()
      modifies executor
      ensures executor.Valid()
      ensures old(executor.isShutdown) ==> r == RejectedExecution && executor.Appended([])
      ensures !old(executor.isShutdown) ==>
        && r == Returned(|old(executor.futures)|)
        && executor.futures == old(executor.futures) + [Future(old(executor.clock), false)]
        && executor.trace == old(executor.trace) + [Submitted(r.value)]
        && executor.clock == old(executor.clock) && !executor.isShutdown
    {
      r := executor.Submit();
    }

    /** run(task, eventName): fires the event first, then hands the task to the pool. */
    method RunAndNotify(eventName: string) returns (r: Outcome<nat>)
      requires executor.Valid()
      modifies executor
      ensures executor.Valid()
      ensures old(executor.isShutdown) ==>
        r == RejectedExecution && executor.Appended([Dispatched(eventName, [])])
      ensures !old(executor.isShutdown) ==>
        && r == Returned(|old(executor.futures)|)
        && executor.futures == old(executor.futures) + [Future(old(executor.clock), false)]
        && executor.trace == old(executor.trace) + [Dispatched(eventName, []), Submitted(r.value)]
        && executor.clock == old(executor.clock) && !executor.isShutdown
    {
      InvokeAfterTasks(eventName);
      r := executor.Submit();
    }

    /** scheduleWithFixedDelay(delay, unit, task): one future due `delay` from now. */
    method ScheduleWithFixedDelay(delay: int, unit: TimeUnit) returns (r: Outcome<nat>)
      requires executor.Valid()
      modifies executor
      ensures executor.Valid()
      ensures old(executor.isShutdown) ==> r == RejectedExecution && executor.Appended([])
      ensures !old(executor.isShutdown) ==>
        && r == Returned(|old(executor.futures)|)
        && executor.futures == old(executor.futures) + [Future(old(executor.clock) + DelayMillis(delay, unit), false)]
        && executor.trace == old(executor.trace) + [Submitted(r.value)]
        && executor.clock == old(executor.clock) && !executor.isShutdown
    {
      r := executor.Schedule(delay, unit);
    }

    /**
     * scheduleWithFixedDelay(delay, unit, task, eventName): schedules, sleeps for the
     * intermission of the new future, fires the event, and returns that same future.
     * The event fires SafetyMarginMillis after the future became due.
     */
    method ScheduleWithFixedDelayAndNotify(delay: int, unit: TimeUnit, eventName: string) returns (r: Outcome<nat>)
      requires executor.Valid()
      modifies executor
      ensures executor.Valid()
      ensures old(executor.isShutdown) ==> r == RejectedExecution && executor.Appended([])
      ensures !old(executor.isShutdown) ==>
        var h, d := |old(executor.futures)|, DelayMillis(delay, unit);
        && r == Returned(h)
        && executor.futures == old(executor.futures) + [Future(old(executor.clock) + d, false)]
        && executor.trace == old(executor.trace) + [Submitted(h), Slept(d + SafetyMarginMillis), Dispatched(eventName, [])]
        && executor.clock == executor.futures[h].deadline + SafetyMarginMillis
        && !executor.isShutdown
    {
      r := executor.Schedule(delay, unit);
      if r.RejectedExecution? {
        return;
      }
      executor.Sleep(GetIntermission(r.value));
      InvokeAfterTasks(eventName);
    }

    /**
     * scheduleAtFixedLocalDateTime(localDateTime, task), as written: when the target is
     * in the future the task is handed over at once, before the target; otherwise the
     * call returns null and does nothing.
     */
    method ScheduleAtFixedLocalDateTime(target: int) returns (r: Outcome<Option<nat>>)
      requires executor.Valid()
      modifies executor
      ensures executor.Valid()
      ensures target <= old(executor.clock) ==> r == Returned(None) && executor.Appended([])
      ensures target > old(executor.clock) && old(executor.isShutdown) ==>
        r == RejectedExecution && executor.Appended([])
      ensures target > old(executor.clock) && !old(executor.isShutdown) ==>
        && r == Returned(Some(|old(executor.futures)|))
        && executor.futures == old(executor.futures) + [Future(old(executor.clock), false)]
        && executor.trace == old(executor.trace) + [Submitted(|old(executor.futures)|)]
        && executor.clock == old(executor.clock) < target && !executor.isShutdown
    {
      if target > executor.clock {
        // The source polls every second while the target is before the clock (Scheduler.java:136-142).
        // No time passes between the two readings of the clock, so the loop guard is the
        // negation of the test just passed: the poll never runs.
        assert !(target < executor.clock);
        var s := executor.Submit();
        r := if s.Returned? then Returned(Some(s.value)) else RejectedExecution;
      } else {
        r := Returned(None);
      }
    }

    /**
     * scheduleAtFixedLocalDateTime(localDateTime, task, eventName), as written: as the
     * variant without an event, with the event fired just before the task is handed over.
     */
    method ScheduleAtFixedLocalDateTimeAndNotify(target: int, eventName: string) returns (r: Outcome<Option<nat>>)
      requires executor.Valid()
      modifies executor
      ensures executor.Valid()
      ensures target <= old(executor.clock) ==> r == Returned(None) && executor.Appended([])
      ensures target > old(executor.clock) && old(executor.isShutdown) ==>
        r == RejectedExecution && executor.Appended([Dispatched(eventName, [])])
      ensures target > old(executor.clock) && !old(executor.isShutdown) ==>
        && r == Returned(Some(|old(executor.futures)|))
        && executor.futures == old(executor.futures) + [Future(old(executor.clock), false)]
        && executor.trace == old(executor.trace) + [Dispatched(eventName, []), Submitted(|old(executor.futures)|)]
        && executor.clock == old(executor.clock) < target && !executor.isShutdown
    {
      if target > executor.clock {
        // The poll loop never runs, as in ScheduleAtFixedLocalDateTime.
        assert !(target < executor.clock);
        InvokeAfterTasks(eventName);
        var s := executor.Submit();
        r := if s.Returned? then Returned(Some(s.value)) else RejectedExecution;
      } else {
        r := Returned(None);
      }
    }

    /**
     * The wait the date-triggered variants evidently intend: poll every PollMillis while
     * the clock is before the target. It stops at the first reading at or past the target.
     */
    method PollUntil(target: int)
      requires executor.clock < target
      requires executor.Valid()
      modifies executor
      ensures executor.Valid()
      ensures executor.clock == old(executor.clock) + PollCount(old(executor.clock), target) * PollMillis
      ensures target <= executor.clock < target + PollMillis
      ensures executor.isShutdown == old(executor.isShutdown) && executor.futures == old(executor.futures)
      ensures executor.trace == old(executor.trace) + Polls(PollCount(old(executor.clock), target))
    {
      ghost var polls := 0;
      while executor.clock < target
        invariant executor.clock == old(executor.clock) + polls * PollMillis
        invariant executor.clock < target + PollMillis
        invariant executor.isShutdown == old(executor.isShutdown) && executor.futures == old(executor.futures)
        invariant executor.trace == old(executor.trace) + Polls(polls)
        invariant executor.Valid()
        decreases target - executor.clock
      {
        executor.Sleep(PollMillis);
        polls := polls + 1;
      }
      PollCountIsLeast(old(executor.clock), target, polls);
    }

    /**
     * The date-triggered variant as evidently intended: wait until the target, then
     * hand the task over, at most one poll late.
     */
    method ScheduleAtFixedLocalDateTimeAwaited(target: int) returns (r: Outcome<Option<nat>>)
      requires executor.Valid()
      modifies executor
      ensures executor.Valid()
      ensures target <= old(executor.clock) ==> r == Returned(None) && executor.Appended([])
      ensures target > old(executor.clock) ==>
        var polls := PollCount(old(executor.clock), target);
        && executor.clock == old(executor.clock) + polls * PollMillis
        && target <= executor.clock < target + PollMillis
        && executor.isShutdown == old(executor.isShutdown)
        && (old(executor.isShutdown) ==>
              r == RejectedExecution && executor.futures == old(executor.futures)
              && executor.trace == old(executor.trace) + Polls(polls))
        && (!old(executor.isShutdown) ==>
              r == Returned(Some(|old(executor.futures)|))
              && executor.futures == old(executor.futures) + [Future(executor.clock, false)]
              && executor.trace == old(executor.trace) + Polls(polls) + [Submitted(|old(executor.futures)|)])
    {
      if target > executor.clock {
        PollUntil(target);
        var s := executor.Submit();
        r := if s.Returned? then Returned(Some(s.value)) else RejectedExecution;
      } else {
        r := Returned(None);
      }
    }

    /**
     * The date-triggered variant with an event as evidently intended: wait until the
     * target, fire the event, then hand the task over, in the order of the source.
     */
    method ScheduleAtFixedLocalDateTimeAwaitedAndNotify(target: int, eventName: string) returns (r: Outcome<Option<nat>>)
      requires executor.Valid()
      modifies executor
      ensures executor.Valid()
      ensures target <= old(executor.clock) ==> r == Returned(None) && executor.Appended([])
      ensures target > old(executor.clock) ==>
        var polls := PollCount(old(executor.clock), target);
        && executor.clock == old(executor.clock) + polls * PollMillis
        && target <= executor.clock < target + PollMillis
        && executor.isShutdown == old(executor.isShutdown)
        && (old(executor.isShutdown) ==>
              r == RejectedExecution && executor.futures == old(executor.futures)
              && executor.trace == old(executor.trace) + Polls(polls) + [Dispatched(eventName, [])])
        && (!old(executor.isShutdown) ==>
              r == Returned(Some(|old(executor.futures)|))
              && executor.futures == old(executor.futures) + [Future(executor.clock, false)]
              && executor.trace == old(executor.trace) + Polls(polls)
                                   + [Dispatched(eventName, []), Submitted(|old(executor.futures)|)])
    {
      if target > executor.clock {
        PollUntil(target);
        InvokeAfterTasks(eventName);
        var s := executor.Submit();
        r := if s.Returned? then Returned(Some(s.value)) else RejectedExecution;
      } else {
        r := Returned(None);
      }
    }

    /**
     * The common loop of scheduleAtFixedRateNow and scheduleAtFixedRate: `numRepeats`
     * times, scheduleWithFixedDelay and a sleep for the new future's intermission.
     */
    twostate predicate RepeatedThen(numRepeats: int, delay: int, unit: TimeUnit, new r: Outcome<()>, after: seq<Action>)
      reads executor
    {
      var n, d := Repeats(numRepeats), DelayMillis(delay, unit);
      if old(executor.isShutdown) && n > 0 then
        r == RejectedExecution && executor.Appended([])
      else
        && r == Returned(())
        && executor.isShutdown == old(executor.isShutdown)
        && executor.clock == old(executor.clock) + n * (d + SafetyMarginMillis)
        && executor.futures == old(executor.futures) + RepeatFutures(old(executor.clock), n, d)
        && executor.trace == old(executor.trace) + RepeatTrace(|old(executor.futures)|, n, d + SafetyMarginMillis) + after
    }

    method Repeat(numRepeats: int, delay: int, unit: TimeUnit) returns (r: Outcome<()>)
      requires executor.Valid()
      modifies executor
      ensures executor.Valid()
      ensures RepeatedThen(numRepeats, delay, unit, r, [])
    {
      ghost var start, first := executor.clock, |executor.futures|;
      ghost var d := DelayMillis(delay, unit);
      ghost var pause := d + SafetyMarginMillis;
      var i := 0;
      while i < numRepeats
        invariant 0 <= i <= Repeats(numRepeats)
        invariant 0 < i ==> !old(executor.isShutdown)
        invariant executor.isShutdown == old(executor.isShutdown)
        invariant executor.clock == start + i * pause
        invariant executor.futures == old(executor.futures) + RepeatFutures(start, i, d)
        invariant executor.trace == old(executor.trace) + RepeatTrace(first, i, pause)
        invariant executor.Valid()
      {
        ghost var before := executor.trace;
        var f := ScheduleWithFixedDelay(delay, unit);
        if f.RejectedExecution? {
          assert i == 0;
          return RejectedExecution;
        }
        executor.Sleep(GetIntermission(f.value));
        assert (i + 1) * pause == i * pause + pause;
        assert executor.trace == before + [Submitted(first + i), Slept(pause)];
        i := i + 1;
      }
      r := Returned(());
    }

    /** scheduleAtFixedRateNow(numRepeats, delay, unit, task). */
    method ScheduleAtFixedRateNow(numRepeats: int, delay: int, unit: TimeUnit) returns (r: Outcome<()>)
      requires executor.Valid()
      modifies executor
      ensures executor.Valid()
      ensures RepeatedThen(numRepeats, delay, unit, r, [])
    {
      r := Repeat(numRepeats, delay, unit);
    }

    /** scheduleAtFixedRateNow(numRepeats, delay, unit, task, eventName): the event fires once, after the last repetition. */
    method ScheduleAtFixedRateNowAndNotify(numRepeats: int, delay: int, unit: TimeUnit, eventName: string) returns (r: Outcome<()>)
      requires executor.Valid()
      modifies executor
      ensures executor.Valid()
      ensures RepeatedThen(numRepeats, delay, unit, r, [Dispatched(eventName, [])])
    {
      r := Repeat(numRepeats, delay, unit);
      if r.RejectedExecution? {
        return;
      }
      InvokeAfterTasks(eventName);
    }

    /** scheduleAtFixedRate(numRepeats, delay, unit, task): the same loop as scheduleAtFixedRateNow. */
    method ScheduleAtFixedRate(numRepeats: int, delay: int, unit: TimeUnit) returns (r: Outcome<()>)
      requires executor.Valid()
      modifies executor
      ensures executor.Valid()
      ensures RepeatedThen(numRepeats, delay, unit, r, [])
    {
      r := Repeat(numRepeats, delay, unit);
    }

    /** scheduleAtFixedRate(numRepeats, delay, unit, task, eventName): the event fires once, after the last repetition. */
    method ScheduleAtFixedRateAndNotify(numRepeats: int, delay: int, unit: TimeUnit, eventName: string) returns (r: Outcome<()>)
      requires executor.Valid()
      modifies executor
      ensures executor.Valid()
      ensures RepeatedThen(numRepeats, delay, unit, r, [Dispatched(eventName, [])])
    {
      r := Repeat(numRepeats, delay, unit);
      if r.RejectedExecution? {
        return;
      }
      InvokeAfterTasks(eventName);
    }

    /**
     * The repetition loop as its documentation describes it: the first repetition has
     * no delay and runs at once, each later one is scheduled with `delay`.
     */
    twostate predicate ImmediatelyRepeatedThen(numRepeats: int, delay: int, unit: TimeUnit, new r: Outcome<()>, after: seq<Action>)
      reads executor
    {
      var n, d := Repeats(numRepeats), DelayMillis(delay, unit);
      if old(executor.isShutdown) && n > 0 then
        r == RejectedExecution && executor.Appended([])
      else
        && r == Returned(())
        && executor.isShutdown == old(executor.isShutdown)
        && executor.clock == ImmediateClock(old(executor.clock), n, d)
        && executor.futures == old(executor.futures) + ImmediateFutures(old(executor.clock), n, d)
        && executor.trace == old(executor.trace) + ImmediateTrace(|old(executor.futures)|, n, d) + after
    }

    /** scheduleAtFixedRateNow and scheduleAtFixedRate with the first repetition immediate. */
    method RepeatFirstImmediately(numRepeats: int, delay: int, unit: TimeUnit) returns (r: Outcome<()>)
      requires executor.Valid()
      modifies executor
      ensures executor.Valid()
      ensures ImmediatelyRepeatedThen(numRepeats, delay, unit, r, [])
    {
      ghost var start, first := executor.clock, |executor.futures|;
      ghost var d := DelayMillis(delay, unit);
      ghost var pause := d + SafetyMarginMillis;
      var i := 0;
      while i < numRepeats
        invariant 0 <= i <= Repeats(numRepeats)
        invariant 0 < i ==> !old(executor.isShutdown)
        invariant executor.isShutdown == old(executor.isShutdown)
        invariant executor.clock == ImmediateClock(start, i, d)
        invariant executor.futures == old(executor.futures) + ImmediateFutures(start, i, d)
        invariant executor.trace == old(executor.trace) + ImmediateTrace(first, i, d)
        invariant executor.Valid()
      {
        ghost var before := executor.trace;
        var f := ScheduleWithFixedDelay(if i == 0 then 0 else delay, unit);
        if f.RejectedExecution? {
          assert i == 0;
          return RejectedExecution;
        }
        assert executor.futures[f.value].deadline == start + i * pause;
        executor.Sleep(GetIntermission(f.value));
        assert (i + 1) * pause == i * pause + pause;
        assert executor.trace == before + [Submitted(first + i), Slept(ImmediateDelay(i, d) + SafetyMarginMillis)];
        i := i + 1;
      }
      r := Returned(());
    }

    /** The event variants with the first repetition immediate: the event fires once, after the last one. */
    method RepeatFirstImmediatelyAndNotify(numRepeats: int, delay: int, unit: TimeUnit, eventName: string) returns (r: Outcome<()>)
      requires executor.Valid()
      modifies executor
      ensures executor.Valid()
      ensures ImmediatelyRepeatedThen(numRepeats, delay, unit, r, [Dispatched(eventName, [])])
    {
      r := RepeatFirstImmediately(numRepeats, delay, unit);
      if r.RejectedExecution? {
        return;
      }
      InvokeAfterTasks(eventName);
    }

    /** delete(future): cancel(true) on that future alone. */
    method Delete(handle: nat)
      requires handle < |executor.futures|
      requires executor.Valid()
      modifies executor
      ensures executor.Valid()
      ensures executor.futures == old(executor.futures)[handle := old(executor.futures)[handle].(cancelled := true)]
      ensures executor.trace == old(executor.trace) + [Cancelled(handle)]
      ensures executor.clock == old(executor.clock) && executor.isShutdown == old(executor.isShutdown)
    {
      executor.Cancel(handle);
    }

    /** delete(future, eventName): cancels, then fires the event. */
    method DeleteAndNotify(handle: nat, eventName: string)
      requires handle < |executor.futures|
      requires executor.Valid()
      modifies executor
      ensures executor.Valid()
      ensures executor.futures == old(executor.futures)[handle := old(executor.futures)[handle].(cancelled := true)]
      ensures executor.trace == old(executor.trace) + [Cancelled(handle), Dispatched(eventName, [])]
      ensures executor.clock == old(executor.clock) && executor.isShutdown == old(executor.isShutdown)
    {
      executor.Cancel(handle);
      InvokeAfterTasks(eventName);
    }

    /** deleteAll(futures...): delete on each future, in argument order. */
    method DeleteAll(handles: seq<nat>)
      requires forall k :: 0 <= k < |handles| ==> handles[k] < |executor.futures|
      requires executor.Valid()
      modifies executor
      ensures executor.Valid()
      ensures executor.futures == WithCancelled(old(executor.futures), handles)
      ensures executor.trace == old(executor.trace) + CancelTrace(handles)
      ensures executor.clock == old(executor.clock) && executor.isShutdown == old(executor.isShutdown)
    {
      for i := 0 to |handles|
        invariant executor.futures == WithCancelled(old(executor.futures), handles[..i])
        invariant executor.trace == old(executor.trace) + CancelTrace(handles[..i])
        invariant executor.Valid()
        invariant executor.clock == old(executor.clock) && executor.isShutdown == old(executor.isShutdown)
      {
        Delete(handles[i]);
        assert handles[..i + 1][..i] == handles[..i];
      }
      assert handles[..|handles|] == handles;
    }

    /** deleteAll(eventName, futures...): deletes each future in order, then fires the event once. */
    method DeleteAllAndNotify(eventName: string, handles: seq<nat>)
      requires forall k :: 0 <= k < |handles| ==> handles[k] < |executor.futures|
      requires executor.Valid()
      modifies executor
      ensures executor.Valid()
      ensures executor.futures == WithCancelled(old(executor.futures), handles)
      ensures executor.trace == old(executor.trace) + CancelTrace(handles) + [Dispatched(eventName, [])]
      ensures executor.clock == old(executor.clock) && executor.isShutdown == old(executor.isShutdown)
    {
      DeleteAll(handles);
      InvokeAfterTasks(eventName);
    }

    /** shutdown(): 1 when the pool reports itself shut down afterwards, else 0; it always does. */
    method Shutdown() returns (r: int)
      requires executor.Valid()
      modifies executor
      ensures executor.Valid()
      ensures r == (if executor.isShutdown then 1 else 0)
      ensures r == 1
      ensures executor.clock == old(executor.clock) && executor.futures == old(executor.futures)
      ensures executor.trace == old(executor.trace) + [ShutDown]
    {
      executor.Shutdown();
      if executor.isShutdown {
        r := 1;
      } else {
        r := 0;
      }
    }

    /** shutdownNow(): as shutdown, through the pool's shutdownNow. */
    method ShutdownNow() returns (r: int)
      requires executor.Valid()
      modifies executor
      ensures executor.Valid()
      ensures r == (if executor.isShutdown then 1 else 0)
      ensures r == 1
      ensures executor.clock == old(executor.clock) && executor.futures == old(executor.futures)
      ensures executor.trace == old(executor.trace) + [ShutDownNow]
    {
      executor.ShutdownNow();
      if executor.isShutdown {
        r := 1;
      } else {
        r := 0;
      }
    }
  }

  // ---------------------------------------------------------------------------
  // Properties of the traces and futures the scheduler leaves behind

  /** The polls stop at the first clock reading at or past the target. */
  lemma PollCountIsLeast(now: int, target: int, polls: nat)
    requires now < target
    requires target <= now + polls * PollMillis
    requires now + polls * PollMillis < target + PollMillis
    ensures polls == PollCount(now, target)
  {
  }

  lemma CountSingle(a: Action, k: Kind)
    ensures Count([a], k) == if KindOf(a) == k then 1 else 0
  {
    assert [a][..0] == [];
  }

  lemma {:induction false} CountConcat(a: seq<Action>, b: seq<Action>, k: Kind)
    ensures Count(a + b, k) == Count(a, k) + Count(b, k)
    decreases |b|
  {
    if b == [] {
      assert a + b == a;
    } else {
      var b' := b[..|b| - 1];
      assert (a + b)[..|a + b| - 1] == a + b';
      CountConcat(a, b', k);
      CountSingle(b[|b| - 1], k);
    }
  }

  /** Each repetition submits the next handle and then sleeps: submit, sleep, submit, sleep, ... */
  lemma {:induction false} RepeatTraceShape(first: nat, n: nat, pause: nat)
    ensures forall k :: 0 <= k < n ==>
      RepeatTrace(first, n, pause)[2 * k] == Submitted(first + k) &&
      RepeatTrace(first, n, pause)[2 * k + 1] == Slept(pause)
  {
    if n > 0 {
      RepeatTraceShape(first, n - 1, pause);
    }
  }

  /** A repetition loop submits exactly `n` times, sleeps `n` times and dispatches never. */
  lemma {:induction false} RepeatTraceCounts(first: nat, n: nat, pause: nat)
    ensures Count(RepeatTrace(first, n, pause), SubmitKind) == n
    ensures Count(RepeatTrace(first, n, pause), SleepKind) == n
    ensures Count(RepeatTrace(first, n, pause), DispatchKind) == 0
    ensures Count(RepeatTrace(first, n, pause), CancelKind) == 0
  {
    if n > 0 {
      var step := [Submitted(first + n - 1), Slept(pause)];
      assert RepeatTrace(first, n, pause) == RepeatTrace(first, n - 1, pause) + step;
      RepeatTraceCounts(first, n - 1, pause);
      CountConcat(RepeatTrace(first, n - 1, pause), step, SubmitKind);
      CountConcat(RepeatTrace(first, n - 1, pause), step, SleepKind);
      CountConcat(RepeatTrace(first, n - 1, pause), step, DispatchKind);
      CountConcat(RepeatTrace(first, n - 1, pause), step, CancelKind);
      forall k: Kind ensures Count(step, k) == Count([step[0]], k) + Count([step[1]], k) {
        assert step == [step[0]] + [step[1]];
        CountConcat([step[0]], [step[1]], k);
      }
    }
  }

  /**
   * The "and notify" repetitions: exactly max(numRepeats, 0) submissions, and exactly
   * one dispatch, which is the last action.
   */
  lemma RepeatThenDispatch(first: nat, numRepeats: int, pause: nat, eventName: string)
    ensures var t := RepeatTrace(first, Repeats(numRepeats), pause) + [Dispatched(eventName, [])];
      && Count(t, SubmitKind) == Repeats(numRepeats)
      && Count(t, DispatchKind) == 1
      && t[|t| - 1] == Dispatched(eventName, [])
  {
    var n := Repeats(numRepeats);
    RepeatTraceCounts(first, n, pause);
    CountConcat(RepeatTrace(first, n, pause), [Dispatched(eventName, [])], SubmitKind);
    CountConcat(RepeatTrace(first, n, pause), [Dispatched(eventName, [])], DispatchKind);
    assert [Dispatched(eventName, [])][..0] == [];
  }

  /**
   * The k-th repetition's future is due `delay` after its submission at
   * start + k * (delay + margin); none is cancelled.
   */
  lemma {:induction false} RepeatFuturesShape(start: int, n: nat, delay: nat)
    ensures forall k :: 0 <= k < n ==>
      RepeatFutures(start, n, delay)[k] == Future(start + k * (delay + SafetyMarginMillis) + delay, false)
  {
    if n > 0 {
      RepeatFuturesShape(start, n - 1, delay);
    }
  }

  /** Consecutive repetitions fall due exactly delay + margin apart. */
  lemma RepeatFuturesSpacing(start: int, n: nat, delay: nat, k: nat)
    requires k + 1 < n
    ensures RepeatFutures(start, n, delay)[k + 1].deadline ==
            RepeatFutures(start, n, delay)[k].deadline + delay + SafetyMarginMillis
  {
    RepeatFuturesShape(start, n, delay);
  }

  /** deleteAll cancels in argument order: the k-th cancellation is of the k-th argument, and nothing else is traced. */
  lemma {:induction false} CancelTraceCounts(handles: seq<nat>)
    ensures Count(CancelTrace(handles), CancelKind) == |handles|
    ensures Count(CancelTrace(handles), DispatchKind) == 0
    decreases |handles|
  {
    if handles != [] {
      var init := handles[..|handles| - 1];
      CancelTraceCounts(init);
      CountConcat(CancelTrace(init), [Cancelled(handles[|handles| - 1])], CancelKind);
      CountConcat(CancelTrace(init), [Cancelled(handles[|handles| - 1])], DispatchKind);
    }
  }

  /** Cancelling a second time is a no-op. */
  lemma CancelTwice(fs: seq<Future>, handles: seq<nat>)
    requires forall k :: 0 <= k < |handles| ==> handles[k] < |fs|
    ensures WithCancelled(WithCancelled(fs, handles), handles) == WithCancelled(fs, handles)
  {
  }

  /** Cancelling in two batches is cancelling all at once. */
  lemma CancelInBatches(fs: seq<Future>, h1: seq<nat>, h2: seq<nat>)
    requires forall k :: 0 <= k < |h1| ==> h1[k] < |fs|
    requires forall k :: 0 <= k < |h2| ==> h2[k] < |fs|
    ensures WithCancelled(WithCancelled(fs, h1), h2) == WithCancelled(fs, h1 + h2)
  {
  }

  lemma {:induction false} PollsShape(n: nat)
    ensures |Polls(n)| == n
    ensures forall k :: 0 <= k < n ==> Polls(n)[k] == Slept(PollMillis)
  {
    if n > 0 {
      PollsShape(n - 1);
    }
  }

  /** As written, even the first repetition waits the full delay. */
  lemma FirstRepetitionDelayed(start: int, n: nat, delay: nat)
    requires 0 < n
    ensures RepeatFutures(start, n, delay)[0].deadline == start + delay
  {
    RepeatFuturesShape(start, n, delay);
  }

  /**
   * With the first repetition immediate, future k is due k * (delay + margin) after the
   * start: the first at once, and consecutive ones delay + margin apart.
   */
  lemma {:induction false} ImmediateFuturesShape(start: int, n: nat, delay: nat)
    ensures forall k :: 0 <= k < n ==>
      ImmediateFutures(start, n, delay)[k] == Future(start + k * (delay + SafetyMarginMillis), false)
  {
    if n > 0 {
      ImmediateFuturesShape(start, n - 1, delay);
    }
  }

  /** With the first repetition immediate, the first future is due when the loop starts. */
  lemma FirstRepetitionImmediate(start: int, n: nat, delay: nat)
    requires 0 < n
    ensures ImmediateFutures(start, n, delay)[0].deadline == start
    ensures forall k :: 0 <= k < n - 1 ==>
      ImmediateFutures(start, n, delay)[k + 1].deadline == ImmediateFutures(start, n, delay)[k].deadline + delay + SafetyMarginMillis
  {
    ImmediateFuturesShape(start, n, delay);
  }

  /** Repetition k submits handle first+k, then sleeps its own delay plus the margin. */
  lemma {:induction false} ImmediateTraceShape(first: nat, n: nat, delay: nat)
    ensures forall k :: 0 <= k < n ==>
      ImmediateTrace(first, n, delay)[2 * k] == Submitted(first + k) &&
      ImmediateTrace(first, n, delay)[2 * k + 1] == Slept(ImmediateDelay(k, delay) + SafetyMarginMillis)
  {
    if n > 0 {
      ImmediateTraceShape(first, n - 1, delay);
    }
  }

  /** The submission record of a trace has one entry per submission. */
  lemma {:induction false} SubmittedHandlesCount(t: seq<Action>)
    ensures |SubmittedHandles(t)| == Count(t, SubmitKind)
    decreases |t|
  {
    if t != [] {
      SubmittedHandlesCount(t[..|t| - 1]);
    }
  }

  /**
   * In a pool that keeps its invariant, the trace holds exactly one submission per
   * future, and the submissions name strictly increasing handles: none is issued twice.
   */
  lemma ValidSubmissions(e: ScheduledExecutor)
    requires e.Valid()
    ensures Count(e.trace, SubmitKind) == |e.futures|
    ensures forall i, j :: 0 <= i < j < |SubmittedHandles(e.trace)| ==>
      SubmittedHandles(e.trace)[i] < SubmittedHandles(e.trace)[j]
  {
    SubmittedHandlesCount(e.trace);
  }
}
