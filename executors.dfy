/**
 * An abstract scheduled thread pool (java.util.concurrent's ScheduledExecutorService
 * as Scheduler uses it), together with the clock the calling thread sleeps on and a
 * record of what happened, in order.
 *
 * Time is a logical clock in whole milliseconds. A submitted unit of work is known only
 * by its handle, an index into `futures`; a future is its deadline (the clock reading
 * from which it may run) and its cancelled flag. Task bodies never run in the model.
 */
module Executors {
  import opened AfterTask

  datatype TimeUnit = Nanoseconds | Microseconds | Milliseconds | Seconds | Minutes | Hours | Days

  /** The length of one unit in nanoseconds, the finest unit TimeUnit has. */
  function NanosPer(unit: TimeUnit): (r: nat)
  {
    match unit
    case Nanoseconds => 1
    case Microseconds => 1_000
    case Milliseconds => 1_000_000
    case Seconds => 1_000_000_000
    case Minutes => 60_000_000_000
    case Hours => 3_600_000_000_000
    case Days => 86_400_000_000_000
  }

  /**
   * TimeUnit.toMillis of a non-negative duration: the whole number of milliseconds in
   * it, so that units finer than a millisecond truncate.
   */
  function ToMillis(d: nat, unit: TimeUnit): (r: nat)
    ensures r * 1_000_000 <= d * NanosPer(unit) < r * 1_000_000 + 1_000_000
  {
    match unit
    case Nanoseconds => d / 1_000_000
    case Microseconds => d / 1_000
    case Milliseconds => d
    case Seconds => d * 1_000
    case Minutes => d * 60_000
    case Hours => d * 3_600_000
    case Days => d * 86_400_000
  }

  /** The delay `schedule` waits, in milliseconds: a negative delay counts as none. */
  function DelayMillis(delay: int, unit: TimeUnit): (r: nat)
    ensures delay <= 0 ==> r == 0
    ensures delay >= 0 ==> r * 1_000_000 <= delay * NanosPer(unit) < r * 1_000_000 + 1_000_000
  {
    if delay < 0 then 0 else ToMillis(delay, unit)
  }

  datatype Future = Future(deadline: int, cancelled: bool)

  /** One step the scheduler makes happen. */
  datatype Action =
    | Submitted(handle: nat)                               // work handed to the pool
    | Slept(millis: nat)                                   // Thread.sleep on the calling thread
    | Dispatched(eventName: string, invoked: seq<Method>)  // an @AfterTask event and the handlers it invoked
    | Cancelled(handle: nat)                               // cancel(true) on a future
    | ShutDown
    | ShutDownNow

  /** The handles named by the submissions of a trace, in order. */
  function SubmittedHandles(t: seq<Action>): (r: seq<nat>)
  {
    if t == [] then []
    else SubmittedHandles(t[..|t| - 1]) + (if t[|t| - 1].Submitted? then [t[|t| - 1].handle] else [])
  }

  lemma SubmittedHandlesAppend(t: seq<Action>, a: Action)
    ensures SubmittedHandles(t + [a]) == SubmittedHandles(t) + (if a.Submitted? then [a.handle] else [])
  {
    assert (t + [a])[..|t|] == t;
  }

  /** The handles 0, 1, ..., n - 1. */
  function Handles(n: nat): (r: seq<nat>)
    ensures |r| == n
    ensures forall i :: 0 <= i < n ==> r[i] == i
  {
    if n == 0 then [] else Handles(n - 1) + [n - 1]
  }

  /** How a call that hands work to the pool ends: normally, or with RejectedExecutionException. */
  datatype Outcome<+T> = Returned(value: T) | RejectedExecution

  class ScheduledExecutor {
    const corePoolSize: nat
    var clock: int
    var isShutdown: bool
    var futures: seq<Future>
    var trace: seq<Action>

    /** Every future was submitted exactly once, and handles are issued in submission order. */
    predicate Valid()
      reads this
    {
      SubmittedHandles(trace) == Handles(|futures|)
    }

    constructor (corePoolSize: nat, now: int)
      ensures Valid()
      ensures this.corePoolSize == corePoolSize
      ensures clock == now && !isShutdown && futures == [] && trace == []
    {
      this.corePoolSize := corePoolSize;
      clock, isShutdown, futures, trace := now, false, [], [];
    }

    /** Compared with the old state only the trace changed: `actions` were appended to it. */
    twostate predicate Appended(actions: seq<Action>)
      reads this
    {
      && clock == old(clock)
      && isShutdown == old(isShutdown)
      && futures == old(futures)
      && trace == old(trace) + actions
    }

    /** getDelay in milliseconds: how long until the future may run (none left once it is due). */
    function GetDelay(handle: nat): (r: int)
      reads this
      requires handle < |futures|
      ensures clock + r == futures[handle].deadline
      ensures r > 0 <==> clock < futures[handle].deadline
    {
      futures[handle].deadline - clock
    }

    /**
     * schedule(task, delay, unit): a new future due `DelayMillis(delay, unit)` from now;
     * rejected, with nothing changed, once the pool is shut down.
     */
    method Schedule(delay: int, unit: TimeUnit) returns (r: Outcome<nat>)
      requires Valid()
      modifies this
      ensures Valid()
      ensures clock == old(clock) && isShutdown == old(isShutdown)
      ensures old(isShutdown) ==> r == RejectedExecution && futures == old(futures) && trace == old(trace)
      ensures !old(isShutdown) ==>
        && r == Returned(|old(futures)|)
        && futures == old(futures) + [Future(clock + DelayMillis(delay, unit), false)]
        && trace == old(trace) + [Submitted(|old(futures)|)]
        && GetDelay(r.value) == DelayMillis(delay, unit)
    {
      if isShutdown {
        return RejectedExecution;
      }
      r := Returned(|futures|);
      SubmittedHandlesAppend(trace, Submitted(r.value));
      futures := futures + [Future(clock + DelayMillis(delay, unit), false)];
      trace := trace + [Submitted(r.value)];
    }

    /** submit(task): scheduling with no delay. */
    method Submit() returns (r: Outcome<nat>)
      requires Valid()
      modifies this
      ensures Valid()
      ensures clock == old(clock) && isShutdown == old(isShutdown)
      ensures old(isShutdown) ==> r == RejectedExecution && futures == old(futures) && trace == old(trace)
      ensures !old(isShutdown) ==>
        && r == Returned(|old(futures)|)
        && futures == old(futures) + [Future(clock, false)]
        && trace == old(trace) + [Submitted(|old(futures)|)]
    {
      r := Schedule(0, Nanoseconds);
    }

    /** cancel(true): the future is flagged cancelled (again, if it already was); nothing else changes. */
    method Cancel(handle: nat)
      requires handle < |futures|
      requires Valid()
      modifies this
      ensures Valid()
      ensures clock == old(clock) && isShutdown == old(isShutdown)
      ensures futures == old(futures)[handle := old(futures)[handle].(cancelled := true)]
      ensures trace == old(trace) + [Cancelled(handle)]
    {
      futures := futures[handle := futures[handle].(cancelled := true)];
      SubmittedHandlesAppend(trace, Cancelled(handle));
      trace := trace + [Cancelled(handle)];
    }

    /** Thread.sleep(millis) on the calling thread: the clock moves on by exactly `millis`. */
    method Sleep(millis: nat)
      requires Valid()
      modifies this
      ensures Valid()
      ensures clock == old(clock) + millis
      ensures isShutdown == old(isShutdown) && futures == old(futures)
      ensures trace == old(trace) + [Slept(millis)]
    {
      clock := clock + millis;
      SubmittedHandlesAppend(trace, Slept(millis));
      trace := trace + [Slept(millis)];
    }

    /** shutdown(): no new work is accepted from now on. */
    method Shutdown()
      requires Valid()
      modifies this
      ensures Valid()
      ensures isShutdown
      ensures clock == old(clock) && futures == old(futures)
      ensures trace == old(trace) + [ShutDown]
    {
      isShutdown := true;
      SubmittedHandlesAppend(trace, ShutDown);
      trace := trace + [ShutDown];
    }

    /** shutdownNow(): as shutdown(), and running work is interrupted (not modelled). */
    method ShutdownNow()
      requires Valid()
      modifies this
      ensures Valid()
      ensures isShutdown
      ensures clock == old(clock) && futures == old(futures)
      ensures trace == old(trace) + [ShutDownNow]
    {
      isShutdown := true;
      SubmittedHandlesAppend(trace, ShutDownNow);
      trace := trace + [ShutDownNow];
    }

    /** Records that the calling thread dispatched `eventName`, invoking `invoked`. */
    method RecordDispatch(eventName: string, invoked: seq<Method>)
      requires Valid()
      modifies this
      ensures Valid()
      ensures Appended([Dispatched(eventName, invoked)])
    {
      SubmittedHandlesAppend(trace, Dispatched(eventName, invoked));
      trace := trace + [Dispatched(eventName, invoked)];
    }
  }
}
