# SchedulerLibrary in Dafny

A model of the SchedulerLibrary core in Dafny, with proofs about it. The core has two parts.

- **The `@AfterTask` handler registry** (`AfterTaskExecutor`). It scans classes for methods annotated `@AfterTask`. `getAllMethods` keeps every annotated method; `getSpecificMethods` keeps only those whose annotation name equals an event name. `invokeMethods` then calls the collected static methods in order. It skips the non-static ones and stops at the first call that throws.
- **The control-flow skeleton of `Scheduler`**. This is the order in which each public method:
  - submits work to the thread pool;
  - makes the calling thread sleep;
  - cancels futures;
  - fires its `@AfterTask` event ("dispatch").

  It also covers:
  - how many submissions the repetition loops make;
  - the guard of the date-triggered variants;
  - the `getIntermission` arithmetic;
  - the pool-size argument;
  - the shutdown return codes.

Files:

- `wrappers.dfy`, module `Wrappers`: `Option`, for nullable references and absent annotations.
- `after_task.dfy`, module `AfterTask`. Reflection is turned into data:
  - a class is its declared methods, in the order the scan meets them;
  - a method records its `@AfterTask` name, whether it is static, and whether a reflective call on it completes or throws.

  The two scans and `invokeMethods` are imperative loops. Each is proved equal to a specification function: `Scan`, `Select` or `Statics`. The properties are lemmas about those functions.
- `executors.dfy`, module `Executors`: the JDK's `ScheduledExecutorService` as an abstract class `ScheduledExecutor`. It holds:
  - a logical clock in milliseconds;
  - the shut-down flag;
  - the submitted futures, each with a deadline and a cancelled flag; a future's handle is its index;
  - a trace of every action taken.

  `Thread.sleep(d)` moves the clock on by `d` and records it. `getDelay` is deadline minus clock. The invariant `Valid()` holds before and after every operation: the trace's submissions name the handles 0, 1, 2, … in order, one per future.
- `scheduling.dfy`, module `Scheduling`: class `Scheduler`, built on a `ScheduledExecutor`. Every ordering and counting promise is stated on the executor's trace and futures. Functions on values describe what the loops leave behind, and lemmas prove their properties. These are `RepeatTrace`, `RepeatFutures`, `CancelTrace`, `WithCancelled`, `Polls` and `Count`, plus `ImmediateTrace` and `ImmediateFutures` for the corrected repetition loop.
- `demo.dfy`, module `Demo`: the demonstration program `Main.java` followed through the model. It has the annotated methods of `Main`, its `scheduleWithFixedDelay(1, SECONDS, …, "dialogEvent")` call, and the concrete inputs that show the three findings below.

Overloads that differ only in their task type are one member each. This covers:
- `Runnable` and `Callable`;
- the `ScheduledFuture` and `CompletableFuture` versions of `delete` and `deleteAll`.

Their bodies are identical apart from the types. Every "notify" dispatch in `Scheduler` calls `getSpecificMethods(eventName)` with no classes. By the registry's own logic that list is empty, so no handler is ever invoked through the scheduler. `Scheduler.InvokeAfterTasks` proves this: the dispatched event is always recorded as `Dispatched(eventName, [])`.

## Model

| member | source | states |
|---|---|---|
| AfterTask.GetSpecificMethods | src/main/java/com/mimo/scheduler/aftertask/AfterTaskExecutor.java:10-22 | The result is the scan with an event selector: class by class in argument order, and each class's annotated methods whose name equals `eventName`, in scan order. With no classes the result is empty. |
| AfterTask.GetAllMethods | src/main/java/com/mimo/scheduler/aftertask/AfterTaskExecutor.java:24-34 | The result is the scan keeping every annotated method, in class order and then scan order. With no classes the result is empty. |
| AfterTask.InvokeMethods | src/main/java/com/mimo/scheduler/aftertask/AfterTaskExecutor.java:36-42 | Nothing is thrown exactly when no static method of the list fails. Then the calls made are exactly the static methods, in list order. Otherwise the first failing static method is thrown; the calls made are the static methods up to and including it, and none after it. The calls always form a prefix of the static methods. |
| AfterTask.SelectMembership | src/main/java/com/mimo/scheduler/aftertask/AfterTaskExecutor.java:13-18 | A method is kept from one class exactly when it is declared there and carries a matching annotation. |
| AfterTask.ScanMembership | src/main/java/com/mimo/scheduler/aftertask/AfterTaskExecutor.java:10-21 | A method is in the scan result exactly when it is declared in one of the classes and carries a matching annotation: an exactly equal name, or any name for `getAllMethods`. Untagged methods and methods of other events never appear. |
| AfterTask.SelectConcat | src/main/java/com/mimo/scheduler/aftertask/AfterTaskExecutor.java:13-19 | Filtering one class's methods distributes over concatenation of the method list. |
| AfterTask.ScanConcat | src/main/java/com/mimo/scheduler/aftertask/AfterTaskExecutor.java:12-20 | Both scans distribute over concatenation of the class list: `scan(c1 + c2) == scan(c1) + scan(c2)`. |
| AfterTask.ScanSingle | src/main/java/com/mimo/scheduler/aftertask/AfterTaskExecutor.java:10-34 | For either scan, a single class yields that class's matching methods in scan order. |
| AfterTask.SelectEventOfAnnotated | src/main/java/com/mimo/scheduler/aftertask/AfterTaskExecutor.java:14-15 | Keeping the annotated methods and then those of one name is the same as keeping those of that name directly. |
| AfterTask.SpecificIsFilteredAll | src/main/java/com/mimo/scheduler/aftertask/AfterTaskExecutor.java:10-34 | `getSpecificMethods(name, cs)` is `getAllMethods(cs)` filtered by annotation name. |
| AfterTask.SelectIsSubsequence | src/main/java/com/mimo/scheduler/aftertask/AfterTaskExecutor.java:13-19 | What one class contributes is a subsequence of its declared methods: order is kept. |
| AfterTask.SpecificIsSubsequenceOfAll | src/main/java/com/mimo/scheduler/aftertask/AfterTaskExecutor.java:10-34 | The methods of one event are a subsequence of all annotated methods. |
| AfterTask.StaticsOfPrefix | src/main/java/com/mimo/scheduler/aftertask/AfterTaskExecutor.java:37-41 | The calls made on a prefix of the list are a prefix of the calls made on the whole list. An early exit therefore only cuts the call sequence short. |
| AfterTask.StaticsOfInstanceMethods | src/main/java/com/mimo/scheduler/aftertask/AfterTaskExecutor.java:38 | A list of instance methods only leads to no calls. That they are skipped without error follows from `InvokeMethods`' first ensures: nothing is thrown when no static method fails. |
| AfterTask.StaticsMembership | src/main/java/com/mimo/scheduler/aftertask/AfterTaskExecutor.java:37-41 | A method is called exactly when it is in the list and static. |
| AfterTask.StaticsIsSubsequence | src/main/java/com/mimo/scheduler/aftertask/AfterTaskExecutor.java:37-41 | The calls follow list order: they form a subsequence of the list. |
| Executors.Handles | src/main/java/com/mimo/scheduler/Scheduler.java:27 | The first `n` handles are 0 to n-1, in that order. |
| Executors.ToMillis | src/main/java/com/mimo/scheduler/Scheduler.java:76 | `TimeUnit.toMillis` of a non-negative duration is the whole number of milliseconds in it. Measured against the unit's length in nanoseconds, the result times 10^6 is at most the duration, and less than 10^6 below it; finer units therefore truncate. |
| Executors.DelayMillis | src/main/java/com/mimo/scheduler/Scheduler.java:76 | The whole milliseconds the model's `schedule` adds to its clock: none for a delay of zero or less, otherwise the delay in milliseconds, truncated as by `ToMillis`. The JDK pool keeps the finer nanosecond deadline; see Left out. |
| Executors.SubmittedHandlesAppend | src/main/java/com/mimo/scheduler/Scheduler.java:27 | Appending an action to the trace appends its handle to the submission record when the action is a submission, and leaves the record unchanged otherwise. |
| Executors.ScheduledExecutor.constructor | src/main/java/com/mimo/scheduler/Scheduler.java:15 | A fresh pool of the given size, at the given clock reading: not shut down, with no futures and an empty trace. |
| Executors.ScheduledExecutor.GetDelay | src/main/java/com/mimo/scheduler/Scheduler.java:397 | The clock plus the remaining delay is the future's deadline. The delay is positive exactly while the future is not yet due. |
| Executors.ScheduledExecutor.Schedule | src/main/java/com/mimo/scheduler/Scheduler.java:76 | Once shut down, the call is rejected and nothing changes. Otherwise a new future is appended, due the delay in milliseconds from now (none for a negative delay), and its handle is returned and recorded. Right afterwards `getDelay` on that handle is exactly that delay. The clock does not move. |
| Executors.ScheduledExecutor.Submit | src/main/java/com/mimo/scheduler/Scheduler.java:27 | As `Schedule` with no delay: the new future is due at once. |
| Executors.ScheduledExecutor.Cancel | src/main/java/com/mimo/scheduler/Scheduler.java:300 | Only the named future is flagged cancelled. The cancellation is recorded, and clock and shut-down flag are unchanged. |
| Executors.ScheduledExecutor.Sleep | src/main/java/com/mimo/scheduler/Scheduler.java:90 | The clock moves on by exactly the given number of milliseconds. The sleep is recorded, and nothing else changes. |
| Executors.ScheduledExecutor.Shutdown | src/main/java/com/mimo/scheduler/Scheduler.java:421 | Afterwards the pool is shut down. The futures and the clock are unchanged. |
| Executors.ScheduledExecutor.ShutdownNow | src/main/java/com/mimo/scheduler/Scheduler.java:407 | Afterwards the pool is shut down, by the immediate variant. The futures and the clock are unchanged. |
| Executors.ScheduledExecutor.RecordDispatch | src/main/java/com/mimo/scheduler/Scheduler.java:38 | Only the trace changes: the dispatch is appended to it. |
| Scheduling.Scheduler.constructor | src/main/java/com/mimo/scheduler/Scheduler.java:14-17 | The pool has `PoolSize` = 2 threads whatever `numThreads` is. It starts not shut down, with no futures and an empty trace. |
| Scheduling.Scheduler.WithPoolSize | src/main/java/com/mimo/scheduler/Scheduler.java:14-17 | The corrected constructor: the pool has `numThreads` threads. |
| Scheduling.Scheduler.GetIntermission | src/main/java/com/mimo/scheduler/Scheduler.java:396-398 | On the logical clock, the clock plus the intermission is the future's deadline plus 3 ms. Sleeping that long therefore ends 3 ms after the future is due there. The real timings differ; see Left out. |
| Scheduling.Scheduler.InvokeAfterTasks | src/main/java/com/mimo/scheduler/Scheduler.java:38 | Dispatching resolves against zero classes. It invokes no handler, throws nothing, and only appends `Dispatched(eventName, [])` to the trace. |
| Scheduling.Scheduler.Run | src/main/java/com/mimo/scheduler/Scheduler.java:26-28 | Submits once with no delay and returns the new handle; after shutdown it is rejected with nothing changed. Also `run(Callable)` at lines 49-51. |
| Scheduling.Scheduler.RunAndNotify | src/main/java/com/mimo/scheduler/Scheduler.java:37-40 | The trace gains the dispatch and then the submission. The dispatch comes before the submission, and nothing is dispatched after it. After shutdown the dispatch still happens and the submission is rejected. Also lines 62-65. |
| Scheduling.Scheduler.ScheduleWithFixedDelay | src/main/java/com/mimo/scheduler/Scheduler.java:75-77 | Schedules once, due `delay` from now, and returns that handle; after shutdown it is rejected with nothing changed. Also lines 104-106. |
| Scheduling.Scheduler.ScheduleWithFixedDelayAndNotify | src/main/java/com/mimo/scheduler/Scheduler.java:88-93 | In strict order, the trace gains: the scheduling of `h`, a sleep of the delay plus 3 ms, then the dispatch. The method returns that same `h`, and ends 3 ms past h's deadline. Also lines 119-124. |
| Scheduling.Scheduler.ScheduleAtFixedLocalDateTime | src/main/java/com/mimo/scheduler/Scheduler.java:134-146 | As written: a target not strictly after now returns null and changes nothing. A later target submits exactly once, at once, while the clock is still before the target. The poll loop never runs. Also lines 181-193. |
| Scheduling.Scheduler.ScheduleAtFixedLocalDateTimeAndNotify | src/main/java/com/mimo/scheduler/Scheduler.java:156-169 | As written: a target not strictly after now returns null, with nothing dispatched or submitted. Otherwise the trace gains the dispatch and then exactly one submission, made before the target. Also lines 205-218. |
| Scheduling.Scheduler.PollUntil | src/main/java/com/mimo/scheduler/Scheduler.java:136-142 | The corrected wait loop. It sleeps 1000 ms exactly `PollCount` times and stops at the first reading at or past the target, less than one poll past it. Nothing but the clock and the trace changes. |
| Scheduling.Scheduler.ScheduleAtFixedLocalDateTimeAwaited | src/main/java/com/mimo/scheduler/Scheduler.java:135-143 | The corrected variant without an event. A target not after now returns null with nothing changed. Otherwise it polls `PollCount` times and then submits once, at the first poll reading at or past the target, which is less than one poll late. |
| Scheduling.Scheduler.ScheduleAtFixedLocalDateTimeAwaitedAndNotify | src/main/java/com/mimo/scheduler/Scheduler.java:157-166 | The corrected variant with an event. A target not after now returns null with nothing changed. Otherwise: the polls, then the dispatch, then exactly one submission, at the first poll reading at or past the target. After shutdown the dispatch still happens and the submission is rejected. |
| Scheduling.Scheduler.Repeat | src/main/java/com/mimo/scheduler/Scheduler.java:231-234 | max(numRepeats, 0) repetitions of "schedule, then sleep for its intermission". The futures are `RepeatFutures`, the trace gains `RepeatTrace`, and the clock advances `n * (delay + 3)`. When shut down, it is rejected at the first repetition with nothing changed. |
| Scheduling.Scheduler.ScheduleAtFixedRateNow | src/main/java/com/mimo/scheduler/Scheduler.java:230-235 | The repetition loop as in `Repeat`, with nothing after it. |
| Scheduling.Scheduler.ScheduleAtFixedRateNowAndNotify | src/main/java/com/mimo/scheduler/Scheduler.java:248-254 | The repetition loop, followed by exactly one dispatch. |
| Scheduling.Scheduler.ScheduleAtFixedRate | src/main/java/com/mimo/scheduler/Scheduler.java:267-272 | The repetition loop as in `Repeat`, with nothing after it. |
| Scheduling.Scheduler.ScheduleAtFixedRateAndNotify | src/main/java/com/mimo/scheduler/Scheduler.java:285-291 | The repetition loop, followed by exactly one dispatch. |
| Scheduling.Scheduler.RepeatFirstImmediately | src/main/java/com/mimo/scheduler/Scheduler.java:222-234 | The corrected repetition loop: max(numRepeats, 0) repetitions. The first is scheduled with no delay, each later one with `delay`, and each is followed by its intermission sleep. The futures are `ImmediateFutures`, the trace gains `ImmediateTrace`, and the clock ends at `ImmediateClock`. When shut down, it is rejected at the first repetition with nothing changed. |
| Scheduling.Scheduler.RepeatFirstImmediatelyAndNotify | src/main/java/com/mimo/scheduler/Scheduler.java:238-254 | The corrected loop, followed by exactly one dispatch. |
| Scheduling.Scheduler.Delete | src/main/java/com/mimo/scheduler/Scheduler.java:299-301 | Only the named future is flagged cancelled, and the cancellation is recorded. Also lines 320-322. |
| Scheduling.Scheduler.DeleteAndNotify | src/main/java/com/mimo/scheduler/Scheduler.java:310-313 | Cancels, then dispatches. Only the named future changes. Also lines 331-334. |
| Scheduling.Scheduler.DeleteAll | src/main/java/com/mimo/scheduler/Scheduler.java:342-346 | The futures become `WithCancelled(old, handles)`, and the trace gains one cancellation per argument, in argument order. Also lines 368-372. |
| Scheduling.Scheduler.DeleteAllAndNotify | src/main/java/com/mimo/scheduler/Scheduler.java:355-360 | Every handle is cancelled in argument order, then exactly one dispatch follows. Also lines 381-386. |
| Scheduling.Scheduler.Shutdown | src/main/java/com/mimo/scheduler/Scheduler.java:420-427 | Returns 1 exactly when the pool reports shut down afterwards, and 0 otherwise. It always reports so, so the result is 1. The futures are unchanged. |
| Scheduling.Scheduler.ShutdownNow | src/main/java/com/mimo/scheduler/Scheduler.java:406-413 | The same, through `shutdownNow`. |
| Scheduling.RepeatTrace | src/main/java/com/mimo/scheduler/Scheduler.java:231-234 | n repetitions leave 2n actions in the trace. Their shape is in `RepeatTraceShape` and their counts in `RepeatTraceCounts`. |
| Scheduling.RepeatFutures | src/main/java/com/mimo/scheduler/Scheduler.java:231-234 | n repetitions leave n futures. Their deadlines are in `RepeatFuturesShape`. |
| Scheduling.PollCount | src/main/java/com/mimo/scheduler/Scheduler.java:136-142 | No poll when the clock is already at or past the target. Otherwise polling `PollCount` times reaches the target and overshoots it by less than one poll. |
| Scheduling.ImmediateTrace | src/main/java/com/mimo/scheduler/Scheduler.java:222-223 | n repetitions with an immediate first one leave 2n actions in the trace. Their shape is in `ImmediateTraceShape`. |
| Scheduling.ImmediateFutures | src/main/java/com/mimo/scheduler/Scheduler.java:222-223 | n repetitions with an immediate first one leave n futures. Their deadlines are in `ImmediateFuturesShape`. |
| Scheduling.CancelTrace | src/main/java/com/mimo/scheduler/Scheduler.java:343-345 | The k-th action of cancelling a list of handles is the cancellation of its k-th handle. |
| Scheduling.WithCancelled | src/main/java/com/mimo/scheduler/Scheduler.java:343-345 | After cancelling a list of handles, future i is cancelled exactly when it already was or i is in the list. No deadline changes, and no other future changes. |
| Scheduling.PollCountIsLeast | src/main/java/com/mimo/scheduler/Scheduler.java:136-142 | A poll count that first reaches the target is `PollCount`. |
| Scheduling.PollsShape | src/main/java/com/mimo/scheduler/Scheduler.java:138 | n polls are n sleeps of 1000 ms. |
| Scheduling.CountSingle | src/main/java/com/mimo/scheduler/Scheduler.java:231-234 | A one-action trace counts one action of its own kind and none of any other. |
| Scheduling.CountConcat | src/main/java/com/mimo/scheduler/Scheduler.java:231-234 | Counting actions of a kind distributes over concatenation of traces. |
| Scheduling.RepeatTraceShape | src/main/java/com/mimo/scheduler/Scheduler.java:231-234 | Repetition k submits handle first+k at position 2k and sleeps the intermission at 2k+1. |
| Scheduling.RepeatTraceCounts | src/main/java/com/mimo/scheduler/Scheduler.java:231-234 | n repetitions make exactly n submissions and n sleeps, with no dispatch and no cancellation. |
| Scheduling.RepeatThenDispatch | src/main/java/com/mimo/scheduler/Scheduler.java:248-254 | The event variants make exactly max(numRepeats, 0) submissions and exactly one dispatch, and that dispatch is the last action. |
| Scheduling.RepeatFuturesShape | src/main/java/com/mimo/scheduler/Scheduler.java:268-270 | Future k of a repetition loop is not cancelled and is due `start + k*(delay+3) + delay`. |
| Scheduling.RepeatFuturesSpacing | src/main/java/com/mimo/scheduler/Scheduler.java:268-270 | Consecutive repetitions fall due exactly delay + 3 ms apart. |
| Scheduling.FirstRepetitionDelayed | src/main/java/com/mimo/scheduler/Scheduler.java:232 | As written, the first repetition's future is due a full `delay` after the loop starts, not at once. |
| Scheduling.ImmediateFuturesShape | src/main/java/com/mimo/scheduler/Scheduler.java:222-223 | With the first repetition immediate, future k is uncancelled and due `start + k*(delay+3)`. |
| Scheduling.FirstRepetitionImmediate | src/main/java/com/mimo/scheduler/Scheduler.java:222-223 | With the first repetition immediate, the first future is due when the loop starts, and consecutive ones fall due delay + 3 ms apart. |
| Scheduling.ImmediateTraceShape | src/main/java/com/mimo/scheduler/Scheduler.java:222-223 | Repetition k submits handle first+k at position 2k. At position 2k+1 it sleeps its own delay (none for the first) plus 3 ms. |
| Scheduling.SubmittedHandlesCount | src/main/java/com/mimo/scheduler/Scheduler.java:27 | The submission record of a trace has one entry per submission in it. |
| Scheduling.ValidSubmissions | src/main/java/com/mimo/scheduler/Scheduler.java:27 | In a pool that keeps its invariant, the trace holds exactly one submission per future. The handles submitted are strictly increasing, so no handle is issued twice. |
| Scheduling.CancelTraceCounts | src/main/java/com/mimo/scheduler/Scheduler.java:355-359 | Cancelling a list of handles records exactly one cancellation per handle and no dispatch. |
| Scheduling.CancelTwice | src/main/java/com/mimo/scheduler/Scheduler.java:300 | Cancelling the same futures again changes nothing. |
| Scheduling.CancelInBatches | src/main/java/com/mimo/scheduler/Scheduler.java:343-345 | Cancelling in two batches is the same as cancelling all the handles at once. |
| Demo.MainScan | src/main/java/com/mimo/scheduler/Main.java:23-40 | Scanning `Main` keeps printHello, printQuestion and printBye, each when the selector matches it, in declaration order. main and printAnswer are never kept. |
| Demo.DialogHandlers | src/main/java/com/mimo/scheduler/Main.java:23-40 | The `dialogEvent` handlers of `Main` are printHello and then printBye, and both are invoked without a failure. |
| Demo.AnnotatedHandlers | src/main/java/com/mimo/scheduler/Main.java:23-40 | The annotated methods of `Main` are printHello, printQuestion and printBye. |
| Demo.DialogScenario | src/main/java/com/mimo/scheduler/Main.java:13-19 | On the logical clock, Main's schedule-and-shutdown gives the trace: submit, sleep 1003 ms, dispatch `dialogEvent` with no handler invoked, shut down. The real sleep is typically 1002 ms; see Left out. The shutdown returns 1. |
| Demo.RepeatScenario | src/main/java/com/mimo/scheduler/Scheduler.java:285-291 | Three one-second repetitions: three submit/sleep pairs, then one dispatch. The deadlines are 1000, 2003 and 3006. |
| Demo.ImmediateRepeatScenario | src/main/java/com/mimo/scheduler/Scheduler.java:238-254 | The same three repetitions with the first one immediate: sleeps of 3, 1003 and 1003 ms, then one dispatch. The deadlines are 0, 1003 and 2006. |
| Demo.RunAfterShutdown | src/main/java/com/mimo/scheduler/Scheduler.java:37-40 | After shutdown, `run(task, eventName)` still dispatches, and then the submission is rejected. |
| Demo.PastDateTriggered | src/main/java/com/mimo/scheduler/Scheduler.java:134-146 | A target in the past returns null and submits nothing. |
| Demo.EarlyDateTriggered | src/main/java/com/mimo/scheduler/Scheduler.java:135-143 | As written, a task targeted at 5000 ms is due at 0 ms. |
| Demo.AwaitedDateTriggered | src/main/java/com/mimo/scheduler/Scheduler.java:135-143 | With the corrected wait, the same task is due at 5000 ms, after 5 polls. |
| Demo.AwaitedDateTriggeredAndNotify | src/main/java/com/mimo/scheduler/Scheduler.java:157-166 | With the corrected wait, the event variant for 5000 ms makes five polls, then dispatches, then submits a future due at 5000 ms. |
| Demo.IgnoredPoolSize | src/main/java/com/mimo/scheduler/Scheduler.java:14-15 | As written, asking for 8 threads gives a pool of 2. |
| Demo.HonouredPoolSize | src/main/java/com/mimo/scheduler/Scheduler.java:14-15 | With the corrected constructor, asking for 8 threads gives 8. |

## Left out

- Java reflection itself: `getDeclaredMethods`, `isAnnotationPresent` and `Method.invoke`. A class is a given list of method records. The order `getDeclaredMethods` yields is unspecified by the JDK, so it is an input (the list order).
- Real threads, the pool's internals, and running task bodies concurrently. Task bodies never run, so a future is only its deadline and cancelled flag; `corePoolSize` is recorded but has no effect.
- Wall-clock time. `LocalDateTime.now()` and `System` time are the executor's logical clock in whole milliseconds, and a `LocalDateTime` target is a clock reading.
- Interruption. `Thread.sleep` never throws `InterruptedException`, so neither does code that sleeps. The `RuntimeException` wrapping in the poll loops is therefore not modelled.
- Cancellation races. `cancel(true)` only sets the cancelled flag; interrupting a running task and the boolean result of `cancel` are not modelled.
- The casts to `CompletableFuture` at Scheduler.java lines 27, 39, 50, 64, 143, 166, 190 and 215. The pool returns a `ScheduledFuture`, so these casts would throw `ClassCastException`. The model returns the handle instead.
- `shutdownNow`'s list of drained tasks: the result is discarded by the source, and the pool is not modelled.
- Scheduling.Scheduler.Delete: requires a handle issued by this scheduler's pool. A null or foreign future, such as one that would throw `NullPointerException`, is not modelled.
- Scheduling.Scheduler.DeleteAndNotify: requires a handle issued by this scheduler's pool, for the same reason as `Delete`.
- Scheduling.Scheduler.DeleteAll: requires every handle to be issued by this scheduler's pool, for the same reason as `Delete`.
- Scheduling.Scheduler.DeleteAllAndNotify: requires every handle to be issued by this scheduler's pool, for the same reason as `Delete`.
- Scheduling.Scheduler.GetIntermission: requires a handle issued by this scheduler's pool; a null future would throw `NullPointerException`. The scheduler only ever passes it the future it has just scheduled.
- Executors.ToMillis: no `long` overflow. `TimeUnit.toMillis` saturates at `Long.MAX_VALUE`, and the model's integers are unbounded.
- Scheduling.Scheduler.GetIntermission: no `long` wrap-around of `getDelay + 3`.
- Scheduling.Scheduler.GetIntermission: the timings are those of the logical clock, not of the JDK pool. The pool keeps each deadline in nanoseconds, and only `getDelay(MILLISECONDS)` truncates, counting from the nanoseconds already elapsed since `schedule`. The model does not capture three consequences:
  - (a) `schedule(1500, MICROSECONDS)` falls due at 1.5 ms; the model's deadline is 1 ms.
  - (b) Right after `schedule(1, SECONDS)` the real `getDelay` typically reads 999. The sleep is then 1002 ms, not 1003, and ends about 2 ms after the deadline rather than exactly 3.
  - (c) If the calling thread is held up for more than the delay plus 3 ms between `schedule` and `getIntermission`, `Thread.sleep` gets a negative argument. It then throws `IllegalArgumentException` (Scheduler.java lines 90, 121, 233, 251, 270, 288), which the model never does.
- Scheduling.Scheduler.ScheduleAtFixedLocalDateTime: the model reads the clock once, where the source calls `LocalDateTime.now()` twice (lines 135 and 136, likewise 182-183). With one reading, the loop guard is the negation of the test just passed, so the 1000 ms poll never runs. In the source the clock can pass the target between the two readings. Then `isBefore(now())` is true and stays true, and the loop sleeps forever without submitting. The single reading excludes that hang, which also cannot be written without a loop that does not terminate.
- Scheduling.Scheduler.ScheduleAtFixedLocalDateTimeAndNotify: same as above, for the variant with an event (lines 157-158 and 206-207): neither the dispatch nor the submission happens in the hang.
- Overloads that differ only in their task type (`Runnable`/`Callable`) or future type (`ScheduledFuture`/`CompletableFuture`): each is modelled once, with the other overload's lines recorded in its row.
- `Main.addCheckingClass` (Main.java line 15): `Scheduler` has no such method, so the scheduler never scans any class, and `Demo.DialogScenario` omits that call.
- `TestFunctions.java`: console output and a floating-point division, with no scheduling logic.
- Console output of task bodies and handlers.

## Findings

| source | as written | input that shows it | evidently intended | confidence | as-written member | corrected member |
|---|---|---|---|---|---|---|
| src/main/java/com/mimo/scheduler/Scheduler.java:135-143 (and 157-166, 182-190, 206-215) | If the target is after now, `while (target.isBefore(now))` polls. Read straight after the test, that guard is false, so the task is submitted at once, before the target. If instead the clock passes the target between the two readings, the guard is true for ever and the call hangs without submitting. The model's single clock reading covers only the first case. | Clock 0, target 5000 ms: the future is due at 0 ms | Wait, polling every 1000 ms, until the target is reached; then, for the event variants, dispatch; then submit | not executed | Scheduling.Scheduler.ScheduleAtFixedLocalDateTime, Scheduling.Scheduler.ScheduleAtFixedLocalDateTimeAndNotify, Demo.EarlyDateTriggered | Scheduling.Scheduler.ScheduleAtFixedLocalDateTimeAwaited, Scheduling.Scheduler.ScheduleAtFixedLocalDateTimeAwaitedAndNotify, Demo.AwaitedDateTriggered, Demo.AwaitedDateTriggeredAndNotify |
| src/main/java/com/mimo/scheduler/Scheduler.java:14-15 | `Executors.newScheduledThreadPool(2)` ignores `numThreads` | `new Scheduler(8)`: a pool of 2 threads | A pool of `numThreads` threads | not executed | Scheduling.Scheduler.constructor, Demo.IgnoredPoolSize | Scheduling.Scheduler.WithPoolSize, Demo.HonouredPoolSize |
| src/main/java/com/mimo/scheduler/Scheduler.java:231-234 (and 249-252, 268-271, 286-289; documented at 223, 240, 260, 277) | Every repetition, the first included, is scheduled with `delay`; `scheduleAtFixedRateNow` and `scheduleAtFixedRate` have the same body | numRepeats 3, delay 1 s, from clock 0: the first future is due at 1000 ms | As documented, the first repetition has no delay and runs at once | not executed | Scheduling.FirstRepetitionDelayed, Scheduling.RepeatFuturesShape, Demo.RepeatScenario | Scheduling.Scheduler.RepeatFirstImmediately, Scheduling.Scheduler.RepeatFirstImmediatelyAndNotify, Scheduling.FirstRepetitionImmediate, Demo.ImmediateRepeatScenario |
