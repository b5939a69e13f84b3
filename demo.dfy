/**
 * Walks through the model on the demonstration program's data: the annotated methods
 * of Main.java, its one scheduling call, and the inputs that show where the
 * date-triggered variants and the constructor depart from what they evidently intend.
 */
module Demo {
  import opened Wrappers
  import opened AfterTask
  import opened Executors
  import opened Scheduling

  const MainMethod := Method("main", None, true, Completes)
  const PrintHello := Method("printHello", Some("dialogEvent"), true, Completes)
  const PrintQuestion := Method("printQuestion", Some("contentEvent"), true, Completes)
  const PrintAnswer := Method("printAnswer", None, true, Completes)
  const PrintBye := Method("printBye", Some("dialogEvent"), true, Completes)

  /** Main, with its methods scanned in declaration order (one order the JDK may use). */
  const MainClass := Class("Main", [MainMethod, PrintHello, PrintQuestion, PrintAnswer, PrintBye])

  /** Scanning Main keeps its kept methods in declaration order. */
  lemma MainScan(sel: Selector)
    ensures Scan(sel, [MainClass]) ==
      (if Keeps(sel, PrintHello) then [PrintHello] else []) +
      (if Keeps(sel, PrintQuestion) then [PrintQuestion] else []) +
      (if Keeps(sel, PrintBye) then [PrintBye] else [])
  {
    var ms := MainClass.declaredMethods;
    ScanSingle(sel, MainClass);
    assert ms[..1][..0] == [] && ms[..2][..1] == ms[..1] && ms[..3][..2] == ms[..2];
    assert ms[..4][..3] == ms[..3] && ms[..5][..4] == ms[..4] && ms[..5] == ms;
    var hello := if Keeps(sel, PrintHello) then [PrintHello] else [];
    var question := if Keeps(sel, PrintQuestion) then [PrintQuestion] else [];
    var bye := if Keeps(sel, PrintBye) then [PrintBye] else [];
    assert Select(sel, ms[..1]) == [];
    assert Select(sel, ms[..2]) == hello;
    assert Select(sel, ms[..3]) == hello + question;
    assert Select(sel, ms[..4]) == hello + question;
    assert Select(sel, ms[..5]) == hello + question + bye;
  }

  /** Given Main to scan, the dialogEvent handlers are printHello then printBye, and both run. */
  method DialogHandlers() returns (handlers: seq<Method>, invoked: seq<Method>, thrown: Option<Method>)
    ensures handlers == [PrintHello, PrintBye]
    ensures invoked == [PrintHello, PrintBye] && thrown == None
  {
    handlers := GetSpecificMethods("dialogEvent", [MainClass]);
    MainScan(Event("dialogEvent"));
    assert forall k :: 0 <= k < |handlers| ==> !Aborts(handlers[k]) by {
      assert handlers == [PrintHello, PrintBye];
    }
    invoked, thrown := InvokeMethods(handlers);
    assert handlers[..1] == [PrintHello] && handlers[..1][..0] == [];
    assert Statics(handlers[..1]) == [PrintHello];
  }

  /** All annotated methods of Main, in scan order; the untagged ones are left out. */
  method AnnotatedHandlers() returns (handlers: seq<Method>)
    ensures handlers == [PrintHello, PrintQuestion, PrintBye]
  {
    handlers := GetAllMethods([MainClass]);
    MainScan(AnyEvent);
  }

  /**
   * Main's call scheduleWithFixedDelay(1, SECONDS, task, "dialogEvent") and shutdown():
   * the event fires 1003 ms in, but the scheduler scans no classes, so neither
   * printHello nor printBye is invoked.
   */
  method DialogScenario() returns (trace: seq<Action>, code: int)
    ensures trace == [Submitted(0), Slept(1003), Dispatched("dialogEvent", []), ShutDown]
    ensures code == 1
  {
    var scheduler := new Scheduler(2, 0);
    var f := scheduler.ScheduleWithFixedDelayAndNotify(1, Seconds, "dialogEvent");
    code := scheduler.Shutdown();
    trace := scheduler.executor.trace;
  }

  /** Three repetitions of a one-second delay: three submissions, then one dispatch. */
  method RepeatScenario() returns (trace: seq<Action>, deadlines: seq<int>)
    ensures trace == [Submitted(0), Slept(1003), Submitted(1), Slept(1003), Submitted(2), Slept(1003),
                      Dispatched("ping", [])]
    ensures deadlines == [1000, 2003, 3006]
  {
    var scheduler := new Scheduler(2, 0);
    var r := scheduler.ScheduleAtFixedRateAndNotify(3, 1, Seconds, "ping");
    trace := scheduler.executor.trace;
    var fs := scheduler.executor.futures;
    RepeatFuturesShape(0, 3, 1000);
    deadlines := [fs[0].deadline, fs[1].deadline, fs[2].deadline];
  }

  /**
   * The same three repetitions with the first one immediate, as the repetition methods'
   * documentation describes: due at 0, 1003 and 2006 ms instead of 1000, 2003 and 3006.
   */
  method ImmediateRepeatScenario() returns (trace: seq<Action>, deadlines: seq<int>)
    ensures trace == [Submitted(0), Slept(3), Submitted(1), Slept(1003), Submitted(2), Slept(1003),
                      Dispatched("ping", [])]
    ensures deadlines == [0, 1003, 2006]
  {
    var scheduler := new Scheduler(2, 0);
    var r := scheduler.RepeatFirstImmediatelyAndNotify(3, 1, Seconds, "ping");
    trace := scheduler.executor.trace;
    var fs := scheduler.executor.futures;
    ImmediateFuturesShape(0, 3, 1000);
    deadlines := [fs[0].deadline, fs[1].deadline, fs[2].deadline];
  }

  /** After shutdown, run(task, eventName) still fires the event, then the submission is rejected. */
  method RunAfterShutdown() returns (r: Outcome<nat>, trace: seq<Action>)
    ensures r == RejectedExecution
    ensures trace == [ShutDown, Dispatched("done", [])]
  {
    var scheduler := new Scheduler(2, 0);
    var code := scheduler.Shutdown();
    r := scheduler.RunAndNotify("done");
    trace := scheduler.executor.trace;
  }

  /** A target in the past: null, and nothing is submitted. */
  method PastDateTriggered() returns (r: Outcome<Option<nat>>, submitted: nat)
    ensures r == Returned(None) && submitted == 0
  {
    var scheduler := new Scheduler(2, 10_000);
    r := scheduler.ScheduleAtFixedLocalDateTime(5_000);
    submitted := |scheduler.executor.futures|;
  }

  /** As written, a task for 5000 ms is handed to the pool at 0 ms, due at once. */
  method EarlyDateTriggered() returns (target: int, deadline: int)
    ensures target == 5_000 && deadline == 0
  {
    var scheduler := new Scheduler(2, 0);
    target := 5_000;
    var r := scheduler.ScheduleAtFixedLocalDateTime(target);
    deadline := scheduler.executor.futures[r.value.value].deadline;
  }

  /** With the wait as intended, the same task is handed over after five polls, at 5000 ms. */
  method AwaitedDateTriggered() returns (target: int, deadline: int, polls: nat)
    ensures target == 5_000 && deadline == 5_000 && polls == 5
  {
    var scheduler := new Scheduler(2, 0);
    target := 5_000;
    var r := scheduler.ScheduleAtFixedLocalDateTimeAwaited(target);
    deadline := scheduler.executor.futures[r.value.value].deadline;
    polls := PollCount(0, target);
  }

  /** With the wait as intended, the event variant fires after the five polls, then submits. */
  method AwaitedDateTriggeredAndNotify() returns (trace: seq<Action>, deadline: int)
    ensures trace == [Slept(1000), Slept(1000), Slept(1000), Slept(1000), Slept(1000),
                      Dispatched("dateEvent", []), Submitted(0)]
    ensures deadline == 5_000
  {
    var scheduler := new Scheduler(2, 0);
    var r := scheduler.ScheduleAtFixedLocalDateTimeAwaitedAndNotify(5_000, "dateEvent");
    assert PollCount(0, 5_000) == 5;
    assert Polls(5) == [Slept(1000), Slept(1000), Slept(1000), Slept(1000), Slept(1000)];
    trace := scheduler.executor.trace;
    deadline := scheduler.executor.futures[r.value.value].deadline;
  }

  /** As written, asking for eight threads gives a pool of two. */
  method IgnoredPoolSize() returns (requested: int, actual: nat)
    ensures requested == 8 && actual == 2
  {
    requested := 8;
    var scheduler := new Scheduler(requested, 0);
    actual := scheduler.executor.corePoolSize;
  }

  /** With the constructor as intended, asking for eight threads gives eight. */
  method HonouredPoolSize() returns (requested: nat, actual: nat)
    ensures requested == 8 && actual == 8
  {
    requested := 8;
    var scheduler := new Scheduler.WithPoolSize(requested, 0);
    actual := scheduler.executor.corePoolSize;
  }
}
