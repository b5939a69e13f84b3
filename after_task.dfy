/**
 * The @AfterTask handler registry: AfterTaskExecutor scans classes for methods
 * annotated with @AfterTask, optionally keeping only those of one event name, and
 * invokes the collected methods one after the other.
 *
 * Reflection becomes data. A class is the list of its declared methods in the order
 * getDeclaredMethods yields them (an input: the JDK leaves that order unspecified),
 * and a method records the event name of its @AfterTask annotation, whether it is
 * static, and what a reflective call `invoke(null)` on it does.
 */
module AfterTask {
  import opened Wrappers

  /** Why a reflective call `invoke(null)` can throw. */
  datatype Failure =
    | TargetThrew      // the body threw: InvocationTargetException
    | IllegalAccess    // the method is not accessible: IllegalAccessException
    | IllegalArgument  // the method wants arguments: IllegalArgumentException

  /** What a reflective call with no receiver and no arguments does. */
  datatype Behaviour = Completes | Fails(failure: Failure)

  /** A declared method; `afterTask` is the name of its @AfterTask annotation, if any. */
  datatype Method = Method(name: string, afterTask: Option<string>, isStatic: bool, behaviour: Behaviour)

  /** A class, reduced to its declared methods in scan order. */
  datatype Class = Class(name: string, declaredMethods: seq<Method>)

  /** Which annotated methods a scan keeps: every one, or those of one event name. */
  datatype Selector = AnyEvent | Event(name: string)

  /** The annotation is present and, for an event scan, its name equals the event name exactly. */
  predicate Keeps(sel: Selector, m: Method) {
    m.afterTask.Some? && (sel.Event? ==> m.afterTask.value == sel.name)
  }

  /** The methods of `ms` that `sel` keeps, in their order in `ms`. */
  function Select(sel: Selector, ms: seq<Method>): (r: seq<Method>)
  {
    if ms == [] then []
    else Select(sel, ms[..|ms| - 1]) + (if Keeps(sel, ms[|ms| - 1]) then [ms[|ms| - 1]] else [])
  }

  /** What a scan of `classes` collects: class by class as passed, each class in scan order. */
  function Scan(sel: Selector, classes: seq<Class>): (r: seq<Method>)
  {
    if classes == [] then []
    else Scan(sel, classes[..|classes| - 1]) + Select(sel, classes[|classes| - 1].declaredMethods)
  }

  /** `a` can be obtained from `b` by deleting elements. */
  predicate IsSubsequence<T(==)>(a: seq<T>, b: seq<T>)
    decreases |b|
  {
    a == [] ||
    (b != [] &&
     ((a[|a| - 1] == b[|b| - 1] && IsSubsequence(a[..|a| - 1], b[..|b| - 1])) ||
      IsSubsequence(a, b[..|b| - 1])))
  }

  /** A static method: the only kind `invokeMethods` calls. */
  predicate Invocable(m: Method) {
    m.isStatic
  }

  /** A method whose reflective call throws out of `invokeMethods`. */
  predicate Aborts(m: Method) {
    Invocable(m) && m.behaviour.Fails?
  }

  /** The static methods of `ms`, in their order. */
  function Statics(ms: seq<Method>): (r: seq<Method>)
  {
    if ms == [] then []
    else Statics(ms[..|ms| - 1]) + (if Invocable(ms[|ms| - 1]) then [ms[|ms| - 1]] else [])
  }

  /** `ms[k]` is the first method of `ms` whose call throws. */
  predicate FirstAbort(ms: seq<Method>, k: int) {
    0 <= k < |ms| && Aborts(ms[k]) && forall j :: 0 <= j < k ==> !Aborts(ms[j])
  }

  // ---------------------------------------------------------------------------
  // The three operations of AfterTaskExecutor

  /** getSpecificMethods: every annotated method whose event name is `eventName`. */
  method GetSpecificMethods(eventName: string, classes: seq<Class>) returns (methods: seq<Method>)
    ensures methods == Scan(Event(eventName), classes)
    ensures classes == [] ==> methods == []
  {
    methods := [];
    for i := 0 to |classes|
      invariant methods == Scan(Event(eventName), classes[..i])
    {
      var declared := classes[i].declaredMethods;
      for j := 0 to |declared|
        invariant methods == Scan(Event(eventName), classes[..i]) + Select(Event(eventName), declared[..j])
      {
        var m := declared[j];
        if m.afterTask.Some? {
          if m.afterTask.value == eventName {
            methods := methods + [m];
          }
        }
        assert declared[..j + 1][..j] == declared[..j];
      }
      assert declared[..|declared|] == declared;
      assert classes[..i + 1][..i] == classes[..i];
    }
    assert classes[..|classes|] == classes;
  }

  /** getAllMethods: every annotated method, whatever its event name. */
  method GetAllMethods(classes: seq<Class>) returns (methods: seq<Method>)
    ensures methods == Scan(AnyEvent, classes)
    ensures classes == [] ==> methods == []
  {
    methods := [];
    for i := 0 to |classes|
      invariant methods == Scan(AnyEvent, classes[..i])
    {
      var declared := classes[i].declaredMethods;
      for j := 0 to |declared|
        invariant methods == Scan(AnyEvent, classes[..i]) + Select(AnyEvent, declared[..j])
      {
        var m := declared[j];
        if m.afterTask.Some? {
          methods := methods + [m];
        }
        assert declared[..j + 1][..j] == declared[..j];
      }
      assert declared[..|declared|] == declared;
      assert classes[..i + 1][..i] == classes[..i];
    }
    assert classes[..|classes|] == classes;
  }

  /**
   * invokeMethods: calls each static method of `methods` in order and skips the others.
   * `invoked` lists the calls made; `thrown` is the method whose call threw, which ends
   * the walk (its exception propagates to the caller).
   */
  method InvokeMethods(methods: seq<Method>) returns (invoked: seq<Method>, thrown: Option<Method>)
    ensures thrown.None? <==> forall k :: 0 <= k < |methods| ==> !Aborts(methods[k])
    ensures thrown.None? ==> invoked == Statics(methods)
    ensures thrown.Some? ==>
      exists k :: FirstAbort(methods, k) && thrown.value == methods[k] && invoked == Statics(methods[..k + 1])
    ensures IsPrefix(invoked, Statics(methods))
  {
    invoked, thrown := [], None;
    var i := 0;
    while i < |methods| && thrown.None?
      invariant 0 <= i <= |methods|
      invariant invoked == Statics(methods[..i])
      invariant thrown.None? ==> forall j :: 0 <= j < i ==> !Aborts(methods[j])
      invariant thrown.Some? ==> FirstAbort(methods, i - 1) && thrown.value == methods[i - 1]
    {
      var m := methods[i];
      if m.isStatic {
        invoked := invoked + [m];
        if m.behaviour.Fails? {
          thrown := Some(m);
        }
      }
      assert methods[..i + 1][..i] == methods[..i];
      i := i + 1;
    }
    if thrown.None? {
      assert methods[..i] == methods;
    }
    StaticsOfPrefix(methods, i);
  }

  predicate IsPrefix<T(==)>(a: seq<T>, b: seq<T>) {
    |a| <= |b| && a == b[..|a|]
  }

  // ---------------------------------------------------------------------------
  // Properties of the scans

  /** A method is selected exactly when it is in the list and the selector keeps it. */
  lemma {:induction false} SelectMembership(sel: Selector, ms: seq<Method>, m: Method)
    ensures m in Select(sel, ms) <==> m in ms && Keeps(sel, m)
    decreases |ms|
  {
    if ms != [] {
      var init := ms[..|ms| - 1];
      SelectMembership(sel, init, m);
      assert ms == init + [ms[|ms| - 1]];
    }
  }

  /**
   * getSpecificMethods / getAllMethods return exactly the kept annotated methods of the
   * given classes: untagged methods and methods of other event names never appear.
   */
  lemma {:induction false} ScanMembership(sel: Selector, classes: seq<Class>, m: Method)
    ensures m in Scan(sel, classes) <==>
      Keeps(sel, m) && exists i :: 0 <= i < |classes| && m in classes[i].declaredMethods
    decreases |classes|
  {
    if classes != [] {
      var n := |classes| - 1;
      var init := classes[..n];
      ScanMembership(sel, init, m);
      SelectMembership(sel, classes[n].declaredMethods, m);
      if Keeps(sel, m) && exists i :: 0 <= i < |classes| && m in classes[i].declaredMethods {
        var i :| 0 <= i < |classes| && m in classes[i].declaredMethods;
        if i < n {
          assert init[i] == classes[i];
        }
      }
      if exists i :: 0 <= i < |init| && m in init[i].declaredMethods {
        var i :| 0 <= i < |init| && m in init[i].declaredMethods;
        assert classes[i] == init[i];
      }
    }
  }

  lemma {:induction false} SelectConcat(sel: Selector, a: seq<Method>, b: seq<Method>)
    ensures Select(sel, a + b) == Select(sel, a) + Select(sel, b)
    decreases |b|
  {
    if b == [] {
      assert a + b == a;
    } else {
      var b' := b[..|b| - 1];
      assert (a + b)[..|a + b| - 1] == a + b';
      SelectConcat(sel, a, b');
    }
  }

  /** Both scans distribute over concatenation of the class list. */
  lemma {:induction false} ScanConcat(sel: Selector, c1: seq<Class>, c2: seq<Class>)
    ensures Scan(sel, c1 + c2) == Scan(sel, c1) + Scan(sel, c2)
    decreases |c2|
  {
    if c2 == [] {
      assert c1 + c2 == c1;
    } else {
      var c2' := c2[..|c2| - 1];
      assert (c1 + c2)[..|c1 + c2| - 1] == c1 + c2';
      ScanConcat(sel, c1, c2');
    }
  }

  /** Scanning one class keeps its kept methods in scan order. */
  lemma ScanSingle(sel: Selector, c: Class)
    ensures Scan(sel, [c]) == Select(sel, c.declaredMethods)
  {
    assert [c][..0] == [];
  }

  /** Filtering annotated methods by event name is filtering all methods by event name. */
  lemma {:induction false} SelectEventOfAnnotated(name: string, ms: seq<Method>)
    ensures Select(Event(name), Select(AnyEvent, ms)) == Select(Event(name), ms)
    decreases |ms|
  {
    if ms != [] {
      var init, last := ms[..|ms| - 1], ms[|ms| - 1];
      var tail := if Keeps(AnyEvent, last) then [last] else [];
      SelectEventOfAnnotated(name, init);
      SelectConcat(Event(name), Select(AnyEvent, init), tail);
      if tail != [] {
        assert tail[..0] == [];
      }
    }
  }

  /** getSpecificMethods(name, cs) is getAllMethods(cs) filtered by event name. */
  lemma {:induction false} SpecificIsFilteredAll(name: string, classes: seq<Class>)
    ensures Scan(Event(name), classes) == Select(Event(name), Scan(AnyEvent, classes))
    decreases |classes|
  {
    if classes != [] {
      var init := classes[..|classes| - 1];
      var last := classes[|classes| - 1].declaredMethods;
      SpecificIsFilteredAll(name, init);
      SelectConcat(Event(name), Scan(AnyEvent, init), Select(AnyEvent, last));
      SelectEventOfAnnotated(name, last);
    }
  }

  lemma {:induction false} SelectIsSubsequence(sel: Selector, ms: seq<Method>)
    ensures IsSubsequence(Select(sel, ms), ms)
    decreases |ms|
  {
    if ms != [] {
      var init, last := ms[..|ms| - 1], ms[|ms| - 1];
      var r := Select(sel, init);
      SelectIsSubsequence(sel, init);
      if Keeps(sel, last) {
        assert (r + [last])[..|r|] == r;
      } else {
        assert Select(sel, ms) == r;
      }
    }
  }

  /** The methods of one event name are a subsequence of all annotated methods. */
  lemma SpecificIsSubsequenceOfAll(name: string, classes: seq<Class>)
    ensures IsSubsequence(Scan(Event(name), classes), Scan(AnyEvent, classes))
  {
    SpecificIsFilteredAll(name, classes);
    SelectIsSubsequence(Event(name), Scan(AnyEvent, classes));
  }

  // ---------------------------------------------------------------------------
  // Properties of the invocation walk

  /** The static methods of a prefix are a prefix of the static methods. */
  lemma {:induction false} StaticsOfPrefix(ms: seq<Method>, n: nat)
    requires n <= |ms|
    ensures IsPrefix(Statics(ms[..n]), Statics(ms))
    decreases |ms|
  {
    if n == |ms| {
      assert ms[..n] == ms;
    } else {
      var init := ms[..|ms| - 1];
      StaticsOfPrefix(init, n);
      assert init[..n] == ms[..n];
    }
  }

  /** With no static method in the list, nothing is invoked. */
  lemma {:induction false} StaticsOfInstanceMethods(ms: seq<Method>)
    requires forall k :: 0 <= k < |ms| ==> !ms[k].isStatic
    ensures Statics(ms) == []
    decreases |ms|
  {
    if ms != [] {
      StaticsOfInstanceMethods(ms[..|ms| - 1]);
    }
  }

  /** Each invoked method is a static method of the list. */
  lemma {:induction false} StaticsMembership(ms: seq<Method>, m: Method)
    ensures m in Statics(ms) <==> m in ms && m.isStatic
    decreases |ms|
  {
    if ms != [] {
      var init := ms[..|ms| - 1];
      StaticsMembership(init, m);
      assert ms == init + [ms[|ms| - 1]];
    }
  }

  /** The invoked methods keep their relative order in the list. */
  lemma {:induction false} StaticsIsSubsequence(ms: seq<Method>)
    ensures IsSubsequence(Statics(ms), ms)
    decreases |ms|
  {
    if ms != [] {
      var init, last := ms[..|ms| - 1], ms[|ms| - 1];
      var r := Statics(init);
      StaticsIsSubsequence(init);
      if Invocable(last) {
        assert (r + [last])[..|r|] == r;
      } else {
        assert Statics(ms) == r;
      }
    }
  }
}
