/** The emitted code of a `for` loop has its iteration expression before its continue label, so
    `continue` skips it. That is the only difference from C++: without a `continue` that belongs to a
    `for` loop there is none, and a loop with one goes through the same memories exactly if the
    iteration expression would have changed nothing wherever `continue` was reached. */
module ContinueInFor {
  import opened Options
  import opened Ssa
  import opened Expressions
  import opened Statements

  /** No `continue` that belongs to a loop around these statements. */
  predicate ContinueFree(st: Statement)
    decreases st, 0
  {
    match st
    case Continue => false
    case If(_, thenBody, elseBody) => ContinueFreeAll(thenBody) && ContinueFreeAll(elseBody)
    case For(init, _, _, _) => ContinueFree(init)
    case _ => true
  }

  predicate ContinueFreeAll(sts: seq<Statement>)
    decreases sts, 0
  {
    sts == [] || (ContinueFree(sts[0]) && ContinueFreeAll(sts[1..]))
  }

  /** No `continue` belongs to a `for` loop. */
  predicate Regular(st: Statement)
    decreases st, 0
  {
    match st
    case If(_, thenBody, elseBody) => RegularAll(thenBody) && RegularAll(elseBody)
    case While(_, body) => RegularAll(body)
    case DoWhile(_, body) => RegularAll(body)
    case For(init, _, _, body) => Regular(init) && RegularAll(body) && ContinueFreeAll(body)
    case _ => true
  }

  predicate RegularAll(sts: seq<Statement>)
    decreases sts, 0
  {
    sts == [] || (Regular(sts[0]) && RegularAll(sts[1..]))
  }

  lemma {:induction false} NeverContinues(I: Interpretation, env: map<string, int>, skipping: bool, st: Statement,
                                          m: Memory, fuel: nat)
    requires ContinueFree(st)
    ensures !Exec(I, env, skipping, st, m, fuel).Continued?
    decreases fuel, st, 1
  {
    match st
    case If(condition, thenBody, elseBody) =>
      var (v, m1) := Rvalue(I, env, condition, m);
      NeverContinuesAll(I, env, skipping, if v != 0 then thenBody else elseBody, m1, fuel);
    case While(test, body) =>
      NeverContinuesOut(I, env, skipping, test, body, None, Passes(I, env, test, m).1, fuel);
    case DoWhile(test, body) => NeverContinuesOut(I, env, skipping, test, body, None, m, fuel);
    case For(init, test, step, body) =>
      NeverContinues(I, env, skipping, init, m, fuel);
      var begun := Exec(I, env, skipping, init, m, fuel);
      if begun.Normal? {
        NeverContinuesOut(I, env, skipping, test, body, Some(step), Passes(I, env, test, begun.memory).1, fuel);
      }
    case _ =>
  }

  lemma {:induction false} NeverContinuesAll(I: Interpretation, env: map<string, int>, skipping: bool,
                                             sts: seq<Statement>, m: Memory, fuel: nat)
    requires ContinueFreeAll(sts)
    ensures !ExecAll(I, env, skipping, sts, m, fuel).Continued?
    decreases fuel, sts, 1
  {
    if sts != [] {
      NeverContinues(I, env, skipping, sts[0], m, fuel);
      var first := Exec(I, env, skipping, sts[0], m, fuel);
      if first.Normal? {
        NeverContinuesAll(I, env, skipping, sts[1..], first.memory, fuel);
      }
    }
  }

  /** A loop keeps its `continue`s to itself. */
  lemma {:induction false} NeverContinuesOut(I: Interpretation, env: map<string, int>, skipping: bool,
                                             test: Option<Expression>, body: seq<Statement>, step: Option<Expression>,
                                             m: Memory, fuel: nat)
    ensures !Iterate(I, env, skipping, test, body, step, m, fuel).Continued?
    decreases fuel, body, 0
  {
    if fuel > 0 {
      var ending := ExecAll(I, env, skipping, body, m, fuel - 1);
      if ending.Normal? || ending.Continued? {
        var m1 := if ending.Normal? || !skipping then StepMemory(I, env, step, ending.memory) else ending.memory;
        NeverContinuesOut(I, env, skipping, test, body, step, Passes(I, env, test, m1).1, fuel - 1);
      }
    }
  }

  /** Where no `continue` belongs to a `for` loop, the code's meaning is that of C++. */
  lemma {:induction false} RegularMeansSame(I: Interpretation, env: map<string, int>, st: Statement, m: Memory, fuel: nat)
    requires Regular(st)
    ensures Exec(I, env, true, st, m, fuel) == Exec(I, env, false, st, m, fuel)
    decreases fuel, st, 1
  {
    match st
    case If(condition, thenBody, elseBody) =>
      var (v, m1) := Rvalue(I, env, condition, m);
      RegularAllMeansSame(I, env, if v != 0 then thenBody else elseBody, m1, fuel);
    case While(test, body) => RegularLoop(I, env, test, body, None, Passes(I, env, test, m).1, fuel);
    case DoWhile(test, body) => RegularLoop(I, env, test, body, None, m, fuel);
    case For(init, test, step, body) =>
      RegularMeansSame(I, env, init, m, fuel);
      var begun := Exec(I, env, true, init, m, fuel);
      if begun.Normal? {
        RegularLoop(I, env, test, body, Some(step), Passes(I, env, test, begun.memory).1, fuel);
      }
    case _ =>
  }

  lemma {:induction false} RegularAllMeansSame(I: Interpretation, env: map<string, int>, sts: seq<Statement>, m: Memory,
                                               fuel: nat)
    requires RegularAll(sts)
    ensures ExecAll(I, env, true, sts, m, fuel) == ExecAll(I, env, false, sts, m, fuel)
    decreases fuel, sts, 1
  {
    if sts != [] {
      RegularMeansSame(I, env, sts[0], m, fuel);
      var first := Exec(I, env, true, sts[0], m, fuel);
      if first.Normal? {
        RegularAllMeansSame(I, env, sts[1..], first.memory, fuel);
      }
    }
  }

  lemma {:induction false} RegularLoop(I: Interpretation, env: map<string, int>, test: Option<Expression>,
                                       body: seq<Statement>, step: Option<Expression>, m: Memory, fuel: nat)
    requires RegularAll(body) && (step.Some? ==> ContinueFreeAll(body))
    ensures Iterate(I, env, true, test, body, step, m, fuel) == Iterate(I, env, false, test, body, step, m, fuel)
    decreases fuel, body, 0
  {
    if fuel > 0 {
      RegularAllMeansSame(I, env, body, m, fuel - 1);
      var ending := ExecAll(I, env, true, body, m, fuel - 1);
      if step.Some? {
        NeverContinuesAll(I, env, true, body, m, fuel - 1);
      }
      if ending.Normal? || ending.Continued? {
        var m1 := StepMemory(I, env, step, ending.memory);
        RegularLoop(I, env, test, body, step, Passes(I, env, test, m1).1, fuel - 1);
      }
    }
  }

  // ----- exactly when a loop goes the same way -----

  /** The memory that the test of a loop sees after an iteration. */
  function AtTest(I: Interpretation, env: map<string, int>, skipping: bool, step: Option<Expression>, ending: Ending): Memory
    requires ending.Normal? || ending.Continued?
  {
    if ending.Continued? && skipping then ending.memory else StepMemory(I, env, step, ending.memory)
  }

  /** The memories that the test of a loop sees, one after each iteration. */
  function Tests(I: Interpretation, env: map<string, int>, skipping: bool, test: Option<Expression>,
                 body: seq<Statement>, step: Option<Expression>, m: Memory, fuel: nat): seq<Memory>
    decreases fuel
  {
    if fuel == 0 then []
    else
      var ending := ExecAll(I, env, skipping, body, m, fuel - 1);
      if !ending.Normal? && !ending.Continued? then []
      else
        var at := AtTest(I, env, skipping, step, ending);
        var (go, m1) := Passes(I, env, test, at);
        [at] + if go then Tests(I, env, skipping, test, body, step, m1, fuel - 1) else []
  }

  /** In C++, wherever an iteration ends in `continue`, the iteration expression changes nothing. */
  predicate Idle(I: Interpretation, env: map<string, int>, test: Option<Expression>, body: seq<Statement>,
                 step: Option<Expression>, m: Memory, fuel: nat)
    decreases fuel
  {
    fuel == 0
    || var ending := ExecAll(I, env, false, body, m, fuel - 1);
       (ending.Continued? ==> StepMemory(I, env, step, ending.memory) == ending.memory)
       && (ending.Normal? || ending.Continued? ==>
             var (go, m1) := Passes(I, env, test, StepMemory(I, env, step, ending.memory));
             go ==> Idle(I, env, test, body, step, m1, fuel - 1))
  }

  lemma SameBehind(first: seq<Memory>, a: seq<Memory>, b: seq<Memory>)
    ensures first + a == first + b <==> a == b
  {
    assert (first + a)[|first|..] == a && (first + b)[|first|..] == b;
  }

  /** A loop goes through the same memories as in C++ if and only if no `continue` of its own skips a
      change. The loops in its body may not continue a `for` themselves. */
  lemma {:induction false} SameTestsIffIdle(I: Interpretation, env: map<string, int>, test: Option<Expression>,
                                            body: seq<Statement>, step: Option<Expression>, m: Memory, fuel: nat)
    requires RegularAll(body)
    ensures Tests(I, env, true, test, body, step, m, fuel) == Tests(I, env, false, test, body, step, m, fuel)
            <==> Idle(I, env, test, body, step, m, fuel)
    decreases fuel
  {
    hide StepMemory, ExecAll, Passes, RegularAll;
    if fuel > 0 {
      RegularAllMeansSame(I, env, body, m, fuel - 1);
      var ending := ExecAll(I, env, false, body, m, fuel - 1);
      if ending.Normal? || ending.Continued? {
        var here, there := AtTest(I, env, true, step, ending), AtTest(I, env, false, step, ending);
        if here == there {
          var (go, m1) := Passes(I, env, test, there);
          SameTestsIffIdle(I, env, test, body, step, m1, fuel - 1);
          var x := if go then Tests(I, env, true, test, body, step, m1, fuel - 1) else [];
          var y := if go then Tests(I, env, false, test, body, step, m1, fuel - 1) else [];
          SameBehind([there], x, y);
        } else {
          assert Tests(I, env, true, test, body, step, m, fuel)[0] == here;
          assert Tests(I, env, false, test, body, step, m, fuel)[0] == there;
        }
      }
    }
  }

  /** Such a loop ends as in C++, though `continue` may belong to it. */
  lemma {:induction false} IdleMeansSame(I: Interpretation, env: map<string, int>, test: Option<Expression>,
                                         body: seq<Statement>, step: Option<Expression>, m: Memory, fuel: nat)
    requires RegularAll(body) && Idle(I, env, test, body, step, m, fuel)
    ensures Iterate(I, env, true, test, body, step, m, fuel) == Iterate(I, env, false, test, body, step, m, fuel)
    decreases fuel
  {
    if fuel > 0 {
      RegularAllMeansSame(I, env, body, m, fuel - 1);
      hide StepMemory, ExecAll, Passes;
      var ending := ExecAll(I, env, false, body, m, fuel - 1);
      if ending.Normal? || ending.Continued? {
        var (go, m1) := Passes(I, env, test, StepMemory(I, env, step, ending.memory));
        if go {
          IdleMeansSame(I, env, test, body, step, m1, fuel - 1);
        }
      }
    }
  }

  // ----- a loop where it shows -----

  const COUNTER := Variable("i", Integral(true, 4))

  /** for (; i; i--) continue; */
  const COUNTDOWN := For(Evaluation(Literal(0, Integral(true, 4))), Some(COUNTER),
                         PostStep(true, COUNTER, 1, Integral(true, 4)), [Continue])

  lemma CounterTest(I: Interpretation, m: Memory)
    ensures Passes(I, map["i" := 0], Some(COUNTER), m) == (Get(m, 0) != 0, m)
  {
    var env := map["i" := 0];
    assert Rvalue(I, env, COUNTER, m) == (Get(m, 0), m);
  }

  lemma {:induction false} SkippingDiverges(I: Interpretation, m: Memory, fuel: nat)
    requires Get(m, 0) != 0
    ensures Iterate(I, map["i" := 0], true, Some(COUNTER), [Continue], Some(COUNTDOWN.step), m, fuel) == Timeout
    decreases fuel
  {
    if fuel > 0 {
      CounterTest(I, m);
      assert ExecAll(I, map["i" := 0], true, [Continue], m, fuel - 1) == Continued(m);
      SkippingDiverges(I, m, fuel - 1);
    }
  }

  /** Counting down from one: C++ ends with zero, the emitted code never ends. */
  lemma ContinueSkipsTheStep(I: Interpretation, fuel: nat)
    requires I.binary(Subtraction, 1, 1) == 0
    ensures !Regular(COUNTDOWN)
    ensures Exec(I, map["i" := 0], false, COUNTDOWN, map[0 := 1], 2) == Normal(map[0 := 0])
    ensures Exec(I, map["i" := 0], true, COUNTDOWN, map[0 := 1], fuel) == Timeout
  {
    var env := map["i" := 0];
    var m := map[0 := 1];
    CounterTest(I, m);
    assert Evaluate(I, env, Literal(0, Integral(true, 4)), m).1 == m;
    SkippingDiverges(I, m, fuel);
    var done := map[0 := 0];
    CounterTest(I, done);
    assert Evaluate(I, env, COUNTER, m) == (Object(0), m);
    assert Evaluate(I, env, COUNTDOWN.step, m).1 == m[0 := 0] == done;
    assert ExecAll(I, env, false, [Continue], m, 1) == Continued(m);
    assert Again(I, env, false, Some(COUNTER), [Continue], Some(COUNTDOWN.step), done, 1) == Normal(done);
    assert Iterate(I, env, false, Some(COUNTER), [Continue], Some(COUNTDOWN.step), m, 2) == Normal(done);
    assert ContinueFreeAll([Continue]) == false;
  }
}
