/** What lowering reports. Statements that are not accepted are reported, wherever they stand, and no others. */
module StatementDiagnostics {
  import opened Options
  import opened Ssa
  import opened Expressions
  import opened ExpressionLowering
  import opened ExpressionShapes
  import opened Statements
  import opened StatementShapes
  import opened Functions

  // ----- statements of expressions that can be lowered -----

  /** An expression that only an unknown name or an unsupported part keeps from being fine. */
  predicate Sayable(e: Expression) {
    Spoken(e) && Sound(e) && Translatable(e)
  }

  predicate SayableTest(test: Option<Expression>) {
    test.None?
    || if test.value.Compare? then Sayable(test.value.left) && Sayable(test.value.right) else Sayable(test.value)
  }

  /** Nothing is said here of names, of loops around, or of what a function returns. */
  predicate Expressible(st: Statement)
    decreases st, 0
  {
    match st
    case Evaluation(e) => Sayable(e)
    case Declaration(_, _, initialiser) => initialiser.Some? ==> Sayable(initialiser.value)
    case If(condition, thenBody, elseBody) =>
      SayableTest(Some(condition)) && ExpressibleAll(thenBody) && ExpressibleAll(elseBody)
    case While(test, body) => SayableTest(test) && ExpressibleAll(body)
    case For(init, test, step, body) => Expressible(init) && SayableTest(test) && Sayable(step) && ExpressibleAll(body)
    case DoWhile(test, body) => SayableTest(test) && ExpressibleAll(body)
    case Return(returned) => returned.Some? ==> Sayable(returned.value)
    case _ => true
  }

  predicate ExpressibleAll(sts: seq<Statement>)
    decreases sts, 0
  {
    sts == [] || (Expressible(sts[0]) && ExpressibleAll(sts[1..]))
  }

  // ----- expressions and branches -----

  lemma TestReports(known: set<string>, condition: Expression)
    requires SayableTest(Some(condition)) && !FineTest(known, Some(condition))
    ensures !Test(condition).Missing? && Spoken(Test(condition)) && !Resolved(known, Test(condition))
  {
  }

  lemma BranchReports(c: Cursor, test: Option<Expression>, trueLabel: string, falseLabel: string)
    requires SayableTest(test) && !FineTest(c.names.Keys, test)
    ensures LowerBranch(c, test, trueLabel, falseLabel).0.diagnostics > 0
    ensures !LowerBranch(c, test, trueLabel, falseLabel).1
  {
    TestReports(c.names.Keys, test.value);
    FailuresAreReported(c.names, Test(test.value), c.next);
  }

  lemma StepReports(c: Cursor, step: Option<Expression>)
    requires step.Some? && Sayable(step.value) && !Fine(c.names.Keys, step.value)
    ensures LowerStep(c, step).diagnostics > 0
  {
    FailuresAreReported(c.names, step.value, c.next);
  }

  lemma DeclarationReports(c: Cursor, name: string, width: nat, initialiser: Option<Expression>)
    requires initialiser.Some? ==> Sayable(initialiser.value)
    requires name in c.names || (initialiser.Some? && !Fine(c.names.Keys + {name}, initialiser.value))
    ensures LowerDeclaration(c, name, width, initialiser).diagnostics > 0
  {
    if name !in c.names {
      var declared := Cursor(c.names[name := c.next], c.next + 1, c.nextLabel);
      assert declared.names.Keys == c.names.Keys + {name};
      FailuresAreReported(declared.names, initialiser.value, declared.next);
    }
  }

  lemma ReturnReports(c: Cursor, isVoid: bool, returned: Option<Expression>)
    requires returned.Some? ==> Sayable(returned.value)
    requires if returned.None? then !isVoid else !Fine(c.names.Keys, returned.value)
    ensures LowerReturn(c, isVoid, returned).diagnostics > 0
  {
    if returned.Some? {
      FailuresAreReported(c.names, returned.value, c.next);
    }
  }

  // ----- statements -----

  /** There are targets for `break` and `continue` just inside loops. */
  predicate Targets(w: Surroundings, loop: bool) {
    HasTargets(w, loop) && (!loop ==> w.jumps == [])
  }

  lemma {:induction false} RejectedIsReported(w: Surroundings, c: Cursor, st: Statement, loop: bool)
    requires Targets(w, loop) && Expressible(st) && !Accepted(c.names.Keys, loop, w.isVoid, st)
    ensures LowerStatement(w, c, st).diagnostics > 0
    decreases st, 2
  {
    match st
    case Evaluation(e) => FailuresAreReported(c.names, e, c.next);
    case Declaration(name, width, initialiser) => DeclarationReports(c, name, width, initialiser);
    case If(_, _, _) => IfReports(w, c, st, loop);
    case Return(returned) => ReturnReports(c, w.isVoid, returned);
    case Break =>
    case Continue =>
    case _ => LoopStatementReports(w, c, st, loop);
  }

  lemma {:induction false} RejectedAllReported(w: Surroundings, c: Cursor, sts: seq<Statement>, loop: bool)
    requires Targets(w, loop) && ExpressibleAll(sts) && !AcceptedAll(c.names.Keys, loop, w.isVoid, sts)
    ensures LowerAll(w, c, sts).diagnostics > 0
    decreases sts, 0
  {
    hide LowerStatement, Accepted, Expressible, Declared, Well;
    if !Accepted(c.names.Keys, loop, w.isVoid, sts[0]) {
      RejectedIsReported(w, c, sts[0], loop);
    } else {
      WellStatement(w, c, sts[0], loop);
      var first := LowerStatement(w, c, sts[0]);
      WellKeys(c, first, Declared(sts[0]));
      RejectedAllReported(w, first.cursor, sts[1..], loop);
    }
  }

  lemma {:induction false} IfReports(w: Surroundings, c: Cursor, st: Statement, loop: bool)
    requires st.If? && Targets(w, loop) && Expressible(st) && !Accepted(c.names.Keys, loop, w.isVoid, st)
    ensures LowerIf(w, c, st).diagnostics > 0
    decreases st, 1
  {
    hide LabelName, LowerBranch, LowerArms, Well, FineTest, SayableTest;
    var thenLabel := LabelName(w.function_, "if.then", c.nextLabel);
    var endLabel := LabelName(w.function_, "if.end", c.nextLabel + 1);
    var elseLabel := if st.elseBody == [] then endLabel else LabelName(w.function_, "if.else", c.nextLabel + 2);
    var labelled := c.(nextLabel := c.nextLabel + if st.elseBody == [] then 2 else 3);
    if !FineTest(c.names.Keys, Some(st.condition)) {
      BranchReports(labelled, Some(st.condition), thenLabel, elseLabel);
    } else {
      var tested := LowerBranch(labelled, Some(st.condition), thenLabel, elseLabel).0;
      WellBranch(labelled, Some(st.condition), thenLabel, elseLabel);
      WellKeys(labelled, tested, {});
      assert tested.cursor.names.Keys == c.names.Keys;
      ArmsReport(w, tested.cursor, st, thenLabel, elseLabel, endLabel, loop);
    }
  }

  lemma {:induction false} ArmsReport(w: Surroundings, c: Cursor, st: Statement, thenLabel: string, elseLabel: string,
                                      endLabel: string, loop: bool)
    requires st.If? && Targets(w, loop) && ExpressibleAll(st.thenBody) && ExpressibleAll(st.elseBody)
    requires !AcceptedAll(c.names.Keys, loop, w.isVoid, st.thenBody)
             || !AcceptedAll(c.names.Keys + DeclaredAll(st.thenBody), loop, w.isVoid, st.elseBody)
    ensures LowerArms(w, c, st, thenLabel, elseLabel, endLabel).diagnostics > 0
    decreases st, 0
  {
    hide LowerAll, Well, AcceptedAll, ExpressibleAll;
    if !AcceptedAll(c.names.Keys, loop, w.isVoid, st.thenBody) {
      RejectedAllReported(w, c, st.thenBody, loop);
    } else {
      var first := LowerThen(w, c, st.thenBody, thenLabel, endLabel);
      WellThenPart(w, c, st.thenBody, thenLabel, endLabel, loop);
      WellKeys(c, first, DeclaredAll(st.thenBody));
      NoneRejected(first.cursor.names.Keys, loop, w.isVoid);
      RejectedAllReported(w, first.cursor, st.elseBody, loop);
    }
  }

  lemma NoneRejected(known: set<string>, loop: bool, isVoid: bool)
    ensures AcceptedAll(known, loop, isVoid, [])
  {
  }

  lemma {:induction false} LoopStatementReports(w: Surroundings, c: Cursor, st: Statement, loop: bool)
    requires st.While? || st.For? || st.DoWhile?
    requires Targets(w, loop) && Expressible(st) && !Accepted(c.names.Keys, loop, w.isVoid, st)
    ensures LowerStatement(w, c, st).diagnostics > 0
    decreases st, 1
  {
    hide LabelName, LowerEntry, LowerLoop, Well, FineTest, SayableTest, Fine, Sayable, AcceptedAll, ExpressibleAll;
    var labelled := c.(nextLabel := c.nextLabel + 3);
    match st
    case While(test, body) =>
      EntryReports(w, labelled, test, body, None, LabelName(w.function_, "while.body", c.nextLabel),
                   LabelName(w.function_, "while.cont", c.nextLabel + 1), LabelName(w.function_, "while.end", c.nextLabel + 2));
    case DoWhile(test, body) =>
      LoopReports(w, labelled, test, body, None, LabelName(w.function_, "do.body", c.nextLabel),
                  LabelName(w.function_, "do.cont", c.nextLabel + 1), LabelName(w.function_, "do.end", c.nextLabel + 2));
    case For(init, test, step, body) =>
      if !Accepted(c.names.Keys, loop, w.isVoid, init) {
        RejectedIsReported(w, labelled, init, loop);
      } else {
        var begun := LowerStatement(w, labelled, init);
        WellStatement(w, labelled, init, loop);
        WellKeys(labelled, begun, Declared(init));
        EntryReports(w, begun.cursor, test, body, Some(step), LabelName(w.function_, "for.body", c.nextLabel),
                     LabelName(w.function_, "for.cont", c.nextLabel + 1), LabelName(w.function_, "for.end", c.nextLabel + 2));
      }
  }

  /** What a loop that is entered through its test asks for. */
  predicate AcceptedLoop(known: set<string>, isVoid: bool, test: Option<Expression>, body: seq<Statement>,
                         step: Option<Expression>) {
    AcceptedAll(known, true, isVoid, body) && FineTest(known + DeclaredAll(body), test)
    && (step.Some? ==> Fine(known + DeclaredAll(body), step.value))
  }

  lemma {:induction false} EntryReports(w: Surroundings, c: Cursor, test: Option<Expression>, body: seq<Statement>,
                                        step: Option<Expression>, bodyLabel: string, continueLabel: string, endLabel: string)
    requires SayableTest(test) && ExpressibleAll(body) && (step.Some? ==> Sayable(step.value))
    requires !FineTest(c.names.Keys, test) || !AcceptedLoop(c.names.Keys, w.isVoid, test, body, step)
    ensures LowerEntry(w, c, test, body, step, bodyLabel, continueLabel, endLabel).diagnostics > 0
    decreases body, 2
  {
    hide LowerBranch, LowerLoop, Well, FineTest, SayableTest, Fine, Sayable, AcceptedLoop, ExpressibleAll;
    if !FineTest(c.names.Keys, test) {
      BranchReports(c, test, bodyLabel, endLabel);
    } else {
      var first := LowerBranch(c, test, bodyLabel, endLabel).0;
      WellBranch(c, test, bodyLabel, endLabel);
      WellKeys(c, first, {});
      assert first.cursor.names.Keys == c.names.Keys;
      LoopReports(w, first.cursor, test, body, step, bodyLabel, continueLabel, endLabel);
    }
  }

  lemma LoopDiagnostics(w: Surroundings, c: Cursor, test: Option<Expression>, body: seq<Statement>,
                        step: Option<Expression>, bodyLabel: string, continueLabel: string, endLabel: string)
    ensures var inner := LowerAll(w.Inside(endLabel, continueLabel), c, body);
            var stepped := LowerStep(inner.cursor, step);
            LowerLoop(w, c, test, body, step, bodyLabel, continueLabel, endLabel).diagnostics
            == inner.diagnostics + stepped.diagnostics + LowerBranch(stepped.cursor, test, bodyLabel, endLabel).0.diagnostics
  {
    hide LowerAll, LowerStep, LowerBranch;
  }

  lemma {:induction false} LoopReports(w: Surroundings, c: Cursor, test: Option<Expression>, body: seq<Statement>,
                                       step: Option<Expression>, bodyLabel: string, continueLabel: string, endLabel: string)
    requires SayableTest(test) && ExpressibleAll(body) && (step.Some? ==> Sayable(step.value))
    requires !AcceptedLoop(c.names.Keys, w.isVoid, test, body, step)
    ensures LowerLoop(w, c, test, body, step, bodyLabel, continueLabel, endLabel).diagnostics > 0
    decreases body, 1
  {
    hide LowerBranch, LowerAll, LowerLoop, LowerStep, AcceptedAll, FineTest, Fine, DeclaredAll, Well, ExpressibleAll;
    hide SayableTest, Sayable;
    LoopDiagnostics(w, c, test, body, step, bodyLabel, continueLabel, endLabel);
    var inside := w.Inside(endLabel, continueLabel);
    var inner := LowerAll(inside, c, body);
    if !AcceptedAll(c.names.Keys, true, w.isVoid, body) {
      RejectedAllReported(inside, c, body, true);
    } else {
      WellAll(inside, c, body, true);
      WellKeys(c, inner, DeclaredAll(body));
      var stepped := LowerStep(inner.cursor, step);
      if step.Some? && !Fine(inner.cursor.names.Keys, step.value) {
        StepReports(inner.cursor, step);
      } else {
        WellStep(inner.cursor, step);
        WellKeys(inner.cursor, stepped, {});
        assert stepped.cursor.names.Keys == inner.cursor.names.Keys;
        BranchReports(stepped.cursor, test, bodyLabel, endLabel);
      }
    }
  }

  /** Whatever the statement, it is lowered without a diagnostic if and only if it is accepted. */
  lemma ReportedUnlessAccepted(w: Surroundings, c: Cursor, st: Statement, loop: bool)
    requires Targets(w, loop) && Expressible(st)
    ensures LowerStatement(w, c, st).diagnostics == 0 <==> Accepted(c.names.Keys, loop, w.isVoid, st)
  {
    hide LowerStatement, Accepted;
    if Accepted(c.names.Keys, loop, w.isVoid, st) {
      WellStatement(w, c, st, loop);
    } else {
      RejectedIsReported(w, c, st, loop);
    }
  }

  // ----- functions -----

  lemma {:induction false} ParametersAreNamed(c: Cursor, scope: nat, parameters: seq<Parameter>, index: nat)
    ensures var l := LowerParameters(c, scope, parameters, index);
            l.diagnostics == 0 && l.cursor.names.Keys == c.names.Keys + ParameterNames(parameters)
    decreases |parameters|
  {
    if parameters != [] {
      var first := LowerParameter(c, scope, parameters[0], index);
      ParametersAreNamed(first.cursor, scope, parameters[1..], index + 1);
      assert first.cursor.names.Keys == c.names.Keys + {parameters[0].name};
    }
  }

  /** A function is lowered without a diagnostic if and only if its body is accepted behind its parameters. */
  lemma FunctionReportedUnlessAccepted(f: Function)
    requires ExpressibleAll(f.body)
    ensures LowerFunction(f).diagnostics == 0 <==> AcceptedAll(ParameterNames(f.parameters), false, f.isVoid, f.body)
  {
    hide LowerAll, AcceptedAll, Well, LowerParameters, ParameterNames;
    ParametersAreNamed(START, f.scope, f.parameters, 0);
    var begun := LowerBegin(f);
    assert begun.cursor.names.Keys == ParameterNames(f.parameters);
    if AcceptedAll(ParameterNames(f.parameters), false, f.isVoid, f.body) {
      WellAll(f.Around(), begun.cursor, f.body, false);
      NothingReported(begun.cursor, LowerBody(f), DeclaredAll(f.body));
    } else {
      RejectedAllReported(f.Around(), begun.cursor, f.body, false);
    }
  }

  lemma NothingReported(c: Cursor, l: Emitted, declared: set<string>)
    requires Well(c, l, declared)
    ensures l.diagnostics == 0
  {
  }
}
