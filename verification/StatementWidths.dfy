/** Functions whose operators have operands of equal width are translated without ever meeting the assertions on
    widths. */
module StatementWidths {
  import opened Options
  import opened AllocationMaps
  import opened Ssa
  import opened PseudoAssembly
  import opened ReferenceCounts
  import opened BodyTranslation
  import opened BodyLayout
  import opened Expressions
  import opened ExpressionLowering
  import opened ExpressionShapes
  import opened Statements
  import opened StatementShapes
  import opened Functions
  import opened FunctionShapes
  import opened RegisterWidths
  import opened OperandWidths

  predicate TypedTest(types: map<string, nat>, test: Option<Expression>) {
    test.Some? ==> Typed(types, test.value)
  }

  /** All expressions are typed, and names are declared with their widths. */
  predicate TypedStatement(types: map<string, nat>, st: Statement)
    decreases st, 0
  {
    match st
    case Evaluation(e) => Typed(types, e)
    case Declaration(name, width, initialiser) => name in types && types[name] == width && TypedTest(types, initialiser)
    case If(condition, thenBody, elseBody) =>
      Typed(types, condition) && TypedAll(types, thenBody) && TypedAll(types, elseBody)
    case While(test, body) => TypedTest(types, test) && TypedAll(types, body)
    case For(init, test, step, body) =>
      TypedStatement(types, init) && TypedTest(types, test) && Typed(types, step) && TypedAll(types, body)
    case DoWhile(test, body) => TypedTest(types, test) && TypedAll(types, body)
    case Return(returned) => TypedTest(types, returned)
    case _ => true
  }

  predicate TypedAll(types: map<string, nat>, sts: seq<Statement>)
    decreases sts, 0
  {
    forall i :: 0 <= i < |sts| ==> TypedStatement(types, sts[i])
  }

  /** Nothing asserted fails, and the names still have registers of their widths. */
  ghost predicate Fitting(types: map<string, nat>, l: Emitted, before: Layout) {
    Even(before, l.nodes) && Fit(types, l.cursor.names, LayOutAll(before, l.nodes), l.cursor.next)
  }

  lemma NothingFits(types: map<string, nat>, c: Cursor, before: Layout)
    requires Fit(types, c.names, before, c.next)
    ensures Fitting(types, Nothing(c), before)
  {
  }

  lemma FittingAfter(types: map<string, nat>, a: Emitted, b: Emitted, before: Layout)
    requires Even(before, a.nodes) && Fitting(types, b, LayOutAll(before, a.nodes))
    ensures Fitting(types, b.After(a), before)
  {
    EvenConcat(before, a.nodes, b.nodes);
  }

  lemma FittingThen(types: map<string, nat>, l: Emitted, node: Node, before: Layout)
    requires Fitting(types, l, before) && !node.CompareNode? && ResultOf(node).None? && !node.BinaryNode?
    ensures Fitting(types, l.Then([node]), before)
  {
    EvenConcat(before, l.nodes, [node]);
    EvenOne(LayOutAll(before, l.nodes), node);
  }

  lemma ExpressionFits(types: map<string, nat>, c: Cursor, l: Lowered, before: Layout, width: nat)
    requires Sized(before, l, c.next, width) && Fit(types, c.names, before, c.next)
    ensures Fitting(types, FromExpression(c, l), before)
  {
    FitKept(types, c.names, before, LayOutAll(before, l.nodes), c.next, l.next);
  }

  lemma ValueFits(types: map<string, nat>, c: Cursor, e: Expression, before: Layout)
    requires Fine(c.names.Keys, e) && Typed(types, e) && Fit(types, c.names, before, c.next)
    ensures Loaded(c.names, e, c.next).result.Some? && Fitting(types, FromExpression(c, Loaded(c.names, e, c.next)), before)
  {
    hide Fitting, Fit, Even;
    LoadedSized(types, c.names, e, c.next, before);
    ExpressionFits(types, c, Loaded(c.names, e, c.next), before, e.Width());
  }

  lemma EvaluationFits(types: map<string, nat>, c: Cursor, e: Expression, before: Layout)
    requires Fine(c.names.Keys, e) && Typed(types, e) && Fit(types, c.names, before, c.next)
    ensures Fitting(types, FromExpression(c, Lower(c.names, e, c.next)), before)
  {
    hide Fitting, Fit, Even;
    LoweredSized(types, c.names, e, c.next, before);
    ExpressionFits(types, c, Lower(c.names, e, c.next), before, e.Width());
  }

  // ----- tests -----

  lemma TestIsTyped(types: map<string, nat>, known: set<string>, condition: Expression)
    requires Typed(types, condition) && FineTest(known, Some(condition))
    ensures Typed(types, Test(condition)) && Test(condition).Compare? && ExpressionLowering.Resolved(known, Test(condition))
    ensures Translatable(Test(condition).left) && Translatable(Test(condition).right)
  {
  }

  lemma ComparisonFits(types: map<string, nat>, c: Cursor, t: Expression, before: Layout)
    requires t.Compare? && ExpressionLowering.Resolved(c.names.Keys, t) && Typed(types, t) && Fit(types, c.names, before, c.next)
    requires Translatable(t.left) && Translatable(t.right)
    ensures Fitting(types, FromExpression(c, Loaded(c.names, t, c.next)), before)
  {
    hide Loaded, Lower, ExpressionLowering.Resolved, Translatable, Even, Fit, LayOutAll, Kept;
    var a, b := OperandsSized(types, c.names, t, c.next, before);
    CompareLowered(c.names, t, c.next);
    ComparedFits(types, c, b.After(a), t, a.result.value, before);
  }

  lemma ComparedFits(types: map<string, nat>, c: Cursor, both: Lowered, t: Expression, left: nat, before: Layout)
    requires t.Compare? && Fit(types, c.names, before, c.next) && Sized(before, both, c.next, t.right.Width())
    requires WidthAt(LayOutAll(before, both.nodes), left) == t.right.Width()
    ensures var compare := CompareNode(t.comparison, Register(both.next, t.Width()), left, both.result.value);
            Fitting(types, FromExpression(c, both.Into(compare)), before)
  {
    var compare := CompareNode(t.comparison, Register(both.next, t.Width()), left, both.result.value);
    EvenConcat(before, both.nodes, [compare]);
    EvenOne(LayOutAll(before, both.nodes), compare);
    FitKept(types, c.names, before, LayOutAll(before, both.nodes), c.next, both.next + 1);
  }

  lemma BranchFits(types: map<string, nat>, c: Cursor, test: Option<Expression>, trueLabel: string, falseLabel: string,
                   before: Layout)
    requires FineTest(c.names.Keys, test) && TypedTest(types, test) && Fit(types, c.names, before, c.next)
    ensures LowerBranch(c, test, trueLabel, falseLabel).1
    ensures LowerBranch(c, test, trueLabel, falseLabel).0.cursor.names.Keys == c.names.Keys
    ensures Fitting(types, LowerBranch(c, test, trueLabel, falseLabel).0, before)
  {
    hide Fitting, Fit, Well, FineTest, Test;
    WellBranch(c, test, trueLabel, falseLabel);
    WellKeys(c, LowerBranch(c, test, trueLabel, falseLabel).0, {});
    if test.None? {
      NothingFits(types, c, before);
      FittingThen(types, Nothing(c), GotoNode(trueLabel), before);
    } else {
      TestIsTyped(types, c.names.Keys, test.value);
      ComparisonFits(types, c, Test(test.value), before);
      var l := Loaded(c.names, Test(test.value), c.next);
      FittingThen(types, FromExpression(c, l), BranchNode(l.result.value, trueLabel, falseLabel), before);
    }
  }

  // ----- statements -----

  lemma ReservationFits(types: map<string, nat>, c: Cursor, name: string, width: nat, before: Layout)
    requires name !in c.names && name in types && types[name] == width && Fit(types, c.names, before, c.next)
    ensures var declared := Cursor(c.names[name := c.next], c.next + 1, c.nextLabel);
            Fitting(types, Nothing(declared).Then([AllocationNode(Register(c.next, width))]), before)
  {
    var node := AllocationNode(Register(c.next, width));
    EvenOne(before, node);
    assert [] + [node] == [node];
    assert LayOutAll(before, [node]) == before[c.next := Descriptor(width, AllocationClass.Allocation)];
  }

  lemma DeclarationFits(types: map<string, nat>, c: Cursor, name: string, width: nat, initialiser: Option<Expression>,
                        before: Layout)
    requires name !in c.names && (initialiser.Some? ==> Fine(c.names.Keys + {name}, initialiser.value))
    requires name in types && types[name] == width && TypedTest(types, initialiser) && Fit(types, c.names, before, c.next)
    ensures Fitting(types, LowerDeclaration(c, name, width, initialiser), before)
  {
    hide Fit, LayOutAll, LayOut, Even, Fine;
    var declared := Cursor(c.names[name := c.next], c.next + 1, c.nextLabel);
    var reserved := Nothing(declared).Then([AllocationNode(Register(c.next, width))]);
    ReservationFits(types, c, name, width, before);
    if initialiser.Some? {
      assert declared.names.Keys == c.names.Keys + {name};
      InitialiserFits(types, declared, c.next, initialiser.value, LayOutAll(before, reserved.nodes));
      FittingAfter(types, reserved, LowerInitialiser(declared, c.next, initialiser.value), before);
    }
  }

  lemma InitialiserFits(types: map<string, nat>, c: Cursor, register: nat, e: Expression, before: Layout)
    requires Fine(c.names.Keys, e) && Typed(types, e) && Fit(types, c.names, before, c.next)
    ensures !e.Missing? && Fitting(types, LowerInitialiser(c, register, e), before)
  {
    hide Fitting, Fit;
    if e.Literal? {
      NothingFits(types, c, before);
      FittingThen(types, Nothing(c), StoreIntegerNode(register, e.value), before);
    } else {
      ValueFits(types, c, e, before);
      var l := Loaded(c.names, e, c.next);
      FittingThen(types, FromExpression(c, l), StoreNode(register, l.result.value), before);
    }
  }

  lemma ReturnFits(types: map<string, nat>, c: Cursor, isVoid: bool, returned: Option<Expression>, before: Layout)
    requires if returned.None? then isVoid else Fine(c.names.Keys, returned.value)
    requires TypedTest(types, returned) && Fit(types, c.names, before, c.next)
    ensures Fitting(types, LowerReturn(c, isVoid, returned), before)
  {
    hide Fitting, Fit;
    if returned.None? {
      NothingFits(types, c, before);
      FittingThen(types, Nothing(c), ReturnNode(None), before);
    } else {
      ValueFits(types, c, returned.value, before);
      var l := Loaded(c.names, returned.value, c.next);
      FittingThen(types, FromExpression(c, l), ReturnNode(l.result), before);
    }
  }

  lemma {:induction false} StatementFits(types: map<string, nat>, w: Surroundings, c: Cursor, st: Statement, loop: bool,
                                         before: Layout)
    requires Accepted(c.names.Keys, loop, w.isVoid, st) && HasTargets(w, loop) && TypedStatement(types, st)
    requires Fit(types, c.names, before, c.next)
    ensures Fitting(types, LowerStatement(w, c, st), before)
    decreases st, 3
  {
    hide Fitting, Fit;
    match st
    case Evaluation(e) => EvaluationFits(types, c, e, before);
    case Declaration(name, width, initialiser) => DeclarationFits(types, c, name, width, initialiser, before);
    case If(_, _, _) => IfFits(types, w, c, st, loop, before);
    case While(_, _) => WhileFits(types, w, c, st, loop, before);
    case DoWhile(_, _) => WhileFits(types, w, c, st, loop, before);
    case For(_, _, _, _) => ForFits(types, w, c, st, loop, before);
    case Return(returned) => ReturnFits(types, c, w.isVoid, returned, before);
    case Break =>
      NothingFits(types, c, before);
      FittingThen(types, Nothing(c), GotoNode(w.jumps[|w.jumps| - 1].breakLabel), before);
    case Continue =>
      NothingFits(types, c, before);
      FittingThen(types, Nothing(c), GotoNode(ContinueTarget(w.jumps).value), before);
  }

  lemma {:induction false} AllFit(types: map<string, nat>, w: Surroundings, c: Cursor, sts: seq<Statement>, loop: bool,
                                  before: Layout)
    requires AcceptedAll(c.names.Keys, loop, w.isVoid, sts) && HasTargets(w, loop) && TypedAll(types, sts)
    requires Fit(types, c.names, before, c.next)
    ensures Fitting(types, LowerAll(w, c, sts), before)
    ensures LowerAll(w, c, sts).cursor.names.Keys == c.names.Keys + DeclaredAll(sts)
    decreases sts, 0
  {
    hide Fit, Even, Well, LowerStatement;
    WellAll(w, c, sts, loop);
    WellKeys(c, LowerAll(w, c, sts), DeclaredAll(sts));
    if sts == [] {
      NothingFits(types, c, before);
    } else {
      var first := LowerStatement(w, c, sts[0]);
      StatementFits(types, w, c, sts[0], loop, before);
      WellStatement(w, c, sts[0], loop);
      WellKeys(c, first, Declared(sts[0]));
      AllFit(types, w, first.cursor, sts[1..], loop, LayOutAll(before, first.nodes));
      FittingAfter(types, first, LowerAll(w, first.cursor, sts[1..]), before);
    }
  }

  /** A label, and statements behind it. */
  lemma {:induction false} LabelledFit(types: map<string, nat>, w: Surroundings, c: Cursor, sts: seq<Statement>,
                                       loop: bool, label_: string, before: Layout)
    requires AcceptedAll(c.names.Keys, loop, w.isVoid, sts) && HasTargets(w, loop) && TypedAll(types, sts)
    requires Fit(types, c.names, before, c.next)
    ensures Fitting(types, LowerAll(w, c, sts).After(Nothing(c).Then([LabelNode(label_)])), before)
    ensures LowerAll(w, c, sts).cursor.names.Keys == c.names.Keys + DeclaredAll(sts)
    decreases sts, 1
  {
    hide Fit, Even, LowerAll, AcceptedAll, TypedAll, DeclaredAll, HasTargets;
    var labelled := Nothing(c).Then([LabelNode(label_)]);
    NothingFits(types, c, before);
    FittingThen(types, Nothing(c), LabelNode(label_), before);
    AllFit(types, w, c, sts, loop, LayOutAll(before, labelled.nodes));
    FittingAfter(types, labelled, LowerAll(w, c, sts), before);
  }

  lemma {:induction false} IfFits(types: map<string, nat>, w: Surroundings, c: Cursor, st: Statement, loop: bool,
                                  before: Layout)
    requires st.If? && Accepted(c.names.Keys, loop, w.isVoid, st) && HasTargets(w, loop) && TypedStatement(types, st)
    requires Fit(types, c.names, before, c.next)
    ensures Fitting(types, LowerIf(w, c, st), before)
    decreases st, 2
  {
    hide Fit, Even, LabelName, LowerBranch, LowerArms, AcceptedAll, FineTest, HasTargets, TypedAll;
    var thenLabel := LabelName(w.function_, "if.then", c.nextLabel);
    var endLabel := LabelName(w.function_, "if.end", c.nextLabel + 1);
    var elseLabel := if st.elseBody == [] then endLabel else LabelName(w.function_, "if.else", c.nextLabel + 2);
    var labelled := c.(nextLabel := c.nextLabel + if st.elseBody == [] then 2 else 3);
    BranchFits(types, labelled, Some(st.condition), thenLabel, elseLabel, before);
    var tested := LowerBranch(labelled, Some(st.condition), thenLabel, elseLabel).0;
    ArmsFit(types, w, tested.cursor, st, thenLabel, elseLabel, endLabel, loop, LayOutAll(before, tested.nodes));
    FittingAfter(types, tested, LowerArms(w, tested.cursor, st, thenLabel, elseLabel, endLabel), before);
  }

  lemma {:induction false} ArmsFit(types: map<string, nat>, w: Surroundings, c: Cursor, st: Statement, thenLabel: string,
                                   elseLabel: string, endLabel: string, loop: bool, before: Layout)
    requires st.If? && HasTargets(w, loop) && AcceptedAll(c.names.Keys, loop, w.isVoid, st.thenBody)
    requires AcceptedAll(c.names.Keys + DeclaredAll(st.thenBody), loop, w.isVoid, st.elseBody)
    requires TypedAll(types, st.thenBody) && TypedAll(types, st.elseBody) && Fit(types, c.names, before, c.next)
    ensures Fitting(types, LowerArms(w, c, st, thenLabel, elseLabel, endLabel), before)
    decreases st, 1
  {
    hide Fit, Even, LowerAll, AcceptedAll, HasTargets, TypedAll, DeclaredAll;
    LabelledFit(types, w, c, st.thenBody, loop, thenLabel, before);
    var labelled := Nothing(c).Then([LabelNode(thenLabel)]);
    FittingThen(types, LowerAll(w, c, st.thenBody).After(labelled), GotoNode(endLabel), before);
    var first := LowerThen(w, c, st.thenBody, thenLabel, endLabel);
    var after := LayOutAll(before, first.nodes);
    if st.elseBody == [] {
      NothingFits(types, first.cursor, after);
    } else {
      LabelledFit(types, w, first.cursor, st.elseBody, loop, elseLabel, after);
    }
    var otherwise := LowerElse(w, first.cursor, st.elseBody, elseLabel);
    FittingAfter(types, first, otherwise, before);
    FittingThen(types, otherwise.After(first), LabelNode(endLabel), before);
  }

  lemma {:induction false} WhileFits(types: map<string, nat>, w: Surroundings, c: Cursor, st: Statement, loop: bool,
                                     before: Layout)
    requires (st.While? || st.DoWhile?) && Accepted(c.names.Keys, loop, w.isVoid, st) && TypedStatement(types, st)
    requires Fit(types, c.names, before, c.next)
    ensures Fitting(types, LowerStatement(w, c, st), before)
    decreases st, 2
  {
    hide Fit, Even, LabelName, LowerLoop, LowerEntry, AcceptedAll, FineTest, TypedAll, Fitting;
    var labelled := c.(nextLabel := c.nextLabel + 3);
    if st.DoWhile? {
      LoopFits(types, w, labelled, st.test, st.body, None, LabelName(w.function_, "do.body", c.nextLabel),
               LabelName(w.function_, "do.cont", c.nextLabel + 1), LabelName(w.function_, "do.end", c.nextLabel + 2), before);
    } else {
      EntryFits(types, w, labelled, st.test, st.body, None, LabelName(w.function_, "while.body", c.nextLabel),
                LabelName(w.function_, "while.cont", c.nextLabel + 1), LabelName(w.function_, "while.end", c.nextLabel + 2),
                before);
    }
  }

  lemma {:induction false} ForFits(types: map<string, nat>, w: Surroundings, c: Cursor, st: Statement, loop: bool,
                                   before: Layout)
    requires st.For? && Accepted(c.names.Keys, loop, w.isVoid, st) && HasTargets(w, loop) && TypedStatement(types, st)
    requires Fit(types, c.names, before, c.next)
    ensures Fitting(types, LowerStatement(w, c, st), before)
    decreases st, 2
  {
    hide Fit, Even, LabelName, LowerEntry, AcceptedAll, FineTest, TypedAll, Well, Fine;
    var labelled := c.(nextLabel := c.nextLabel + 3);
    var bodyLabel := LabelName(w.function_, "for.body", c.nextLabel);
    var continueLabel := LabelName(w.function_, "for.cont", c.nextLabel + 1);
    var endLabel := LabelName(w.function_, "for.end", c.nextLabel + 2);
    var begun := LowerStatement(w, labelled, st.init);
    StatementFits(types, w, labelled, st.init, loop, before);
    WellStatement(w, labelled, st.init, loop);
    WellKeys(labelled, begun, Declared(st.init));
    EntryFits(types, w, begun.cursor, st.test, st.body, Some(st.step), bodyLabel, continueLabel, endLabel,
              LayOutAll(before, begun.nodes));
    FittingAfter(types, begun,
                 LowerEntry(w, begun.cursor, st.test, st.body, Some(st.step), bodyLabel, continueLabel, endLabel), before);
  }

  lemma {:induction false} EntryFits(types: map<string, nat>, w: Surroundings, c: Cursor, test: Option<Expression>,
                                     body: seq<Statement>, step: Option<Expression>, bodyLabel: string,
                                     continueLabel: string, endLabel: string, before: Layout)
    requires AcceptedAll(c.names.Keys, true, w.isVoid, body) && FineTest(c.names.Keys, test)
    requires step.Some? ==> Fine(c.names.Keys + DeclaredAll(body), step.value)
    requires TypedTest(types, test) && TypedTest(types, step) && TypedAll(types, body) && Fit(types, c.names, before, c.next)
    ensures Fitting(types, LowerEntry(w, c, test, body, step, bodyLabel, continueLabel, endLabel), before)
    decreases body, 3
  {
    hide Fit, Even, LowerBranch, LowerLoop, AcceptedAll, FineTest, Fine, DeclaredAll, TypedAll, TypedTest;
    BranchFits(types, c, test, bodyLabel, endLabel, before);
    var first := LowerBranch(c, test, bodyLabel, endLabel).0;
    FineTestWider(c.names.Keys, c.names.Keys + DeclaredAll(body), test);
    LoopFits(types, w, first.cursor, test, body, step, bodyLabel, continueLabel, endLabel, LayOutAll(before, first.nodes));
    FittingAfter(types, first, LowerLoop(w, first.cursor, test, body, step, bodyLabel, continueLabel, endLabel), before);
  }

  lemma {:induction false} LoopFits(types: map<string, nat>, w: Surroundings, c: Cursor, test: Option<Expression>,
                                    body: seq<Statement>, step: Option<Expression>, bodyLabel: string,
                                    continueLabel: string, endLabel: string, before: Layout)
    requires AcceptedAll(c.names.Keys, true, w.isVoid, body) && FineTest(c.names.Keys + DeclaredAll(body), test)
    requires step.Some? ==> Fine(c.names.Keys + DeclaredAll(body), step.value)
    requires TypedTest(types, test) && TypedTest(types, step) && TypedAll(types, body) && Fit(types, c.names, before, c.next)
    ensures Fitting(types, LowerLoop(w, c, test, body, step, bodyLabel, continueLabel, endLabel), before)
    decreases body, 2
  {
    hide Fit, Even, LowerBranch, LowerAll, LowerStep, AcceptedAll, FineTest, Fine, DeclaredAll, TypedAll, TypedTest, LayOutAll;
    var labelled := Nothing(c).Then([LabelNode(bodyLabel)]);
    LabelledFit(types, w.Inside(endLabel, continueLabel), c, body, true, bodyLabel, before);
    var inner := LowerAll(w.Inside(endLabel, continueLabel), c, body);
    var fallen := inner.After(labelled);
    StepFits(types, inner.cursor, step, LayOutAll(before, fallen.nodes));
    var stepped := LowerStep(inner.cursor, step);
    FittingAfter(types, fallen, stepped, before);
    FittingThen(types, stepped.After(fallen), LabelNode(continueLabel), before);
    var iteration := stepped.After(fallen).Then([LabelNode(continueLabel)]);
    BranchFits(types, iteration.cursor, test, bodyLabel, endLabel, LayOutAll(before, iteration.nodes));
    var again := LowerBranch(iteration.cursor, test, bodyLabel, endLabel).0;
    FittingAfter(types, iteration, again, before);
    FittingThen(types, again.After(iteration), LabelNode(endLabel), before);
  }

  lemma StepFits(types: map<string, nat>, c: Cursor, step: Option<Expression>, before: Layout)
    requires (step.Some? ==> Fine(c.names.Keys, step.value)) && TypedTest(types, step) && Fit(types, c.names, before, c.next)
    ensures Fitting(types, LowerStep(c, step), before) && LowerStep(c, step).cursor.names == c.names
  {
    hide Fitting, Fit;
    if step.None? {
      NothingFits(types, c, before);
    } else {
      EvaluationFits(types, c, step.value, before);
    }
  }

  // ----- functions -----

  predicate TypedFunction(types: map<string, nat>, f: Function) {
    TypedAll(types, f.body)
    && forall i :: 0 <= i < |f.parameters| ==> f.parameters[i].name in types && types[f.parameters[i].name] == f.parameters[i].width
  }

  lemma {:induction false} ParametersFit(types: map<string, nat>, c: Cursor, scope: nat, parameters: seq<Parameter>,
                                         index: nat, before: Layout)
    requires Distinct(parameters) && NewNames(c, parameters) && Fit(types, c.names, before, c.next)
    requires forall i :: 0 <= i < |parameters| ==>
               parameters[i].name in types && types[parameters[i].name] == parameters[i].width
    ensures Fitting(types, LowerParameters(c, scope, parameters, index), before)
    decreases |parameters|
  {
    if parameters == [] {
      NothingFits(types, c, before);
    } else {
      var first := LowerParameter(c, scope, parameters[0], index);
      OneParameterFits(types, c, scope, parameters[0], index, before);
      assert Distinct(parameters[1..]) && NewNames(first.cursor, parameters[1..]);
      hide Fit, Even;
      ParametersFit(types, first.cursor, scope, parameters[1..], index + 1, LayOutAll(before, first.nodes));
      FittingAfter(types, first, LowerParameters(first.cursor, scope, parameters[1..], index + 1), before);
    }
  }

  lemma OneParameterFits(types: map<string, nat>, c: Cursor, scope: nat, parameter: Parameter, index: nat, before: Layout)
    requires parameter.name !in c.names && parameter.name in types && types[parameter.name] == parameter.width
    requires Fit(types, c.names, before, c.next)
    ensures Fitting(types, LowerParameter(c, scope, parameter, index), before)
  {
    var register := Register(c.next, parameter.width);
    var a, p := AllocationNode(register), ParameterNode(scope, register, index);
    assert [a, p] == [a] + [p] && LowerParameter(c, scope, parameter, index).nodes == [a, p];
    EvenConcat(before, [a], [p]);
    EvenOne(before, a);
    EvenOne(LayOutAll(before, [a]), p);
  }

  lemma EndFits(f: Function, c: Cursor, nodes: seq<Node>, before: Layout)
    ensures Even(before, LowerEnd(f, c, nodes).nodes)
  {
    var zero, back := ImmediateNode(Register(c.next, f.returnWidth), 0), ReturnNode(Some(c.next));
    assert [zero, back] == [zero] + [back];
    EvenConcat(before, [zero], [back]);
    EvenOne(before, zero);
    EvenOne(LayOutAll(before, [zero]), back);
    EvenOne(before, ReturnNode(None));
  }

  lemma FunctionIsEven(types: map<string, nat>, f: Function)
    requires AcceptedFunction(f) && TypedFunction(types, f)
    ensures Even(map[], LowerFunction(f).nodes)
  {
    hide Even, LowerParameters, LowerAll, LowerEnd, AcceptedAll, TypedAll;
    FunctionIsShaped(f);
    FunctionParts(f);
    var begin, body := LowerBegin(f), LowerBody(f);
    assert Fit(types, START.names, map[], START.next);
    assert begin.cursor.names.Keys == ParameterNames(f.parameters);
    ParametersFit(types, START, f.scope, f.parameters, 0, map[]);
    AllFit(types, f.Around(), begin.cursor, f.body, false, LayOutAll(map[], begin.nodes));
    EvenConcat(map[], begin.nodes, body.nodes);
    EndFits(f, LowerBody(f).cursor, begin.nodes + body.nodes, LayOutAll(map[], begin.nodes + body.nodes));
    EvenConcat(map[], begin.nodes + body.nodes, End(f).nodes);
    assert begin.nodes + body.nodes + End(f).nodes == begin.nodes + (body.nodes + End(f).nodes);
  }

  lemma {:induction false} LayoutsAre(body: seq<Node>, n: nat)
    requires n <= |body|
    ensures Layouts(body, n) == LayOutAll(map[], body[..n])
    decreases n
  {
    hide LayOut;
    if n > 0 {
      LayoutsAre(body, n - 1);
      assert body[..n][..n - 1] == body[..n - 1] && body[..n][n - 1] == body[n - 1];
    }
  }

  lemma OperandDescribed(body: seq<Node>, n: nat, c: Context, k: nat)
    requires WellFormed(body) && n < |body| && Good(body, n, c) && Described(body, n, c) && k < |Lookups(body[n])|
    ensures DescribedWidth(c, Lookups(body[n])[k]) == WidthAt(Layouts(body, n), Lookups(body[n])[k])
  {
    hide DescribedWidth, Described, Layouts, Renaming, Ended, Counted;
    var r := Lookups(body[n])[k];
    assert WellFormedAt(body, n);
    AllFound(body, n, c);
    assert Tracked(body, n, c, r);
    OperandWidth(body, n, c, r);
  }

  lemma OperandsDescribed(body: seq<Node>, n: nat)
    requires WellFormed(body) && n < |body| && (body[n].BinaryNode? || body[n].CompareNode?)
    ensures DescribedWidth(Parsed(body, n), body[n].left) == WidthAt(Layouts(body, n), body[n].left)
    ensures DescribedWidth(Parsed(body, n), body[n].right) == WidthAt(Layouts(body, n), body[n].right)
  {
    hide DescribedWidth, Described, Layouts, Good, Found, Virtuals, Released, WellFormed, Parsed, Renaming;
    var c := Parsed(body, n);
    AlwaysGood(body, n);
    WidthsAreDescribed(body, n);
    assert Lookups(body[n])[0] == body[n].left && Lookups(body[n])[1] == body[n].right;
    OperandDescribed(body, n, c, 0);
    OperandDescribed(body, n, c, 1);
  }

  /** Whenever an operator or a comparison of the lowered function is translated, its two operands are described
      with the same width, as is asserted there. */
  lemma WidthAssertionsHold(types: map<string, nat>, f: Function, n: nat)
    requires AcceptedFunction(f) && TypedFunction(types, f) && n < |LowerFunction(f).nodes|
    requires LowerFunction(f).nodes[n].BinaryNode? || LowerFunction(f).nodes[n].CompareNode?
    ensures var body, c := LowerFunction(f).nodes, Parsed(LowerFunction(f).nodes, n);
            Found(c, [body[n].left, body[n].right])
            && DescribedWidth(c, body[n].left) == DescribedWidth(c, body[n].right)
  {
    hide LowerFunction, AcceptedFunction, TypedFunction, Parsed, DescribedWidth;
    var body := LowerFunction(f).nodes;
    LowersToRunnable(f);
    FunctionIsEven(types, f);
    EvenEverywhere(map[], body, n);
    LayoutsAre(body, n);
    OperandsDescribed(body, n);
    NeverLooksUpReleased(body, n);
    assert Lookups(body[n]) == [body[n].left, body[n].right];
  }
}
