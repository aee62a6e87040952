/** Every lowered statement places new labels only, each once, and jumps to them or to the labels of
    the loops around it. */
module StatementLabels {
  import opened Options
  import opened Ssa
  import opened Expressions
  import opened ExpressionLowering
  import opened ExpressionShapes
  import opened Statements
  import opened StatementShapes
  import opened LabelShapes

  lemma {:induction false} ContinueIsJumpName(jumps: seq<JumpTarget>)
    requires ContinueTarget(jumps).Some?
    ensures ContinueTarget(jumps).value in JumpNames(jumps)
    decreases |jumps|
  {
    if jumps[|jumps| - 1].continueLabel.None? {
      ContinueIsJumpName(jumps[..|jumps| - 1]);
    }
  }

  lemma InsideNames(w: Surroundings, endLabel: string, continueLabel: string)
    ensures JumpNames(w.Inside(endLabel, continueLabel).jumps) == JumpNames(w.jumps) + {continueLabel, endLabel}
  {
    var jumps := w.Inside(endLabel, continueLabel).jumps;
    assert jumps[..|jumps| - 1] == w.jumps;
  }

  lemma LabelledComputing(function_: string, outside: set<string>, c: Cursor, l: Lowered)
    requires AllComputing(l.nodes)
    ensures Labelled(function_, outside, c, FromExpression(c, l))
  {
    LabelledPlain(function_, outside, c, FromExpression(c, l));
  }

  lemma LabelledStep(function_: string, outside: set<string>, c: Cursor, step: Option<Expression>)
    requires step.Some? ==> Fine(c.names.Keys, step.value)
    ensures Labelled(function_, outside, c, LowerStep(c, step))
  {
    if step.None? {
      LabelledPlain(function_, outside, c, Nothing(c));
    } else {
      LoweredShape(c.names, step.value, c.next);
      LabelledComputing(function_, outside, c, Lower(c.names, step.value, c.next));
    }
  }

  lemma PlainThen(nodes: seq<Node>, node: Node)
    requires AllComputing(nodes) && (node.ReturnNode? || Computing(node))
    ensures forall i :: 0 <= i < |nodes + [node]| ==>
              !(nodes + [node])[i].LabelNode? && !(nodes + [node])[i].GotoNode? && !(nodes + [node])[i].BranchNode?
  {
  }

  lemma LabelledInitialiser(function_: string, outside: set<string>, c: Cursor, register: nat, e: Expression)
    requires Fine(c.names.Keys, e)
    ensures Labelled(function_, outside, c, LowerInitialiser(c, register, e))
  {
    if !e.Literal? {
      LoadedShape(c.names, e, c.next);
      var l := Loaded(c.names, e, c.next);
      PlainThen(l.nodes, StoreNode(register, l.result.value));
    }
    LabelledPlain(function_, outside, c, LowerInitialiser(c, register, e));
  }

  lemma LabelledReservation(function_: string, outside: set<string>, c: Cursor, declared: Cursor, register: Register)
    requires declared.nextLabel == c.nextLabel
    ensures Labelled(function_, outside, c, Nothing(declared).Then([AllocationNode(register)]))
  {
    hide Labelled;
    LabelledPlain(function_, outside, c, Nothing(declared).Then([AllocationNode(register)]));
  }

  lemma NotMissing(names: set<string>, e: Expression)
    requires Fine(names, e)
    ensures !e.Missing?
  {
  }

  lemma LabelledDeclaration(function_: string, outside: set<string>, c: Cursor, name: string, width: nat,
                            initialiser: Option<Expression>)
    requires name !in c.names && (initialiser.Some? ==> Fine(c.names.Keys + {name}, initialiser.value))
    ensures Labelled(function_, outside, c, LowerDeclaration(c, name, width, initialiser))
  {
    var declared := Cursor(c.names[name := c.next], c.next + 1, c.nextLabel);
    var reserved := Nothing(declared).Then([AllocationNode(Register(c.next, width))]);
    LabelledReservation(function_, outside, c, declared, Register(c.next, width));
    hide Labelled, Fine, LowerInitialiser;
    if initialiser.Some? {
      NotMissing(c.names.Keys + {name}, initialiser.value);
      assert declared.names.Keys == c.names.Keys + {name};
      LabelledInitialiser(function_, outside, declared, c.next, initialiser.value);
      LabelledAfter(function_, outside, c, reserved, LowerInitialiser(declared, c.next, initialiser.value));
    }
  }

  lemma LabelledReturn(function_: string, outside: set<string>, c: Cursor, isVoid: bool, returned: Option<Expression>)
    requires returned.Some? ==> Fine(c.names.Keys, returned.value)
    ensures Labelled(function_, outside, c, LowerReturn(c, isVoid, returned))
  {
    if returned.Some? {
      LoadedShape(c.names, returned.value, c.next);
      var l := Loaded(c.names, returned.value, c.next);
      PlainThen(l.nodes, ReturnNode(l.result));
    }
    LabelledPlain(function_, outside, c, LowerReturn(c, isVoid, returned));
  }

  lemma LabelledJump(w: Surroundings, c: Cursor, st: Statement)
    requires (st.Break? || st.Continue?) && HasTargets(w, true)
    ensures Labelled(w.function_, JumpNames(w.jumps), c, LowerStatement(w, c, st))
  {
    if st.Continue? {
      ContinueIsJumpName(w.jumps);
    }
    var target := if st.Break? then w.jumps[|w.jumps| - 1].breakLabel else ContinueTarget(w.jumps).value;
    OneJump(w.function_, target);
    OwnedWider(w.function_, [GotoNode(target)], {}, Range(c.nextLabel, c.nextLabel));
    assert [] + [GotoNode(target)] == [GotoNode(target)];
  }

  // ----- loops -----

  /** The labels of a loop: its own three, and those of its parts. */
  ghost predicate LoopLabelled(function_: string, outside: set<string>, c: Cursor, l: Emitted, bodyLabel: string,
                               continueLabel: string, endLabel: string) {
    c.nextLabel <= l.cursor.nextLabel
    && Owned(function_, l.nodes, Three(IndexOf(function_, bodyLabel), IndexOf(function_, continueLabel),
                                       IndexOf(function_, endLabel), c.nextLabel, l.cursor.nextLabel))
    && Mentioned(l.nodes) <= LabelSet(l.nodes) + outside && {bodyLabel, endLabel} <= LabelSet(l.nodes)
  }

  lemma {:induction false} LabelledLoop(w: Surroundings, c: Cursor, test: Option<Expression>, body: seq<Statement>,
                                        step: Option<Expression>, bodyLabel: string, continueLabel: string,
                                        endLabel: string)
    requires AcceptedAll(c.names.Keys, true, w.isVoid, body) && FineTest(c.names.Keys + DeclaredAll(body), test)
    requires step.Some? ==> Fine(c.names.Keys + DeclaredAll(body), step.value)
    requires Apart(w.function_, bodyLabel, continueLabel, endLabel, c.nextLabel)
    ensures LoopLabelled(w.function_, JumpNames(w.jumps), c,
                         LowerLoop(w, c, test, body, step, bodyLabel, continueLabel, endLabel),
                         bodyLabel, continueLabel, endLabel)
    decreases body, 1
  {
    var inside := w.Inside(endLabel, continueLabel);
    var outside := JumpNames(w.jumps) + {continueLabel, endLabel};
    var inner := LowerAll(inside, c, body);
    var stepped := LowerStep(inner.cursor, step);
    InsideNames(w, endLabel, continueLabel);
    assert Labelled(w.function_, outside, c, inner) by { LabelledAll(inside, c, body, true); }
    assert inner.cursor.names.Keys == c.names.Keys + DeclaredAll(body) by { WellAll(inside, c, body, true); }
    LabelledStep(w.function_, outside, inner.cursor, step);
    LabelledAfter(w.function_, outside, c, inner, stepped);
    StepNames(inner.cursor, step);
    LoopPartsLabelled(w, c, inner, stepped, test, bodyLabel, continueLabel, endLabel);
  }

  lemma StepNames(c: Cursor, step: Option<Expression>)
    ensures LowerStep(c, step).cursor.names == c.names
  {
  }

  lemma LoopPartsLabelled(w: Surroundings, c: Cursor, inner: Emitted, stepped: Emitted, test: Option<Expression>,
                          bodyLabel: string, continueLabel: string, endLabel: string)
    requires Labelled(w.function_, JumpNames(w.jumps) + {continueLabel, endLabel}, c, stepped.After(inner))
    requires FineTest(stepped.cursor.names.Keys, test)
    requires Apart(w.function_, bodyLabel, continueLabel, endLabel, c.nextLabel)
    ensures var again := LowerBranch(stepped.cursor, test, bodyLabel, endLabel).0;
            var front := stepped.After(inner.After(Nothing(c).Then([LabelNode(bodyLabel)])));
            LoopLabelled(w.function_, JumpNames(w.jumps), c,
                         again.After(front.Then([LabelNode(continueLabel)])).Then([LabelNode(endLabel)]),
                         bodyLabel, continueLabel, endLabel)
    ensures LowerBranch(stepped.cursor, test, bodyLabel, endLabel).1
  {
    var again := LowerBranch(stepped.cursor, test, bodyLabel, endLabel).0;
    var parts := stepped.After(inner);
    WellBranch(stepped.cursor, test, bodyLabel, endLabel);
    TestLabels(w.function_, stepped.cursor, test, bodyLabel, endLabel);
    LoopOwned(w.function_, bodyLabel, parts.nodes, continueLabel, again.nodes, endLabel, c.nextLabel,
              stepped.cursor.nextLabel);
    LoopMentions(bodyLabel, parts.nodes, continueLabel, again.nodes, endLabel, JumpNames(w.jumps));
    LoopNodes(bodyLabel, inner.nodes, stepped.nodes, continueLabel, again.nodes, endLabel);
  }

  lemma LoopNodes(a: string, inner: seq<Node>, stepped: seq<Node>, b: string, test: seq<Node>, c: string)
    ensures [] + [LabelNode(a)] + inner + stepped + [LabelNode(b)] + test + [LabelNode(c)]
         == [LabelNode(a)] + (inner + stepped) + [LabelNode(b)] + test + [LabelNode(c)]
  {
  }

  // ----- every statement -----

  lemma {:induction false} LabelledAll(w: Surroundings, c: Cursor, sts: seq<Statement>, loop: bool)
    requires AcceptedAll(c.names.Keys, loop, w.isVoid, sts) && HasTargets(w, loop)
    ensures Labelled(w.function_, JumpNames(w.jumps), c, LowerAll(w, c, sts))
    decreases sts, 0
  {
    if sts == [] {
      LabelledPlain(w.function_, JumpNames(w.jumps), c, Nothing(c));
    } else {
      var first := LowerStatement(w, c, sts[0]);
      LabelledStatement(w, c, sts[0], loop);
      assert first.cursor.names.Keys == c.names.Keys + Declared(sts[0]) by { WellStatement(w, c, sts[0], loop); }
      LabelledAll(w, first.cursor, sts[1..], loop);
      LabelledAfter(w.function_, JumpNames(w.jumps), c, first, LowerAll(w, first.cursor, sts[1..]));
    }
  }

  /** Three labels drawn one after the other. */
  lemma DrawnApart(function_: string, a: string, b: string, c: string, n: nat)
    ensures var x, y, z := LabelName(function_, a, n), LabelName(function_, b, n + 1), LabelName(function_, c, n + 2);
            IndexOf(function_, x) == n && IndexOf(function_, y) == n + 1 && IndexOf(function_, z) == n + 2
            && forall from: nat :: n + 3 <= from ==> Apart(function_, x, y, z, from)
  {
    IndexOfLabel(function_, a, n);
    IndexOfLabel(function_, b, n + 1);
    IndexOfLabel(function_, c, n + 2);
  }

  /** A loop entered through its test. */
  lemma {:induction false} LabelledEntry(w: Surroundings, c: Cursor, test: Option<Expression>, body: seq<Statement>,
                                         step: Option<Expression>, bodyLabel: string, continueLabel: string,
                                         endLabel: string)
    requires AcceptedAll(c.names.Keys, true, w.isVoid, body) && FineTest(c.names.Keys, test)
    requires step.Some? ==> Fine(c.names.Keys + DeclaredAll(body), step.value)
    requires Apart(w.function_, bodyLabel, continueLabel, endLabel, c.nextLabel)
    ensures LoopLabelled(w.function_, JumpNames(w.jumps), c,
                         LowerEntry(w, c, test, body, step, bodyLabel, continueLabel, endLabel),
                         bodyLabel, continueLabel, endLabel)
    decreases body, 2
  {
    var first := LowerBranch(c, test, bodyLabel, endLabel).0;
    TestLabels(w.function_, c, test, bodyLabel, endLabel);
    BranchNames(c, test, bodyLabel, endLabel);
    FineTestWider(c.names.Keys, c.names.Keys + DeclaredAll(body), test);
    LabelledLoop(w, first.cursor, test, body, step, bodyLabel, continueLabel, endLabel);
    LabelledBehind(w.function_, JumpNames(w.jumps), c, first,
                   LowerLoop(w, first.cursor, test, body, step, bodyLabel, continueLabel, endLabel),
                   bodyLabel, continueLabel, endLabel);
    assert LowerBranch(c, test, bodyLabel, endLabel).1 by { WellBranch(c, test, bodyLabel, endLabel); }
  }

  /** A loop behind a test on its labels. */
  lemma LabelledBehind(function_: string, outside: set<string>, c: Cursor, first: Emitted, rest: Emitted, a: string,
                       b: string, d: string)
    requires first.cursor.nextLabel == c.nextLabel && LabelSet(first.nodes) == {} && Mentioned(first.nodes) <= {a, d}
    requires Owned(function_, first.nodes, {}) && LoopLabelled(function_, outside, first.cursor, rest, a, b, d)
    ensures LoopLabelled(function_, outside, c, rest.After(first), a, b, d)
  {
    var X := Three(IndexOf(function_, a), IndexOf(function_, b), IndexOf(function_, d), c.nextLabel, rest.cursor.nextLabel);
    OwnedConcat(function_, first.nodes, rest.nodes, {}, X);
    assert {} + X == X;
    LabelsConcat(first.nodes, rest.nodes);
  }

  lemma BranchNames(c: Cursor, test: Option<Expression>, trueLabel: string, falseLabel: string)
    ensures LowerBranch(c, test, trueLabel, falseLabel).0.cursor.names == c.names
  {
  }

  lemma LoopRange(function_: string, outside: set<string>, c: Cursor, labelled: Cursor, l: Emitted, a: string, b: string,
                  d: string)
    requires labelled.nextLabel == c.nextLabel + 3
    requires IndexOf(function_, a) == c.nextLabel && IndexOf(function_, b) == c.nextLabel + 1
    requires IndexOf(function_, d) == c.nextLabel + 2
    requires LoopLabelled(function_, outside, labelled, l, a, b, d)
    ensures Labelled(function_, outside, c, l)
  {
    assert Three(c.nextLabel, c.nextLabel + 1, c.nextLabel + 2, labelled.nextLabel, l.cursor.nextLabel)
        == Range(c.nextLabel, l.cursor.nextLabel);
  }

  lemma {:induction false} LabelledWhile(w: Surroundings, c: Cursor, st: Statement, loop: bool)
    requires (st.While? || st.DoWhile?) && Accepted(c.names.Keys, loop, w.isVoid, st)
    ensures Labelled(w.function_, JumpNames(w.jumps), c, LowerStatement(w, c, st))
    decreases st, 1
  {
    hide Labelled, LowerLoop, LowerEntry, LabelName, FineTest, AcceptedAll;
    var labelled := c.(nextLabel := c.nextLabel + 3);
    var n := c.nextLabel;
    if st.DoWhile? {
      var a, b, d := LabelName(w.function_, "do.body", n), LabelName(w.function_, "do.cont", n + 1),
                     LabelName(w.function_, "do.end", n + 2);
      DrawnApart(w.function_, "do.body", "do.cont", "do.end", n);
      LabelledLoop(w, labelled, st.test, st.body, None, a, b, d);
      LoopRange(w.function_, JumpNames(w.jumps), c, labelled, LowerStatement(w, c, st), a, b, d);
    } else {
      var a, b, d := LabelName(w.function_, "while.body", n), LabelName(w.function_, "while.cont", n + 1),
                     LabelName(w.function_, "while.end", n + 2);
      DrawnApart(w.function_, "while.body", "while.cont", "while.end", n);
      LabelledEntry(w, labelled, st.test, st.body, None, a, b, d);
      LoopRange(w.function_, JumpNames(w.jumps), c, labelled, LowerStatement(w, c, st), a, b, d);
    }
  }

  lemma RangeAround(n: nat, mid: nat, hi: nat)
    requires n + 3 <= mid <= hi
    ensures Range(n + 3, mid) !! Three(n, n + 1, n + 2, mid, hi)
    ensures Range(n + 3, mid) + Three(n, n + 1, n + 2, mid, hi) == Range(n, hi)
  {
  }

  lemma RangeArms(n: nat, lonely: bool, mid: nat, hi: nat, X: set<int>, Y: set<int>)
    requires n + (if lonely then 2 else 3) <= mid <= hi
    requires X == {n as int} + Range(n + if lonely then 2 else 3, mid)
    requires Y == (if lonely then {} else {n as int + 2}) + Range(mid, hi)
    ensures X !! Y && (n + 1) as int !in X + Y && X + Y + {(n + 1) as int} == Range(n, hi)
  {
  }

  /** The initialisation of a `for` loop, and the loop. */
  lemma LabelledAround(function_: string, outside: set<string>, c: Cursor, labelled: Cursor, begun: Emitted, rest: Emitted,
                       a: string, b: string, d: string)
    requires labelled.nextLabel == c.nextLabel + 3
    requires IndexOf(function_, a) == c.nextLabel && IndexOf(function_, b) == c.nextLabel + 1
    requires IndexOf(function_, d) == c.nextLabel + 2
    requires Labelled(function_, outside, labelled, begun)
    requires LoopLabelled(function_, outside, begun.cursor, rest, a, b, d)
    ensures Labelled(function_, outside, c, rest.After(begun))
  {
    var n := c.nextLabel;
    var X := Range(n + 3, begun.cursor.nextLabel);
    var Y := Three(n, n + 1, n + 2, begun.cursor.nextLabel, rest.cursor.nextLabel);
    OwnedConcat(function_, begun.nodes, rest.nodes, X, Y);
    RangeAround(n, begun.cursor.nextLabel, rest.cursor.nextLabel);
    LabelsConcat(begun.nodes, rest.nodes);
  }

  lemma {:induction false} LabelledFor(w: Surroundings, c: Cursor, st: Statement, loop: bool)
    requires st.For? && Accepted(c.names.Keys, loop, w.isVoid, st) && HasTargets(w, loop)
    ensures Labelled(w.function_, JumpNames(w.jumps), c, LowerStatement(w, c, st))
    decreases st, 1
  {
    var labelled := c.(nextLabel := c.nextLabel + 3);
    var n := c.nextLabel;
    var a, b, d := LabelName(w.function_, "for.body", n), LabelName(w.function_, "for.cont", n + 1),
                   LabelName(w.function_, "for.end", n + 2);
    var begun := LowerStatement(w, labelled, st.init);
    LabelledStatement(w, labelled, st.init, loop);
    assert begun.cursor.names.Keys == c.names.Keys + Declared(st.init) by { WellStatement(w, labelled, st.init, loop); }
    DrawnApart(w.function_, "for.body", "for.cont", "for.end", n);
    LabelledEntry(w, begun.cursor, st.test, st.body, Some(st.step), a, b, d);
    LabelledAround(w.function_, JumpNames(w.jumps), c, labelled, begun,
                   LowerEntry(w, begun.cursor, st.test, st.body, Some(st.step), a, b, d), a, b, d);
  }

  // ----- the arms of an if -----

  lemma {:induction false} LabelledThen(w: Surroundings, c: Cursor, body: seq<Statement>, thenLabel: string,
                                        endLabel: string, loop: bool)
    requires AcceptedAll(c.names.Keys, loop, w.isVoid, body) && HasTargets(w, loop)
    requires IndexOf(w.function_, thenLabel) < c.nextLabel
    ensures var l := LowerThen(w, c, body, thenLabel, endLabel);
            c.nextLabel <= l.cursor.nextLabel
            && Owned(w.function_, l.nodes, {IndexOf(w.function_, thenLabel)} + Range(c.nextLabel, l.cursor.nextLabel))
            && Mentioned(l.nodes) <= LabelSet(l.nodes) + JumpNames(w.jumps) + {endLabel} && thenLabel in LabelSet(l.nodes)
    decreases body, 1
  {
    var inner := LowerAll(w, c, body);
    LabelledAll(w, c, body, loop);
    OneLabel(w.function_, thenLabel);
    OneJump(w.function_, endLabel);
    var X := {IndexOf(w.function_, thenLabel)};
    OwnedConcat(w.function_, [LabelNode(thenLabel)], inner.nodes, X, Range(c.nextLabel, inner.cursor.nextLabel));
    OwnedConcat(w.function_, [LabelNode(thenLabel)] + inner.nodes, [GotoNode(endLabel)],
                X + Range(c.nextLabel, inner.cursor.nextLabel), {});
    LabelsConcat([LabelNode(thenLabel)], inner.nodes);
    LabelsConcat([LabelNode(thenLabel)] + inner.nodes, [GotoNode(endLabel)]);
    assert [] + [LabelNode(thenLabel)] == [LabelNode(thenLabel)];
    assert X + Range(c.nextLabel, inner.cursor.nextLabel) + {} == X + Range(c.nextLabel, inner.cursor.nextLabel);
  }

  lemma {:induction false} LabelledElse(w: Surroundings, c: Cursor, body: seq<Statement>, elseLabel: string, loop: bool)
    requires AcceptedAll(c.names.Keys, loop, w.isVoid, body) && HasTargets(w, loop)
    requires IndexOf(w.function_, elseLabel) < c.nextLabel
    ensures var l := LowerElse(w, c, body, elseLabel);
            c.nextLabel <= l.cursor.nextLabel
            && Owned(w.function_, l.nodes, (if body == [] then {} else {IndexOf(w.function_, elseLabel)})
                                           + Range(c.nextLabel, l.cursor.nextLabel))
            && Mentioned(l.nodes) <= LabelSet(l.nodes) + JumpNames(w.jumps)
            && (body != [] ==> elseLabel in LabelSet(l.nodes))
    decreases body, 1
  {
    if body != [] {
      var inner := LowerAll(w, c, body);
      LabelledAll(w, c, body, loop);
      OneLabel(w.function_, elseLabel);
      OwnedConcat(w.function_, [LabelNode(elseLabel)], inner.nodes, {IndexOf(w.function_, elseLabel)},
                  Range(c.nextLabel, inner.cursor.nextLabel));
      LabelsConcat([LabelNode(elseLabel)], inner.nodes);
      assert [] + [LabelNode(elseLabel)] == [LabelNode(elseLabel)];
    } else {
      OwnedWider(w.function_, [], {}, {} + Range(c.nextLabel, c.nextLabel));
    }
  }

  /** A test, a first arm, a second arm, an end label. */
  lemma ArmsOwned(function_: string, test: seq<Node>, first: seq<Node>, otherwise: seq<Node>, endLabel: string,
                  X: set<int>, Y: set<int>)
    requires Owned(function_, test, {}) && Owned(function_, first, X) && Owned(function_, otherwise, Y)
    requires X !! Y && IndexOf(function_, endLabel) !in X + Y
    ensures Owned(function_, test + (first + otherwise + [LabelNode(endLabel)]), X + Y + {IndexOf(function_, endLabel)})
  {
    var e := {IndexOf(function_, endLabel)};
    OneLabel(function_, endLabel);
    OwnedConcat(function_, first, otherwise, X, Y);
    OwnedConcat(function_, first + otherwise, [LabelNode(endLabel)], X + Y, e);
    OwnedConcat(function_, test, first + otherwise + [LabelNode(endLabel)], {}, X + Y + e);
    assert {} + (X + Y + e) == X + Y + e;
  }

  lemma ArmsMention(outside: set<string>, test: seq<Node>, first: seq<Node>, otherwise: seq<Node>, thenLabel: string,
                    elseLabel: string, endLabel: string)
    requires LabelSet(test) == {} && Mentioned(test) <= {thenLabel, elseLabel}
    requires Mentioned(first) <= LabelSet(first) + outside + {endLabel} && thenLabel in LabelSet(first)
    requires Mentioned(otherwise) <= LabelSet(otherwise) + outside
    requires elseLabel == endLabel || elseLabel in LabelSet(otherwise)
    ensures var nodes := test + (first + otherwise + [LabelNode(endLabel)]);
            Mentioned(nodes) <= LabelSet(nodes) + outside
  {
    OneLabel("", endLabel);
    LabelsConcat(first, otherwise);
    LabelsConcat(first + otherwise, [LabelNode(endLabel)]);
    LabelsConcat(test, first + otherwise + [LabelNode(endLabel)]);
  }

  lemma IfNodes(w: Surroundings, c: Cursor, st: Statement, labelled: Cursor, thenLabel: string, elseLabel: string,
                endLabel: string)
    requires st.If? && FineTest(c.names.Keys, Some(st.condition))
    requires thenLabel == LabelName(w.function_, "if.then", c.nextLabel)
    requires endLabel == LabelName(w.function_, "if.end", c.nextLabel + 1)
    requires elseLabel == if st.elseBody == [] then endLabel else LabelName(w.function_, "if.else", c.nextLabel + 2)
    requires labelled == c.(nextLabel := c.nextLabel + if st.elseBody == [] then 2 else 3)
    requires LowerBranch(labelled, Some(st.condition), thenLabel, elseLabel).1
    ensures var tested := LowerBranch(labelled, Some(st.condition), thenLabel, elseLabel).0;
            LowerStatement(w, c, st) == LowerArms(w, tested.cursor, st, thenLabel, elseLabel, endLabel).After(tested)
  {
    var tested := LowerBranch(labelled, Some(st.condition), thenLabel, elseLabel).0;
    assert LowerChoice(w, labelled, st, thenLabel, elseLabel, endLabel)
        == (LowerArms(w, tested.cursor, st, thenLabel, elseLabel, endLabel).After(tested), true);
  }

  /** The test and the arms of an `if`, where the condition leaves the cursor. */
  lemma {:induction false} LabelledTested(w: Surroundings, c: Cursor, st: Statement, tested: Emitted, thenLabel: string,
                                          elseLabel: string, endLabel: string, n: nat, loop: bool)
    requires st.If? && HasTargets(w, loop) && AcceptedAll(c.names.Keys, loop, w.isVoid, st.thenBody)
    requires AcceptedAll(c.names.Keys + DeclaredAll(st.thenBody), loop, w.isVoid, st.elseBody)
    requires tested.cursor.names == c.names && tested.cursor.nextLabel == n + if st.elseBody == [] then 2 else 3
    requires LabelSet(tested.nodes) == {} && Mentioned(tested.nodes) <= {thenLabel, elseLabel}
    requires Owned(w.function_, tested.nodes, {})
    requires IndexOf(w.function_, thenLabel) == n && IndexOf(w.function_, endLabel) == n + 1
    requires if st.elseBody == [] then elseLabel == endLabel else IndexOf(w.function_, elseLabel) == n + 2
    ensures var l := LowerArms(w, tested.cursor, st, thenLabel, elseLabel, endLabel).After(tested);
            n <= l.cursor.nextLabel && Owned(w.function_, l.nodes, Range(n, l.cursor.nextLabel))
            && Mentioned(l.nodes) <= LabelSet(l.nodes) + JumpNames(w.jumps)
    decreases st, 0
  {
    hide Owned, LabelSet, Mentioned, AcceptedAll, IndexOf, LowerThen, LowerElse, Range;
    LabelledThen(w, tested.cursor, st.thenBody, thenLabel, endLabel, loop);
    var first := LowerThen(w, tested.cursor, st.thenBody, thenLabel, endLabel);
    assert first.cursor.names.Keys == c.names.Keys + DeclaredAll(st.thenBody) by {
      WellThenPart(w, tested.cursor, st.thenBody, thenLabel, endLabel, loop);
    }
    LabelledElse(w, first.cursor, st.elseBody, elseLabel, loop);
    var otherwise := LowerElse(w, first.cursor, st.elseBody, elseLabel);
    var X := {n as int} + Range(tested.cursor.nextLabel, first.cursor.nextLabel);
    var Y := (if st.elseBody == [] then {} else {n as int + 2}) + Range(first.cursor.nextLabel, otherwise.cursor.nextLabel);
    RangeArms(n, st.elseBody == [], first.cursor.nextLabel, otherwise.cursor.nextLabel, X, Y);
    ArmsOwned(w.function_, tested.nodes, first.nodes, otherwise.nodes, endLabel, X, Y);
    ArmsMention(JumpNames(w.jumps), tested.nodes, first.nodes, otherwise.nodes, thenLabel, elseLabel, endLabel);
  }

  lemma {:induction false} LabelledIf(w: Surroundings, c: Cursor, st: Statement, loop: bool)
    requires st.If? && Accepted(c.names.Keys, loop, w.isVoid, st) && HasTargets(w, loop)
    ensures Labelled(w.function_, JumpNames(w.jumps), c, LowerStatement(w, c, st))
    decreases st, 1
  {
    var n := c.nextLabel;
    var lonely := st.elseBody == [];
    var thenLabel, endLabel := LabelName(w.function_, "if.then", n), LabelName(w.function_, "if.end", n + 1);
    var elseLabel := if lonely then endLabel else LabelName(w.function_, "if.else", n + 2);
    var labelled := c.(nextLabel := n + if lonely then 2 else 3);
    var tested := LowerBranch(labelled, Some(st.condition), thenLabel, elseLabel);
    IndexOfLabel(w.function_, "if.then", n);
    IndexOfLabel(w.function_, "if.end", n + 1);
    IndexOfLabel(w.function_, "if.else", n + 2);
    assert tested.1 by { WellBranch(labelled, Some(st.condition), thenLabel, elseLabel); }
    IfNodes(w, c, st, labelled, thenLabel, elseLabel, endLabel);
    TestLabels(w.function_, labelled, Some(st.condition), thenLabel, elseLabel);
    BranchNames(labelled, Some(st.condition), thenLabel, elseLabel);
    LabelledTested(w, c, st, tested.0, thenLabel, elseLabel, endLabel, n, loop);
  }

  /** Every accepted statement places labels that are new and different, and all its jumps go to
      them or to labels of the loops around it. */
  lemma {:induction false} LabelledStatement(w: Surroundings, c: Cursor, st: Statement, loop: bool)
    requires Accepted(c.names.Keys, loop, w.isVoid, st) && HasTargets(w, loop)
    ensures Labelled(w.function_, JumpNames(w.jumps), c, LowerStatement(w, c, st))
    decreases st, 2
  {
    if st.Evaluation? {
      LabelledStep(w.function_, JumpNames(w.jumps), c, Some(st.expression));
    } else if st.Declaration? {
      LabelledDeclaration(w.function_, JumpNames(w.jumps), c, st.name, st.width, st.initialiser);
    } else if st.If? {
      LabelledIf(w, c, st, loop);
    } else if st.While? || st.DoWhile? {
      LabelledWhile(w, c, st, loop);
    } else if st.For? {
      LabelledFor(w, c, st, loop);
    } else if st.Return? {
      LabelledReturn(w.function_, JumpNames(w.jumps), c, w.isVoid, st.returned);
    } else {
      LabelledJump(w, c, st);
    }
  }
}
