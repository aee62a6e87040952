/** The shape of lowered statements: registers flow forward, and every branch directly follows its
    own comparison. */
module StatementShapes {
  import opened Options
  import opened Ssa
  import opened PseudoAssembly
  import opened ReferenceCounts
  import opened Expressions
  import opened ExpressionLowering
  import opened ExpressionShapes
  import opened Statements

  // ----- statements that are lowered without complaint -----

  predicate Fine(known: set<string>, e: Expression) {
    Resolved(known, e) && Sound(e) && Translatable(e)
  }

  predicate FineTest(known: set<string>, test: Option<Expression>) {
    test.None?
    || if test.value.Compare? then Fine(known, test.value.left) && Fine(known, test.value.right) else Fine(known, test.value)
  }

  lemma TestIsFine(known: set<string>, condition: Expression)
    requires FineTest(known, Some(condition))
    ensures Test(condition).Compare? && Resolved(known, Test(condition)) && Sound(Test(condition))
  {
  }

  /** The names a statement declares, at any depth. */
  function Declared(st: Statement): set<string>
    decreases st, 0
  {
    match st
    case Declaration(name, _, _) => {name}
    case If(_, thenBody, elseBody) => DeclaredAll(thenBody) + DeclaredAll(elseBody)
    case While(_, body) => DeclaredAll(body)
    case For(init, _, _, body) => Declared(init) + DeclaredAll(body)
    case DoWhile(_, body) => DeclaredAll(body)
    case _ => {}
  }

  function DeclaredAll(sts: seq<Statement>): set<string>
    decreases sts, 0
  {
    if sts == [] then {} else Declared(sts[0]) + DeclaredAll(sts[1..])
  }

  /** Names are declared once, and before use; expressions can be lowered and translated; `break`
      and `continue` are inside a loop; only void functions return without a value. */
  predicate Accepted(known: set<string>, loop: bool, isVoid: bool, st: Statement)
    decreases st, 0
  {
    match st
    case Evaluation(e) => Fine(known, e)
    case Declaration(name, _, initialiser) =>
      name !in known && (initialiser.Some? ==> Fine(known + {name}, initialiser.value))
    case If(condition, thenBody, elseBody) =>
      FineTest(known, Some(condition)) && AcceptedAll(known, loop, isVoid, thenBody)
      && AcceptedAll(known + DeclaredAll(thenBody), loop, isVoid, elseBody)
    case While(test, body) => FineTest(known, test) && AcceptedAll(known, true, isVoid, body)
    case For(init, test, step, body) =>
      Accepted(known, loop, isVoid, init) && FineTest(known + Declared(init), test)
      && AcceptedAll(known + Declared(init), true, isVoid, body)
      && Fine(known + Declared(init) + DeclaredAll(body), step)
    case DoWhile(test, body) =>
      AcceptedAll(known, true, isVoid, body) && FineTest(known + DeclaredAll(body), test)
    case Break => loop
    case Continue => loop
    case Return(returned) => if returned.None? then isVoid else Fine(known, returned.value)
  }

  predicate AcceptedAll(known: set<string>, loop: bool, isVoid: bool, sts: seq<Statement>)
    decreases sts, 0
  {
    sts == []
    || (Accepted(known, loop, isVoid, sts[0]) && AcceptedAll(known + Declared(sts[0]), loop, isVoid, sts[1..]))
  }

  lemma {:induction false} ResolvedWider(known: set<string>, wider: set<string>, e: Expression)
    requires known <= wider && Resolved(known, e)
    ensures Resolved(wider, e)
    decreases e
  {
    match e
    case Binary(_, left, right, _) =>
      ResolvedWider(known, wider, left);
      ResolvedWider(known, wider, right);
    case Unary(_, operand, _) => ResolvedWider(known, wider, operand);
    case Convert(operand, _) => ResolvedWider(known, wider, operand);
    case PointerConversion(operand, _) => ResolvedWider(known, wider, operand);
    case AddressOf(operand, _) => ResolvedWider(known, wider, operand);
    case Dereference(operand, _) => ResolvedWider(known, wider, operand);
    case Compare(_, left, right, _) =>
      ResolvedWider(known, wider, left);
      ResolvedWider(known, wider, right);
    case Compound(_, left, right, _) =>
      ResolvedWider(known, wider, left);
      ResolvedWider(known, wider, right);
    case Assign(left, right, _) =>
      ResolvedWider(known, wider, left);
      ResolvedWider(known, wider, right);
    case PostStep(_, operand, _, _) => ResolvedWider(known, wider, operand);
    case _ =>
  }

  // ----- the nodes of statements -----

  /** Nodes that a statement can contribute, other than comparisons and branches. */
  predicate Simple(node: Node) {
    Computing(node) || node.AllocationNode? || node.LabelNode? || node.GotoNode? || node.ReturnNode?
  }

  /** Comparisons and branches come in pairs, and the branch is on its own comparison. */
  predicate Paired(nodes: seq<Node>)
    decreases |nodes|
  {
    if nodes == [] then true
    else
      var n := |nodes|;
      if nodes[n - 1].BranchNode? then
        n > 1 && nodes[n - 2].CompareNode? && nodes[n - 2].result.index == nodes[n - 1].condition && Paired(nodes[..n - 2])
      else Simple(nodes[n - 1]) && Paired(nodes[..n - 1])
  }

  lemma {:induction false} PairedConcat(a: seq<Node>, b: seq<Node>)
    requires Paired(a) && Paired(b)
    ensures Paired(a + b)
    decreases |b|
  {
    if b == [] {
      assert a + b == a;
    } else if b[|b| - 1].BranchNode? {
      PairedConcat(a, b[..|b| - 2]);
      assert (a + b)[..|a + b| - 2] == a + b[..|b| - 2];
    } else {
      PairedConcat(a, b[..|b| - 1]);
      assert (a + b)[..|a + b| - 1] == a + b[..|b| - 1];
    }
  }

  lemma {:induction false} ComputingIsPaired(nodes: seq<Node>)
    requires AllComputing(nodes)
    ensures Paired(nodes)
    decreases |nodes|
  {
    if nodes != [] {
      ComputingIsPaired(nodes[..|nodes| - 1]);
    }
  }

  ghost predicate Extends(names: map<string, nat>, more: map<string, nat>) {
    forall name :: name in names ==> name in more && more[name] == names[name]
  }

  /** What a lowering that starts at `c` keeps: registers flow from the homes of the names, the
      names grow by the declared ones, whose homes are introduced, and nothing is reported. */
  ghost predicate Well(c: Cursor, l: Emitted, declared: set<string>) {
    Grows(c, l, declared) && Paired(l.nodes)
  }

  ghost predicate Grows(c: Cursor, l: Emitted, declared: set<string>) {
    && Flows(l.nodes, Homes(c.names), c.next, l.cursor.next) && l.diagnostics == 0
    && Extends(c.names, l.cursor.names) && l.cursor.names.Keys == c.names.Keys + declared
    && Homes(l.cursor.names) <= Homes(c.names) + Defs(l.nodes)
  }

  lemma WellNothing(c: Cursor)
    ensures Well(c, Nothing(c), {})
  {
  }

  lemma GrowsAfter(c: Cursor, a: Emitted, b: Emitted, da: set<string>, db: set<string>)
    requires Grows(c, a, da) && Grows(a.cursor, b, db)
    ensures Grows(c, b.After(a), da + db)
  {
    FlowsWider(b.nodes, Homes(a.cursor.names), a.cursor.next, b.cursor.next, Homes(c.names) + Defs(a.nodes),
               a.cursor.next, b.cursor.next);
    FlowsConcat(a.nodes, b.nodes, Homes(c.names), c.next, a.cursor.next, b.cursor.next);
  }

  lemma WellAfter(c: Cursor, a: Emitted, b: Emitted, da: set<string>, db: set<string>)
    requires Well(c, a, da) && Well(a.cursor, b, db)
    ensures Well(c, b.After(a), da + db)
  {
    GrowsAfter(c, a, b, da, db);
    PairedConcat(a.nodes, b.nodes);
  }

  lemma WellBehind(c: Cursor, a: Emitted, b: Emitted, declared: set<string>)
    requires Well(c, a, declared) && Well(a.cursor, b, {})
    ensures Well(c, b.After(a), declared)
  {
    hide Well;
    WellAfter(c, a, b, declared, {});
    assert declared + {} == declared;
  }

  lemma WellBefore(c: Cursor, a: Emitted, b: Emitted, declared: set<string>)
    requires Well(c, a, {}) && Well(a.cursor, b, declared)
    ensures Well(c, b.After(a), declared)
  {
    hide Well;
    WellAfter(c, a, b, {}, declared);
    assert {} + declared == declared;
  }

  lemma WellKeys(c: Cursor, l: Emitted, declared: set<string>)
    requires Well(c, l, declared)
    ensures l.cursor.names.Keys == c.names.Keys + declared
  {
  }

  /** Labels, jumps and returns introduce nothing. */
  predicate Neutral(node: Node) {
    node.LabelNode? || node.GotoNode?
  }

  lemma WellThen(c: Cursor, l: Emitted, node: Node, declared: set<string>)
    requires Well(c, l, declared) && Neutral(node)
    ensures Well(c, l.Then([node]), declared)
  {
    FlowsThen(l.nodes, node, Homes(c.names), c.next, l.cursor.next, l.cursor.next);
    assert (l.nodes + [node])[..|l.nodes + [node]| - 1] == l.nodes;
  }

  /** A lowered expression. */
  lemma WellExpression(c: Cursor, l: Lowered)
    requires Shaped(l, Homes(c.names), c.next) && l.diagnostics == 0
    ensures Well(c, FromExpression(c, l), {})
  {
    ComputingIsPaired(l.nodes);
  }

  /** A value followed by a node that uses it. */
  lemma WellUse(c: Cursor, l: Lowered, node: Node)
    requires Shaped(l, Homes(c.names), c.next) && l.diagnostics == 0
    requires (node.StoreNode? || node.ReturnNode?) && LooksUp(node, Homes(c.names) + Defs(l.nodes))
    ensures Well(c, FromExpression(c, l).Then([node]), {})
  {
    ComputingIsPaired(l.nodes);
    FlowsThen(l.nodes, node, Homes(c.names), c.next, l.next, l.next);
    assert (l.nodes + [node])[..|l.nodes + [node]| - 1] == l.nodes;
  }

  // ----- tests -----

  lemma CompareLowered(names: map<string, nat>, t: Expression, next: nat)
    requires t.Compare?
    ensures var a := Loaded(names, t.left, next);
            var b := Loaded(names, t.right, a.next);
            a.result.Some? && b.result.Some? ==>
              Loaded(names, t, next)
              == b.After(a).Into(CompareNode(t.comparison, Register(b.next, t.Width()), a.result.value, b.result.value))
  {
    hide Fine, Shaped;
  }

  /** A lowered comparison is a computation, then the comparison itself. */
  lemma CompareShape(names: map<string, nat>, t: Expression, next: nat)
    returns (a: Lowered, b: Lowered)
    requires t.Compare? && Fine(names.Keys, t.left) && Fine(names.Keys, t.right)
    ensures a == Loaded(names, t.left, next) && b == Loaded(names, t.right, a.next)
    ensures a.result.Some? && b.result.Some? && b.After(a).diagnostics == 0
    ensures Shaped(b.After(a), Homes(names), next) && a.result.value in Homes(names) + Defs(b.After(a).nodes)
    ensures Loaded(names, t, next)
         == b.After(a).Into(CompareNode(t.comparison, Register(b.next, t.Width()), a.result.value, b.result.value))
  {
    hide Loaded, Lower, Flows, AllComputing, Defs;
    a := Loaded(names, t.left, next);
    b := Loaded(names, t.right, a.next);
    LowersIfResolved(names, t.left, next);
    LowersIfResolved(names, t.right, a.next);
    LoadedShape(names, t.left, next);
    LoadedShape(names, t.right, a.next);
    ShapedBoth(a, b, Homes(names), next);
    CompareLowered(names, t, next);
  }

  /** A lowered test is a computation, then the comparison. */
  lemma TestShape(names: map<string, nat>, condition: Expression, next: nat)
    returns (a: Lowered, b: Lowered)
    requires FineTest(names.Keys, Some(condition))
    ensures var t := Test(condition);
            a == Loaded(names, t.left, next) && b == Loaded(names, t.right, a.next)
            && a.result.Some? && b.result.Some? && b.After(a).diagnostics == 0
            && Shaped(b.After(a), Homes(names), next) && a.result.value in Homes(names) + Defs(b.After(a).nodes)
            && Loaded(names, t, next)
            == b.After(a).Into(CompareNode(t.comparison, Register(b.next, t.Width()), a.result.value, b.result.value))
  {
    a, b := CompareShape(names, Test(condition), next);
  }

  lemma BranchPaired(nodes: seq<Node>, compare: Node, branch: Node)
    requires AllComputing(nodes) && compare.CompareNode? && branch.BranchNode? && compare.result.index == branch.condition
    ensures Paired(nodes + [compare] + [branch])
  {
    ComputingIsPaired(nodes);
    var all := nodes + [compare] + [branch];
    assert all[..|all| - 2] == nodes && all[|all| - 2] == compare && all[|all| - 1] == branch;
  }

  lemma WellBranch(c: Cursor, test: Option<Expression>, trueLabel: string, falseLabel: string)
    requires FineTest(c.names.Keys, test)
    ensures LowerBranch(c, test, trueLabel, falseLabel).1
    ensures Well(c, LowerBranch(c, test, trueLabel, falseLabel).0, {})
  {
    if test.None? {
      WellNothing(c);
      WellThen(c, Nothing(c), GotoNode(trueLabel), {});
    } else {
      WellTest(c, test.value, trueLabel, falseLabel);
    }
  }

  /** A comparison and the branch on it. */
  lemma WellComparison(c: Cursor, computed: Lowered, compare: Node, branch: Node)
    requires Shaped(computed, Homes(c.names), c.next) && computed.diagnostics == 0
    requires compare.CompareNode? && compare.result.index == computed.next
    requires LooksUp(compare, Homes(c.names) + Defs(computed.nodes))
    requires branch.BranchNode? && branch.condition == computed.next
    ensures Well(c, FromExpression(c, computed.Into(compare)).Then([branch]), {})
  {
    hide Paired, AllComputing, Homes, Flows;
    FlowsThen(computed.nodes, compare, Homes(c.names), c.next, computed.next, computed.next + 1);
    FlowsThen(computed.nodes + [compare], branch, Homes(c.names), c.next, computed.next + 1, computed.next + 1);
    BranchPaired(computed.nodes, compare, branch);
  }

  lemma WellTest(c: Cursor, condition: Expression, trueLabel: string, falseLabel: string)
    requires FineTest(c.names.Keys, Some(condition))
    ensures var l := Loaded(c.names, Test(condition), c.next);
            !condition.Missing? && l.result.Some?
            && Well(c, FromExpression(c, l).Then([BranchNode(l.result.value, trueLabel, falseLabel)]), {})
  {
    hide Well, Shaped, Loaded, Lower;
    var a, b := TestShape(c.names, condition, c.next);
    var t := Test(condition);
    var compare := CompareNode(t.comparison, Register(b.next, t.Width()), a.result.value, b.result.value);
    WellComparison(c, b.After(a), compare, BranchNode(b.next, trueLabel, falseLabel));
  }

  // ----- statements -----

  /** Inside a loop there is somewhere to break to and somewhere to continue at. */
  predicate HasTargets(w: Surroundings, loop: bool) {
    loop ==> w.jumps != [] && ContinueTarget(w.jumps).Some?
  }

  lemma WellAllocation(c: Cursor, name: string, width: nat)
    requires name !in c.names
    ensures var declared := Cursor(c.names[name := c.next], c.next + 1, c.nextLabel);
            var node := AllocationNode(Register(c.next, width));
            Well(c, Nothing(declared).Then([node]), {name}) && Defs([node]) == {c.next}
  {
    var node := AllocationNode(Register(c.next, width));
    FlowsThen([], node, Homes(c.names), c.next, c.next, c.next + 1);
    assert [] + [node] == [node];
    assert [node][..0] == [];
  }

  lemma WellDeclaration(c: Cursor, name: string, width: nat, initialiser: Option<Expression>)
    requires name !in c.names && (initialiser.Some? ==> Fine(c.names.Keys + {name}, initialiser.value))
    ensures Well(c, LowerDeclaration(c, name, width, initialiser), {name})
  {
    hide Well, LowerInitialiser;
    WellAllocation(c, name, width);
    if initialiser.Some? {
      WellInitialised(c, name, width, initialiser.value);
    }
  }

  lemma WellInitialised(c: Cursor, name: string, width: nat, e: Expression)
    requires name !in c.names && Fine(c.names.Keys + {name}, e)
    ensures var declared := Cursor(c.names[name := c.next], c.next + 1, c.nextLabel);
            var reserved := Nothing(declared).Then([AllocationNode(Register(c.next, width))]);
            Well(c, LowerInitialiser(declared, c.next, e).After(reserved), {name})
  {
    var declared := Cursor(c.names[name := c.next], c.next + 1, c.nextLabel);
    var reserved := Nothing(declared).Then([AllocationNode(Register(c.next, width))]);
    WellAllocation(c, name, width);
    assert declared.names.Keys == c.names.Keys + {name};
    assert c.next in Homes(declared.names) by { assert declared.names[name] == c.next; }
    WellInitialiser(declared, c.next, e);
    WellAfter(c, reserved, LowerInitialiser(declared, c.next, e), {name}, {});
  }

  lemma WellInitialiser(c: Cursor, register: nat, e: Expression)
    requires register in Homes(c.names) && Fine(c.names.Keys, e)
    ensures Well(c, LowerInitialiser(c, register, e), {})
  {
    if e.Literal? {
      WellStoreInteger(c, register, e.value);
    } else {
      LoadedShape(c.names, e, c.next);
      LowersIfResolved(c.names, e, c.next);
      var l := Loaded(c.names, e, c.next);
      WellUse(c, l, StoreNode(register, l.result.value));
    }
  }

  lemma WellStoreInteger(c: Cursor, register: nat, value: nat)
    requires register in Homes(c.names)
    ensures Well(c, Nothing(c).Then([StoreIntegerNode(register, value)]), {})
  {
    var node := StoreIntegerNode(register, value);
    FlowsThen([], node, Homes(c.names), c.next, c.next, c.next);
    assert [] + [node] == [node];
    assert [node][..0] == [];
  }

  lemma WellReturn(c: Cursor, isVoid: bool, returned: Option<Expression>)
    requires if returned.None? then isVoid else Fine(c.names.Keys, returned.value)
    ensures Well(c, LowerReturn(c, isVoid, returned), {})
  {
    if returned.None? {
      var node := ReturnNode(None);
      FlowsThen([], node, Homes(c.names), c.next, c.next, c.next);
      assert [] + [node] == [node];
      assert [node][..0] == [];
    } else {
      LoadedShape(c.names, returned.value, c.next);
      LowersIfResolved(c.names, returned.value, c.next);
      var l := Loaded(c.names, returned.value, c.next);
      WellUse(c, l, ReturnNode(l.result));
    }
  }

  lemma WellStep(c: Cursor, step: Option<Expression>)
    requires step.Some? ==> Fine(c.names.Keys, step.value)
    ensures Well(c, LowerStep(c, step), {})
  {
    if step.None? {
      WellNothing(c);
    } else {
      LoweredShape(c.names, step.value, c.next);
      LowersIfResolved(c.names, step.value, c.next);
      WellExpression(c, Lower(c.names, step.value, c.next));
    }
  }

  lemma FineTestWider(known: set<string>, wider: set<string>, test: Option<Expression>)
    requires known <= wider && FineTest(known, test)
    ensures FineTest(wider, test)
  {
    if test.Some? {
      if test.value.Compare? {
        ResolvedWider(known, wider, test.value.left);
        ResolvedWider(known, wider, test.value.right);
      } else {
        ResolvedWider(known, wider, test.value);
      }
    }
  }

  lemma WellJump(w: Surroundings, c: Cursor, st: Statement, loop: bool)
    requires (st.Break? || st.Continue?) && Accepted(c.names.Keys, loop, w.isVoid, st) && HasTargets(w, loop)
    ensures Well(c, LowerStatement(w, c, st), {})
  {
    WellNothing(c);
    WellThen(c, Nothing(c),
             GotoNode(if st.Break? then w.jumps[|w.jumps| - 1].breakLabel else ContinueTarget(w.jumps).value), {});
  }

  lemma WellEvaluation(w: Surroundings, c: Cursor, e: Expression)
    requires Fine(c.names.Keys, e)
    ensures Well(c, LowerStatement(w, c, Evaluation(e)), {})
  {
    WellStep(c, Some(e));
  }

  /** Every accepted statement, however nested, is lowered without a diagnostic into nodes whose
      registers flow forward and whose branches directly follow their comparisons. */
  lemma {:induction false} WellStatement(w: Surroundings, c: Cursor, st: Statement, loop: bool)
    requires Accepted(c.names.Keys, loop, w.isVoid, st) && HasTargets(w, loop)
    ensures Well(c, LowerStatement(w, c, st), Declared(st))
    decreases st, 2
  {
    if st.Evaluation? {
      WellEvaluation(w, c, st.expression);
    } else if st.Declaration? {
      WellDeclaration(c, st.name, st.width, st.initialiser);
    } else if st.If? {
      WellIf(w, c, st, loop);
    } else if st.While? || st.DoWhile? {
      WellWhile(w, c, st, loop);
    } else if st.For? {
      WellFor(w, c, st, loop);
    } else if st.Return? {
      WellReturn(c, w.isVoid, st.returned);
    } else {
      WellJump(w, c, st, loop);
    }
  }

  lemma {:induction false} WellWhile(w: Surroundings, c: Cursor, st: Statement, loop: bool)
    requires (st.While? || st.DoWhile?) && Accepted(c.names.Keys, loop, w.isVoid, st)
    ensures Well(c, LowerStatement(w, c, st), Declared(st))
    decreases st, 0
  {
    hide Paired, Flows, Extends, Homes, Defs, LabelName, LowerLoop, LowerEntry;
    var labelled := c.(nextLabel := c.nextLabel + 3);
    if st.DoWhile? {
      WellLoop(w, labelled, st.test, st.body, None, LabelName(w.function_, "do.body", c.nextLabel),
               LabelName(w.function_, "do.cont", c.nextLabel + 1), LabelName(w.function_, "do.end", c.nextLabel + 2));
    } else {
      WellEntry(w, labelled, st.test, st.body, None, LabelName(w.function_, "while.body", c.nextLabel),
                LabelName(w.function_, "while.cont", c.nextLabel + 1), LabelName(w.function_, "while.end", c.nextLabel + 2));
    }
  }

  lemma {:induction false} WellEntry(w: Surroundings, c: Cursor, test: Option<Expression>, body: seq<Statement>,
                                     step: Option<Expression>, bodyLabel: string, continueLabel: string, endLabel: string)
    requires AcceptedAll(c.names.Keys, true, w.isVoid, body) && FineTest(c.names.Keys, test)
    requires step.Some? ==> Fine(c.names.Keys + DeclaredAll(body), step.value)
    ensures LowerBranch(c, test, bodyLabel, endLabel).1
    ensures Well(c, LowerEntry(w, c, test, body, step, bodyLabel, continueLabel, endLabel), DeclaredAll(body))
    decreases body, 2
  {
    hide LowerBranch, LowerLoop, AcceptedAll, FineTest, Fine, DeclaredAll;
    var first := LowerBranch(c, test, bodyLabel, endLabel).0;
    WellBranch(c, test, bodyLabel, endLabel);
    FineTestWider(c.names.Keys, c.names.Keys + DeclaredAll(body), test);
    assert first.cursor.names.Keys == c.names.Keys;
    WellLoop(w, first.cursor, test, body, step, bodyLabel, continueLabel, endLabel);
    WellAfter(c, first, LowerLoop(w, first.cursor, test, body, step, bodyLabel, continueLabel, endLabel), {},
              DeclaredAll(body));
  }

  lemma {:induction false} WellFor(w: Surroundings, c: Cursor, st: Statement, loop: bool)
    requires st.For? && Accepted(c.names.Keys, loop, w.isVoid, st) && HasTargets(w, loop)
    ensures Well(c, LowerStatement(w, c, st), Declared(st))
    decreases st, 0
  {
    hide LowerEntry, LabelName, Fine, FineTest, AcceptedAll, Paired, Flows, Extends, Homes, Defs;
    var labelled := c.(nextLabel := c.nextLabel + 3);
    var bodyLabel := LabelName(w.function_, "for.body", c.nextLabel);
    var continueLabel := LabelName(w.function_, "for.cont", c.nextLabel + 1);
    var endLabel := LabelName(w.function_, "for.end", c.nextLabel + 2);
    WellStatement(w, labelled, st.init, loop);
    var begun := LowerStatement(w, labelled, st.init);
    assert begun.cursor.names.Keys == c.names.Keys + Declared(st.init);
    WellEntry(w, begun.cursor, st.test, st.body, Some(st.step), bodyLabel, continueLabel, endLabel);
    WellAfter(labelled, begun,
              LowerEntry(w, begun.cursor, st.test, st.body, Some(st.step), bodyLabel, continueLabel, endLabel),
              Declared(st.init), DeclaredAll(st.body));
  }

  lemma {:induction false} WellAll(w: Surroundings, c: Cursor, sts: seq<Statement>, loop: bool)
    requires AcceptedAll(c.names.Keys, loop, w.isVoid, sts) && HasTargets(w, loop)
    ensures Well(c, LowerAll(w, c, sts), DeclaredAll(sts))
    decreases sts, 0
  {
    if sts == [] {
      WellNothing(c);
    } else {
      WellStatement(w, c, sts[0], loop);
      var first := LowerStatement(w, c, sts[0]);
      WellAll(w, first.cursor, sts[1..], loop);
      WellAfter(c, first, LowerAll(w, first.cursor, sts[1..]), Declared(sts[0]), DeclaredAll(sts[1..]));
    }
  }

  lemma {:induction false} WellIf(w: Surroundings, c: Cursor, st: Statement, loop: bool)
    requires st.If? && Accepted(c.names.Keys, loop, w.isVoid, st) && HasTargets(w, loop)
    ensures Well(c, LowerIf(w, c, st), Declared(st))
    decreases st, 1
  {
    hide Paired, Flows, Extends, Homes, Defs, LabelName, LowerChoice;
    var thenLabel := LabelName(w.function_, "if.then", c.nextLabel);
    var endLabel := LabelName(w.function_, "if.end", c.nextLabel + 1);
    var elseLabel := if st.elseBody == [] then endLabel else LabelName(w.function_, "if.else", c.nextLabel + 2);
    var labelled := c.(nextLabel := c.nextLabel + if st.elseBody == [] then 2 else 3);
    WellChoice(w, labelled, st, thenLabel, elseLabel, endLabel, loop);
  }

  lemma {:induction false} WellChoice(w: Surroundings, c: Cursor, st: Statement, thenLabel: string, elseLabel: string,
                                      endLabel: string, loop: bool)
    requires st.If? && Accepted(c.names.Keys, loop, w.isVoid, st) && HasTargets(w, loop)
    ensures LowerChoice(w, c, st, thenLabel, elseLabel, endLabel).1
    ensures Well(c, LowerChoice(w, c, st, thenLabel, elseLabel, endLabel).0, Declared(st))
    decreases st, 0, 1
  {
    var tested := LowerBranch(c, Some(st.condition), thenLabel, elseLabel).0;
    WellBranch(c, Some(st.condition), thenLabel, elseLabel);
    assert tested.cursor.names.Keys == c.names.Keys;
    WellArms(w, tested.cursor, st, thenLabel, elseLabel, endLabel, loop);
    WellAfter(c, tested, LowerArms(w, tested.cursor, st, thenLabel, elseLabel, endLabel), {}, Declared(st));
  }

  lemma {:induction false} WellArms(w: Surroundings, c: Cursor, st: Statement, thenLabel: string, elseLabel: string,
                                    endLabel: string, loop: bool)
    requires st.If? && HasTargets(w, loop) && AcceptedAll(c.names.Keys, loop, w.isVoid, st.thenBody)
    requires AcceptedAll(c.names.Keys + DeclaredAll(st.thenBody), loop, w.isVoid, st.elseBody)
    ensures Well(c, LowerArms(w, c, st, thenLabel, elseLabel, endLabel), Declared(st))
    decreases st, 0, 0
  {
    WellThenPart(w, c, st.thenBody, thenLabel, endLabel, loop);
    var first := LowerThen(w, c, st.thenBody, thenLabel, endLabel);
    WellElsePart(w, first.cursor, st.elseBody, elseLabel, loop);
    var otherwise := LowerElse(w, first.cursor, st.elseBody, elseLabel);
    WellAfter(c, first, otherwise, DeclaredAll(st.thenBody), DeclaredAll(st.elseBody));
    WellThen(c, otherwise.After(first), LabelNode(endLabel), Declared(st));
  }

  lemma {:induction false} WellThenPart(w: Surroundings, c: Cursor, body: seq<Statement>, thenLabel: string,
                                        endLabel: string, loop: bool)
    requires AcceptedAll(c.names.Keys, loop, w.isVoid, body) && HasTargets(w, loop)
    ensures Well(c, LowerThen(w, c, body, thenLabel, endLabel), DeclaredAll(body))
    decreases body, 1
  {
    WellLabelled(c, thenLabel);
    WellAll(w, c, body, loop);
    var labelled := Nothing(c).Then([LabelNode(thenLabel)]);
    WellAfter(c, labelled, LowerAll(w, c, body), {}, DeclaredAll(body));
    WellThen(c, LowerAll(w, c, body).After(labelled), GotoNode(endLabel), DeclaredAll(body));
  }

  lemma {:induction false} WellElsePart(w: Surroundings, c: Cursor, body: seq<Statement>, elseLabel: string, loop: bool)
    requires AcceptedAll(c.names.Keys, loop, w.isVoid, body) && HasTargets(w, loop)
    ensures Well(c, LowerElse(w, c, body, elseLabel), DeclaredAll(body))
    decreases body, 1
  {
    if body == [] {
      WellNothing(c);
    } else {
      WellLabelled(c, elseLabel);
      WellAll(w, c, body, loop);
      WellAfter(c, Nothing(c).Then([LabelNode(elseLabel)]), LowerAll(w, c, body), {}, DeclaredAll(body));
    }
  }

  lemma WellLabelled(c: Cursor, label_: string)
    ensures Well(c, Nothing(c).Then([LabelNode(label_)]), {})
  {
    WellNothing(c);
    WellThen(c, Nothing(c), LabelNode(label_), {});
  }

  lemma {:induction false} WellLoop(w: Surroundings, c: Cursor, test: Option<Expression>, body: seq<Statement>,
                                    step: Option<Expression>, bodyLabel: string, continueLabel: string, endLabel: string)
    requires AcceptedAll(c.names.Keys, true, w.isVoid, body) && FineTest(c.names.Keys + DeclaredAll(body), test)
    requires step.Some? ==> Fine(c.names.Keys + DeclaredAll(body), step.value)
    ensures Well(c, LowerLoop(w, c, test, body, step, bodyLabel, continueLabel, endLabel), DeclaredAll(body))
    decreases body, 1
  {
    hide LowerBranch, LowerAll, LowerStep, AcceptedAll, FineTest, Fine, DeclaredAll, Well;
    var declared := DeclaredAll(body);
    WellLabelled(c, bodyLabel);
    var labelled := Nothing(c).Then([LabelNode(bodyLabel)]);
    WellAll(w.Inside(endLabel, continueLabel), c, body, true);
    var inner := LowerAll(w.Inside(endLabel, continueLabel), c, body);
    WellKeys(c, inner, declared);
    WellBefore(c, labelled, inner, declared);
    WellStep(inner.cursor, step);
    var stepped := LowerStep(inner.cursor, step);
    WellKeys(inner.cursor, stepped, {});
    WellBehind(c, inner.After(labelled), stepped, declared);
    WellThen(c, stepped.After(inner.After(labelled)), LabelNode(continueLabel), declared);
    var iteration := stepped.After(inner.After(labelled)).Then([LabelNode(continueLabel)]);
    assert iteration.cursor.names.Keys == c.names.Keys + declared;
    WellBranch(iteration.cursor, test, bodyLabel, endLabel);
    var again := LowerBranch(iteration.cursor, test, bodyLabel, endLabel).0;
    WellBehind(c, iteration, again, declared);
    WellThen(c, again.After(iteration), LabelNode(endLabel), declared);
  }
}
