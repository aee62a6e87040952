/** Structured statements: what they mean, and the labels, jumps and branches they are lowered to. */
module Statements {
  import opened Options
  import opened VirtualCode
  import opened Ssa
  import opened Expressions

  datatype Statement =
    | Evaluation(expression: Expression)
    | Declaration(name: string, width: nat, initialiser: Option<Expression>)
    | If(condition: Expression, thenBody: seq<Statement>, elseBody: seq<Statement>)
    | While(test: Option<Expression>, body: seq<Statement>)
    | For(init: Statement, test: Option<Expression>, step: Expression, body: seq<Statement>)
    | DoWhile(test: Option<Expression>, body: seq<Statement>)
    | Break
    | Continue
    | Return(returned: Option<Expression>)

  const BOOL := Integral(false, 1)

  /** A condition is a comparison, or is compared with zero. */
  function Test(condition: Expression): Expression {
    if condition.Missing? || condition.Compare? then condition
    else Compare(IsNotEqual, condition, Literal(0, condition.TypeOf()), BOOL)
  }

  // ----- meaning -----

  datatype Ending =
    | Timeout
    | Normal(memory: Memory)
    | Broke(memory: Memory)
    | Continued(memory: Memory)
    | Returned(value: Option<int>, memory: Memory)

  function Initialised(I: Interpretation, env: map<string, int>, name: string, initialiser: Option<Expression>, m: Memory)
    : Memory
  {
    if initialiser.None? then m
    else
      var (v, m1) := Rvalue(I, env, initialiser.value, m);
      m1[Get(env, name) := v]
  }

  function Passes(I: Interpretation, env: map<string, int>, test: Option<Expression>, m: Memory): (bool, Memory) {
    if test.None? then (true, m)
    else
      var (v, m1) := Rvalue(I, env, test.value, m);
      (v != 0, m1)
  }

  /** Big-step meaning with fuel for loop iterations. `skipping` says what `continue` does in a
      `for` loop: with it, the iteration expression is skipped, as in the emitted code; without it,
      the iteration expression is evaluated, as in C++. */
  function Exec(I: Interpretation, env: map<string, int>, skipping: bool, st: Statement, m: Memory, fuel: nat): Ending
    decreases fuel, st
  {
    match st
    case Evaluation(e) => Normal(Evaluate(I, env, e, m).1)
    case Declaration(name, _, initialiser) => Normal(Initialised(I, env, name, initialiser, m))
    case If(condition, thenBody, elseBody) =>
      var (v, m1) := Rvalue(I, env, condition, m);
      if v != 0 then ExecAll(I, env, skipping, thenBody, m1, fuel) else ExecAll(I, env, skipping, elseBody, m1, fuel)
    case While(test, body) =>
      var (go, m1) := Passes(I, env, test, m);
      if go then Iterate(I, env, skipping, test, body, None, m1, fuel) else Normal(m1)
    case For(init, test, step, body) =>
      var begun := Exec(I, env, skipping, init, m, fuel);
      if !begun.Normal? then begun
      else
        var (go, m1) := Passes(I, env, test, begun.memory);
        if go then Iterate(I, env, skipping, test, body, Some(step), m1, fuel) else Normal(m1)
    case DoWhile(test, body) => Iterate(I, env, skipping, test, body, None, m, fuel)
    case Break => Broke(m)
    case Continue => Continued(m)
    case Return(returned) =>
      if returned.None? then Returned(None, m)
      else
        var (v, m1) := Rvalue(I, env, returned.value, m);
        Returned(Some(v), m1)
  }

  function ExecAll(I: Interpretation, env: map<string, int>, skipping: bool, sts: seq<Statement>, m: Memory, fuel: nat)
    : Ending
    decreases fuel, sts
  {
    if sts == [] then Normal(m)
    else
      var first := Exec(I, env, skipping, sts[0], m, fuel);
      if first.Normal? then ExecAll(I, env, skipping, sts[1..], first.memory, fuel) else first
  }

  /** A loop from the start of its body. */
  function Iterate(I: Interpretation, env: map<string, int>, skipping: bool, test: Option<Expression>,
                   body: seq<Statement>, step: Option<Expression>, m: Memory, fuel: nat): Ending
    decreases fuel, body, 0
  {
    if fuel == 0 then Timeout
    else
      match ExecAll(I, env, skipping, body, m, fuel - 1)
      case Normal(m1) => Again(I, env, skipping, test, body, step, StepMemory(I, env, step, m1), fuel - 1)
      case Continued(m1) =>
        Again(I, env, skipping, test, body, step, if skipping then m1 else StepMemory(I, env, step, m1), fuel - 1)
      case Broke(m1) => Normal(m1)
      case ending => ending
  }

  function StepMemory(I: Interpretation, env: map<string, int>, step: Option<Expression>, m: Memory): Memory {
    if step.None? then m else Evaluate(I, env, step.value, m).1
  }

  /** The test at the end of an iteration, and the iterations after it. */
  function Again(I: Interpretation, env: map<string, int>, skipping: bool, test: Option<Expression>,
                 body: seq<Statement>, step: Option<Expression>, m: Memory, fuel: nat): Ending
    decreases fuel, body, 1
  {
    var (go, m1) := Passes(I, env, test, m);
    if go then Iterate(I, env, skipping, test, body, step, m1, fuel) else Normal(m1)
  }

  // ----- labels -----

  function Digit(d: nat): char
    requires d < 10
  {
    "0123456789"[d]
  }

  function Decimal(n: nat): string {
    if n < 10 then [Digit(n)] else Decimal(n / 10) + [Digit(n % 10)]
  }

  function LabelName(function_: string, hint: string, index: nat): string {
    ".L" + function_ + "." + hint + "." + Decimal(index)
  }

  // ----- lowering -----

  datatype JumpTarget = JumpTarget(breakLabel: string, continueLabel: Option<string>)

  /** What lowering so far has used up: names, registers, labels. */
  datatype Cursor = Cursor(names: map<string, nat>, next: nat, nextLabel: nat)

  /** The nodes a lowering appends, where it leaves the cursor, and how much it reported. */
  datatype Emitted = Emitted(nodes: seq<Node>, cursor: Cursor, diagnostics: nat)
  {
    function After(earlier: Emitted): Emitted {
      Emitted(earlier.nodes + nodes, cursor, earlier.diagnostics + diagnostics)
    }

    function Then(more: seq<Node>): Emitted {
      this.(nodes := nodes + more)
    }
  }

  function Nothing(c: Cursor): Emitted {
    Emitted([], c, 0)
  }

  function FromExpression(c: Cursor, l: Lowered): Emitted {
    Emitted(l.nodes, c.(next := l.next), l.diagnostics)
  }

  /** The innermost target with a continue label. */
  function ContinueTarget(jumps: seq<JumpTarget>): Option<string> {
    if jumps == [] then None
    else if jumps[|jumps| - 1].continueLabel.Some? then jumps[|jumps| - 1].continueLabel
    else ContinueTarget(jumps[..|jumps| - 1])
  }

  /** Lower a condition and branch on it; without a condition, jump. The flag says whether a branch
      or jump was emitted. */
  function LowerBranch(c: Cursor, test: Option<Expression>, trueLabel: string, falseLabel: string): (Emitted, bool) {
    if test.None? then (Nothing(c).Then([GotoNode(trueLabel)]), true)
    else if test.value.Missing? then (Nothing(c), false)
    else
      var l := Loaded(c.names, Test(test.value), c.next);
      if l.result.None? then (FromExpression(c, l), false)
      else (FromExpression(c, l).Then([BranchNode(l.result.value, trueLabel, falseLabel)]), true)
  }

  function LowerDeclaration(c: Cursor, name: string, width: nat, initialiser: Option<Expression>): Emitted {
    if name in c.names then Nothing(c).(diagnostics := 1)
    else
      var register := c.next;
      var declared := Cursor(c.names[name := register], c.next + 1, c.nextLabel);
      var reserved := Nothing(declared).Then([AllocationNode(Register(register, width))]);
      if initialiser.None? then reserved
      else if initialiser.value.Missing? then reserved.(diagnostics := 1)
      else LowerInitialiser(declared, register, initialiser.value).After(reserved)
  }

  /** Literals are stored as they are; other values are loaded first. */
  function LowerInitialiser(c: Cursor, register: nat, e: Expression): Emitted {
    if e.Literal? then Nothing(c).Then([StoreIntegerNode(register, e.value)])
    else
      var l := Loaded(c.names, e, c.next);
      if l.result.None? then FromExpression(c, l) else FromExpression(c, l).Then([StoreNode(register, l.result.value)])
  }

  function LowerReturn(c: Cursor, isVoid: bool, returned: Option<Expression>): Emitted {
    if returned.None? then Nothing(c).Then([ReturnNode(None)]).(diagnostics := if isVoid then 0 else 1)
    else if returned.value.Missing? then Nothing(c)
    else
      var l := Loaded(c.names, returned.value, c.next);
      FromExpression(c, l).Then([ReturnNode(l.result)])
  }

  datatype Surroundings = Surroundings(function_: string, isVoid: bool, jumps: seq<JumpTarget>)
  {
    function Inside(breakLabel: string, continueLabel: string): Surroundings {
      this.(jumps := jumps + [JumpTarget(breakLabel, Some(continueLabel))])
    }
  }

  function LowerStatement(w: Surroundings, c: Cursor, st: Statement): Emitted
    decreases st, 2
  {
    match st
    case Evaluation(e) => FromExpression(c, Lower(c.names, e, c.next))
    case Declaration(name, width, initialiser) => LowerDeclaration(c, name, width, initialiser)
    case If(_, _, _) => LowerIf(w, c, st)
    case While(test, body) =>
      var bodyLabel := LabelName(w.function_, "while.body", c.nextLabel);
      var continueLabel := LabelName(w.function_, "while.cont", c.nextLabel + 1);
      var endLabel := LabelName(w.function_, "while.end", c.nextLabel + 2);
      LowerEntry(w, c.(nextLabel := c.nextLabel + 3), test, body, None, bodyLabel, continueLabel, endLabel)
    case For(init, test, step, body) =>
      var bodyLabel := LabelName(w.function_, "for.body", c.nextLabel);
      var continueLabel := LabelName(w.function_, "for.cont", c.nextLabel + 1);
      var endLabel := LabelName(w.function_, "for.end", c.nextLabel + 2);
      var begun := LowerStatement(w, c.(nextLabel := c.nextLabel + 3), init);
      LowerEntry(w, begun.cursor, test, body, Some(step), bodyLabel, continueLabel, endLabel).After(begun)
    case DoWhile(test, body) =>
      var bodyLabel := LabelName(w.function_, "do.body", c.nextLabel);
      var continueLabel := LabelName(w.function_, "do.cont", c.nextLabel + 1);
      var endLabel := LabelName(w.function_, "do.end", c.nextLabel + 2);
      LowerLoop(w, c.(nextLabel := c.nextLabel + 3), test, body, None, bodyLabel, continueLabel, endLabel)
    case Break =>
      if w.jumps == [] then Nothing(c).(diagnostics := 1)
      else Nothing(c).Then([GotoNode(w.jumps[|w.jumps| - 1].breakLabel)])
    case Continue =>
      if ContinueTarget(w.jumps).None? then Nothing(c).(diagnostics := 1)
      else Nothing(c).Then([GotoNode(ContinueTarget(w.jumps).value)])
    case Return(returned) => LowerReturn(c, w.isVoid, returned)
  }

  function LowerAll(w: Surroundings, c: Cursor, sts: seq<Statement>): Emitted
    decreases sts, 0
  {
    if sts == [] then Nothing(c)
    else
      var first := LowerStatement(w, c, sts[0]);
      LowerAll(w, first.cursor, sts[1..]).After(first)
  }

  /** The labels of an `if` are drawn only once its condition is lowered: two, or three with an `else`. */
  function LowerIf(w: Surroundings, c: Cursor, st: Statement): Emitted
    requires st.If?
    decreases st, 1
  {
    var thenLabel := LabelName(w.function_, "if.then", c.nextLabel);
    var endLabel := LabelName(w.function_, "if.end", c.nextLabel + 1);
    var elseLabel := if st.elseBody == [] then endLabel else LabelName(w.function_, "if.else", c.nextLabel + 2);
    var labelled := c.(nextLabel := c.nextLabel + if st.elseBody == [] then 2 else 3);
    var (chosen, ok) := LowerChoice(w, labelled, st, thenLabel, elseLabel, endLabel);
    if ok then chosen else chosen.(cursor := chosen.cursor.(nextLabel := c.nextLabel))
  }

  /** An `if` under its labels. */
  function LowerChoice(w: Surroundings, c: Cursor, st: Statement, thenLabel: string, elseLabel: string, endLabel: string)
    : (Emitted, bool)
    requires st.If?
    decreases st, 0, 1
  {
    var (tested, ok) := LowerBranch(c, Some(st.condition), thenLabel, elseLabel);
    (if ok then LowerArms(w, tested.cursor, st, thenLabel, elseLabel, endLabel).After(tested) else tested, ok)
  }

  /** An `if` from the label of its first arm on. */
  function LowerArms(w: Surroundings, c: Cursor, st: Statement, thenLabel: string, elseLabel: string, endLabel: string)
    : Emitted
    requires st.If?
    decreases st, 0, 0
  {
    var first := LowerThen(w, c, st.thenBody, thenLabel, endLabel);
    LowerElse(w, first.cursor, st.elseBody, elseLabel).After(first).Then([LabelNode(endLabel)])
  }

  function LowerThen(w: Surroundings, c: Cursor, body: seq<Statement>, thenLabel: string, endLabel: string): Emitted
    decreases body, 1
  {
    LowerAll(w, c, body).After(Nothing(c).Then([LabelNode(thenLabel)])).Then([GotoNode(endLabel)])
  }

  function LowerElse(w: Surroundings, c: Cursor, body: seq<Statement>, elseLabel: string): Emitted
    decreases body, 1
  {
    if body == [] then Nothing(c) else LowerAll(w, c, body).After(Nothing(c).Then([LabelNode(elseLabel)]))
  }

  function LowerStep(c: Cursor, step: Option<Expression>): Emitted {
    if step.None? then Nothing(c) else FromExpression(c, Lower(c.names, step.value, c.next))
  }

  /** A loop entered through its test. */
  function LowerEntry(w: Surroundings, c: Cursor, test: Option<Expression>, body: seq<Statement>,
                      step: Option<Expression>, bodyLabel: string, continueLabel: string, endLabel: string): Emitted
    decreases body, 3
  {
    var (first, ok) := LowerBranch(c, test, bodyLabel, endLabel);
    if !ok then first
    else LowerLoop(w, first.cursor, test, body, step, bodyLabel, continueLabel, endLabel).After(first)
  }

  /** A loop from the label of its body on. */
  function LowerLoop(w: Surroundings, c: Cursor, test: Option<Expression>, body: seq<Statement>,
                     step: Option<Expression>, bodyLabel: string, continueLabel: string, endLabel: string): Emitted
    decreases body, 2
  {
    var iteration := LoopFront(w, c, body, step, bodyLabel, continueLabel, endLabel).Then([LabelNode(continueLabel)]);
    var (again, ok) := LowerBranch(iteration.cursor, test, bodyLabel, endLabel);
    if ok then again.After(iteration).Then([LabelNode(endLabel)]) else again.After(iteration)
  }

  /** A loop up to its continue label: the body under its own targets, then the iteration expression. */
  function LoopFront(w: Surroundings, c: Cursor, body: seq<Statement>, step: Option<Expression>, bodyLabel: string,
                     continueLabel: string, endLabel: string): Emitted
    decreases body, 1
  {
    var inner := LowerAll(w.Inside(endLabel, continueLabel), c, body);
    LowerStep(inner.cursor, step).After(inner.After(Nothing(c).Then([LabelNode(bodyLabel)])))
  }
}
