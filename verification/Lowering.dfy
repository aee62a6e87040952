/** Lowering in place: expressions, statements and functions append to one node list and draw
    registers and labels from counters. Every method does what its specification function says. */
module Lowering {
  import opened Options
  import opened Ssa
  import opened Expressions
  import opened Statements
  import F = Functions
  import LabelShapes

  lemma ForForm(w: Surroundings, c: Cursor, st: Statement, labelled: Cursor, bodyLabel: string, continueLabel: string,
                endLabel: string)
    requires st.For? && labelled == c.(nextLabel := c.nextLabel + 3)
    requires bodyLabel == LabelName(w.function_, "for.body", c.nextLabel)
    requires continueLabel == LabelName(w.function_, "for.cont", c.nextLabel + 1)
    requires endLabel == LabelName(w.function_, "for.end", c.nextLabel + 2)
    ensures var begun := LowerStatement(w, labelled, st.init);
            var (first, ok) := LowerBranch(begun.cursor, st.test, bodyLabel, endLabel);
            var rest := LowerLoop(w, first.cursor, st.test, st.body, Some(st.step), bodyLabel, continueLabel, endLabel);
            LowerStatement(w, c, st) == if ok then rest.After(first.After(begun)) else first.After(begun)
  {
    hide LabelName, LowerLoop, LowerBranch, LowerAll, Lower;
  }

  class IR {
    var built: seq<Node>
    var nextRegisterIndex: nat
    var nextLabelIndex: nat
    var jumpStack: seq<JumpTarget>
    var diagnostics: nat
    var allocations: map<string, nat>
    const functionName: string
    const isVoid: bool

    constructor (functionName: string, isVoid: bool)
      ensures built == [] && diagnostics == 0 && jumpStack == [] && Here() == F.START
      ensures this.functionName == functionName && this.isVoid == isVoid
    {
      built, nextRegisterIndex, nextLabelIndex, jumpStack, diagnostics, allocations := [], 0, 0, [], 0, map[];
      this.functionName, this.isVoid := functionName, isVoid;
    }

    ghost function Here(): Cursor
      reads this
    {
      Cursor(allocations, nextRegisterIndex, nextLabelIndex)
    }

    ghost function Around(): Surroundings
      reads this
    {
      Surroundings(functionName, isVoid, jumpStack)
    }

    /** `l` was appended to what was there. */
    ghost predicate Grown(before: seq<Node>, reported: nat, l: Emitted)
      reads this
    {
      built == before + l.nodes && diagnostics == reported + l.diagnostics && Here() == l.cursor
    }

    method MakeRegister(width: nat) returns (r: Register)
      modifies this`nextRegisterIndex
      ensures r == Register(old(nextRegisterIndex), width) && nextRegisterIndex == old(nextRegisterIndex) + 1
    {
      r := Register(nextRegisterIndex, width);
      nextRegisterIndex := nextRegisterIndex + 1;
    }

    method Push(node: Node)
      modifies this`built
      ensures built == old(built) + [node]
    {
      built := built + [node];
    }

    method Report()
      modifies this`diagnostics
      ensures diagnostics == old(diagnostics) + 1
    {
      diagnostics := diagnostics + 1;
    }

    // ----- expressions -----

    method LowerExpressionLoaded(e: Expression) returns (result: Option<nat>)
      modifies this`built, this`nextRegisterIndex, this`diagnostics
      ensures var l := Loaded(allocations, e, old(nextRegisterIndex));
              Grown(old(built), old(diagnostics), FromExpression(old(Here()), l)) && result == l.result
      decreases e, 3
    {
      result := LowerExpression(e);
      if !NeedsLoad(e) || result.None? {
        return;
      }
      var loaded := MakeRegister(e.Width());
      Push(LoadNode(loaded, result.value));
      result := Some(loaded.index);
    }

    /** The register of the object, or of its address behind a dereference. */
    method LowerSlot(e: Expression) returns (slot: Option<nat>)
      modifies this`built, this`nextRegisterIndex, this`diagnostics
      ensures var l := Slot(allocations, e, old(nextRegisterIndex));
              Grown(old(built), old(diagnostics), FromExpression(old(Here()), l)) && slot == l.result
      decreases e, 3
    {
      if e.Dereference? {
        slot := LowerExpressionLoaded(e.operand);
      } else {
        slot := LowerExpression(e);
      }
    }

    method LoadSlot(e: Expression, slot: nat) returns (current: nat)
      modifies this`built, this`nextRegisterIndex
      ensures current == old(nextRegisterIndex) && nextRegisterIndex == old(nextRegisterIndex) + 1
      ensures built == old(built) + [SlotRead(e, Register(current, e.Width()), slot)]
    {
      var loaded := MakeRegister(e.Width());
      Push(SlotRead(e, loaded, slot));
      current := loaded.index;
    }

    method StoreSlot(e: Expression, slot: nat, source: nat)
      modifies this`built
      ensures built == old(built) + [SlotWrite(e, slot, source)]
    {
      Push(SlotWrite(e, slot, source));
    }

    /** Both operands, left to right; the right one is lowered even if the left one failed. */
    method LowerOperands(e: Expression) returns (a: Option<nat>, b: Option<nat>)
      requires e.Binary? || e.Compare?
      modifies this`built, this`nextRegisterIndex, this`diagnostics
      ensures var x := Loaded(allocations, e.left, old(nextRegisterIndex));
              var y := Loaded(allocations, e.right, x.next);
              Grown(old(built), old(diagnostics), FromExpression(old(Here()), y.After(x))) && a == x.result && b == y.result
      decreases e, 0
    {
      a := LowerExpressionLoaded(e.left);
      b := LowerExpressionLoaded(e.right);
    }

    /** The slot on the left, then the value on the right. */
    method LowerSides(e: Expression) returns (slot: Option<nat>, b: Option<nat>)
      requires e.Assign? || e.Compound?
      modifies this`built, this`nextRegisterIndex, this`diagnostics
      ensures var x := Slot(allocations, e.left, old(nextRegisterIndex));
              var y := Loaded(allocations, e.right, x.next);
              Grown(old(built), old(diagnostics), FromExpression(old(Here()), y.After(x))) && slot == x.result && b == y.result
      decreases e, 0
    {
      slot := LowerSlot(e.left);
      b := LowerExpressionLoaded(e.right);
    }

    method LowerLeaf(e: Expression) returns (result: Option<nat>)
      requires e.Missing? || e.Unsupported? || e.Literal? || e.LoadVariable? || e.Variable?
      modifies this`built, this`nextRegisterIndex, this`diagnostics
      ensures var l := Lower(allocations, e, old(nextRegisterIndex));
              Grown(old(built), old(diagnostics), FromExpression(old(Here()), l)) && result == l.result
    {
      result := None;
      match e
      case Literal(value, _) =>
        var register := MakeRegister(e.Width());
        Push(ImmediateNode(register, value));
        result := Some(register.index);
      case LoadVariable(name, _) =>
        if name !in allocations {
          Report();
          return;
        }
        var register := MakeRegister(e.Width());
        Push(LoadNode(register, allocations[name]));
        result := Some(register.index);
      case Variable(name, _) =>
        if name !in allocations {
          Report();
          return;
        }
        result := Some(allocations[name]);
      case Unsupported(_) => Report();
      case Missing =>
    }

    method LowerTwoOperands(e: Expression) returns (result: Option<nat>)
      requires e.Binary? || e.Compare?
      modifies this`built, this`nextRegisterIndex, this`diagnostics
      ensures var l := Lower(allocations, e, old(nextRegisterIndex));
              Grown(old(built), old(diagnostics), FromExpression(old(Here()), l)) && result == l.result
      decreases e, 1
    {
      var a, b := LowerOperands(e);
      if a.None? || b.None? {
        return None;
      }
      var register := MakeRegister(e.Width());
      if e.Binary? {
        Push(BinaryNode(e.binary, register, a.value, b.value));
      } else {
        Push(CompareNode(e.comparison, register, a.value, b.value));
      }
      result := Some(register.index);
    }

    method LowerOneOperand(e: Expression) returns (result: Option<nat>)
      requires e.Unary? || e.Convert? || e.Dereference?
      modifies this`built, this`nextRegisterIndex, this`diagnostics
      ensures var l := Lower(allocations, e, old(nextRegisterIndex));
              Grown(old(built), old(diagnostics), FromExpression(old(Here()), l)) && result == l.result
      decreases e, 0
    {
      var a := LowerExpressionLoaded(e.operand);
      if a.None? || (e.Convert? && !Convertible(e.operand, e.type_)) {
        return None;
      }
      var register := MakeRegister(e.Width());
      match e {
        case Unary(op, _, _) => Push(UnaryNode(op, register, a.value));
        case Convert(operand, target) => Push(ConvertNode(ConversionBetween(operand.TypeOf(), target), register, a.value));
        case Dereference(_, _) => Push(DerefNode(register, a.value));
      }
      result := Some(register.index);
    }

    method LowerPointerConversion(e: Expression) returns (result: Option<nat>)
      requires e.PointerConversion?
      modifies this`built, this`nextRegisterIndex, this`diagnostics
      ensures var l := Lower(allocations, e, old(nextRegisterIndex));
              Grown(old(built), old(diagnostics), FromExpression(old(Here()), l)) && result == l.result
      decreases e, 0
    {
      if e.type_ == e.operand.TypeOf() {
        result := LowerExpressionLoaded(e.operand);
        return;
      }
      var a := LowerExpression(e.operand);
      if a.None? {
        return None;
      }
      var register := MakeRegister(e.Width());
      Push(PointerConvertNode(register, a.value));
      result := Some(register.index);
    }

    method LowerAddressOf(e: Expression) returns (result: Option<nat>)
      requires e.AddressOf?
      modifies this`built, this`nextRegisterIndex, this`diagnostics
      ensures var l := Lower(allocations, e, old(nextRegisterIndex));
              Grown(old(built), old(diagnostics), FromExpression(old(Here()), l)) && result == l.result
      decreases e, 0
    {
      if e.operand.Missing? {
        return None;
      }
      if e.operand.Dereference? {
        result := LowerExpressionLoaded(e.operand.operand);
        return;
      }
      if !e.operand.Variable? {
        Report();
        return None;
      }
      var a := LowerExpression(e.operand);
      if a.None? {
        return None;
      }
      var register := MakeRegister(e.Width());
      Push(AddressOfNode(register, a.value));
      result := Some(register.index);
    }

    method LowerAssign(e: Expression) returns (result: Option<nat>)
      requires e.Assign?
      modifies this`built, this`nextRegisterIndex, this`diagnostics
      ensures var l := Lower(allocations, e, old(nextRegisterIndex));
              Grown(old(built), old(diagnostics), FromExpression(old(Here()), l)) && result == l.result
      decreases e, 1
    {
      var slot, b := LowerSides(e);
      if slot.None? || b.None? {
        return None;
      }
      StoreSlot(e.left, slot.value, b.value);
      result := if e.left.Dereference? then b else slot;
    }

    method LowerCompound(e: Expression) returns (result: Option<nat>)
      requires e.Compound?
      modifies this`built, this`nextRegisterIndex, this`diagnostics
      ensures var l := Lower(allocations, e, old(nextRegisterIndex));
              Grown(old(built), old(diagnostics), FromExpression(old(Here()), l)) && result == l.result
      decreases e, 1
    {
      var slot, b := LowerSides(e);
      if slot.None? || b.None? {
        return None;
      }
      var current := LoadSlot(e.left, slot.value);
      var computed := MakeRegister(e.Width());
      Push(BinaryNode(e.binary, computed, current, b.value));
      StoreSlot(e.left, slot.value, computed.index);
      result := Some(computed.index);
    }

    method LowerPostStep(e: Expression) returns (result: Option<nat>)
      requires e.PostStep?
      modifies this`built, this`nextRegisterIndex, this`diagnostics
      ensures var l := Lower(allocations, e, old(nextRegisterIndex));
              Grown(old(built), old(diagnostics), FromExpression(old(Here()), l)) && result == l.result
      decreases e, 0
    {
      var slot := LowerSlot(e.operand);
      if slot.None? {
        return None;
      }
      var before := LoadSlot(e.operand, slot.value);
      var one := MakeRegister(e.Width());
      Push(ImmediateNode(one, e.step));
      var computed := MakeRegister(e.Width());
      Push(BinaryNode(StepOperator(e.decrement), computed, before, one.index));
      StoreSlot(e.operand, slot.value, computed.index);
      result := Some(before);
    }

    method LowerExpression(e: Expression) returns (result: Option<nat>)
      modifies this`built, this`nextRegisterIndex, this`diagnostics
      ensures var l := Lower(allocations, e, old(nextRegisterIndex));
              Grown(old(built), old(diagnostics), FromExpression(old(Here()), l)) && result == l.result
      decreases e, 2
    {
      match e {
        case Binary(_, _, _, _) => result := LowerTwoOperands(e);
        case Compare(_, _, _, _) => result := LowerTwoOperands(e);
        case Unary(_, _, _) => result := LowerOneOperand(e);
        case Convert(_, _) => result := LowerOneOperand(e);
        case Dereference(_, _) => result := LowerOneOperand(e);
        case PointerConversion(_, _) => result := LowerPointerConversion(e);
        case AddressOf(_, _) => result := LowerAddressOf(e);
        case Assign(_, _, _) => result := LowerAssign(e);
        case Compound(_, _, _, _) => result := LowerCompound(e);
        case PostStep(_, _, _, _) => result := LowerPostStep(e);
        case _ => result := LowerLeaf(e);
      }
    }

    // ----- labels, jumps and branches -----

    method MakeLabelName(hint: string) returns (name: string)
      modifies this`nextLabelIndex
      ensures name == LabelName(functionName, hint, old(nextLabelIndex)) && nextLabelIndex == old(nextLabelIndex) + 1
    {
      name := LabelName(functionName, hint, nextLabelIndex);
      nextLabelIndex := nextLabelIndex + 1;
    }

    method EmitLabel(name: string)
      modifies this`built
      ensures built == old(built) + [LabelNode(name)]
    {
      Push(LabelNode(name));
    }

    method EmitJump(target: string)
      modifies this`built
      ensures built == old(built) + [GotoNode(target)]
    {
      Push(GotoNode(target));
    }

    method EmitConditionalBranch(test: Option<Expression>, trueLabel: string, falseLabel: string) returns (ok: bool)
      modifies this`built, this`nextRegisterIndex, this`diagnostics
      ensures var (l, emitted) := LowerBranch(old(Here()), test, trueLabel, falseLabel);
              Grown(old(built), old(diagnostics), l) && ok == emitted
    {
      if test.None? {
        EmitJump(trueLabel);
        return true;
      }
      if test.value.Missing? {
        return false;
      }
      var condition := LowerExpressionLoaded(Test(test.value));
      if condition.None? {
        return false;
      }
      Push(BranchNode(condition.value, trueLabel, falseLabel));
      ok := true;
    }

    method ParseBreak()
      modifies this`built, this`diagnostics
      ensures Grown(old(built), old(diagnostics), LowerStatement(Around(), old(Here()), Break))
    {
      if jumpStack == [] {
        Report();
        return;
      }
      EmitJump(jumpStack[|jumpStack| - 1].breakLabel);
    }

    /** The innermost target that can be continued. */
    method ParseContinue()
      modifies this`built, this`diagnostics
      ensures Grown(old(built), old(diagnostics), LowerStatement(Around(), old(Here()), Continue))
    {
      var i := |jumpStack|;
      assert jumpStack[..i] == jumpStack;
      while i > 0
        invariant i <= |jumpStack| && built == old(built) && diagnostics == old(diagnostics)
        invariant ContinueTarget(jumpStack) == ContinueTarget(jumpStack[..i])
      {
        i := i - 1;
        assert jumpStack[..i + 1][..i] == jumpStack[..i];
        if jumpStack[i].continueLabel.Some? {
          EmitJump(jumpStack[i].continueLabel.value);
          return;
        }
      }
      Report();
    }

    method ParseReturn(returned: Option<Expression>)
      modifies this`built, this`nextRegisterIndex, this`diagnostics
      ensures Grown(old(built), old(diagnostics), LowerReturn(old(Here()), isVoid, returned))
    {
      if returned.None? {
        if !isVoid {
          Report();
        }
        Push(ReturnNode(None));
        return;
      }
      if returned.value.Missing? {
        return;
      }
      var result := LowerExpressionLoaded(returned.value);
      Push(ReturnNode(result));
    }

    method ParseInitialiser(register: nat, e: Expression)
      modifies this`built, this`nextRegisterIndex, this`diagnostics
      ensures Grown(old(built), old(diagnostics), LowerInitialiser(old(Here()), register, e))
    {
      if e.Literal? {
        Push(StoreIntegerNode(register, e.value));
        return;
      }
      var value := LowerExpressionLoaded(e);
      if value.Some? {
        Push(StoreNode(register, value.value));
      }
    }

    method ParseVariableDeclaration(name: string, width: nat, initialiser: Option<Expression>)
      modifies this`built, this`nextRegisterIndex, this`diagnostics, this`allocations
      ensures Grown(old(built), old(diagnostics), LowerDeclaration(old(Here()), name, width, initialiser))
    {
      if name in allocations {
        Report();
        return;
      }
      var register := MakeRegister(width);
      allocations := allocations[name := register.index];
      Push(AllocationNode(register));
      if initialiser.None? {
        return;
      }
      if initialiser.value.Missing? {
        Report();
        return;
      }
      ParseInitialiser(register.index, initialiser.value);
    }

    // ----- structured statements -----

    /** The statements of a body, one after the other. */
    method ParseBody(sts: seq<Statement>)
      modifies this
      ensures Grown(old(built), old(diagnostics), LowerAll(old(Around()), old(Here()), sts))
      ensures jumpStack == old(jumpStack)
      decreases sts, 0
    {
      hide LowerStatement;
      ghost var w, start := Around(), Here();
      for i := 0 to |sts|
        invariant Around() == w && jumpStack == old(jumpStack)
        invariant old(built) + LowerAll(w, start, sts).nodes == built + LowerAll(w, Here(), sts[i..]).nodes
        invariant LowerAll(w, start, sts).cursor == LowerAll(w, Here(), sts[i..]).cursor
        invariant old(diagnostics) + LowerAll(w, start, sts).diagnostics
               == diagnostics + LowerAll(w, Here(), sts[i..]).diagnostics
      {
        assert sts[i..][0] == sts[i] && sts[i..][1..] == sts[i + 1..];
        ParseNode(sts[i]);
      }
    }

    method ParseThen(body: seq<Statement>, thenLabel: string, endLabel: string)
      modifies this
      ensures Grown(old(built), old(diagnostics), LowerThen(old(Around()), old(Here()), body, thenLabel, endLabel))
      ensures jumpStack == old(jumpStack)
      decreases body, 1
    {
      ghost var inner := LowerAll(Around(), Here(), body);
      EmitLabel(thenLabel);
      ParseBody(body);
      EmitJump(endLabel);
      assert built == old(built) + ([] + [LabelNode(thenLabel)] + inner.nodes + [GotoNode(endLabel)]);
    }

    method ParseElse(body: seq<Statement>, elseLabel: string)
      requires body != []
      modifies this
      ensures Grown(old(built), old(diagnostics), LowerElse(old(Around()), old(Here()), body, elseLabel))
      ensures jumpStack == old(jumpStack)
      decreases body, 1
    {
      ghost var inner := LowerAll(Around(), Here(), body);
      EmitLabel(elseLabel);
      ParseBody(body);
      assert built == old(built) + ([] + [LabelNode(elseLabel)] + inner.nodes);
    }

    /** The arms of an `if`, from the label of the first on. */
    method ParseArms(st: Statement, thenLabel: string, elseLabel: string, endLabel: string)
      requires st.If? && (elseLabel == endLabel <==> st.elseBody == [])
      modifies this
      ensures Grown(old(built), old(diagnostics), LowerArms(old(Around()), old(Here()), st, thenLabel, elseLabel, endLabel))
      ensures jumpStack == old(jumpStack)
      decreases st, 0
    {
      ghost var w, c := Around(), Here();
      ghost var first := LowerThen(w, c, st.thenBody, thenLabel, endLabel);
      ghost var otherwise := LowerElse(w, first.cursor, st.elseBody, elseLabel);
      ParseThen(st.thenBody, thenLabel, endLabel);
      if elseLabel != endLabel {
        ParseElse(st.elseBody, elseLabel);
      }
      EmitLabel(endLabel);
      assert built == old(built) + (first.nodes + otherwise.nodes + [LabelNode(endLabel)]);
    }

    method ParseIf(st: Statement)
      requires st.If?
      modifies this
      ensures Grown(old(built), old(diagnostics), LowerIf(old(Around()), old(Here()), st))
      ensures jumpStack == old(jumpStack)
      decreases st, 1
    {
      hide LowerArms, LabelName, Loaded, Test;
      if st.condition.Missing? {
        return;
      }
      var condition := LowerExpressionLoaded(Test(st.condition));
      if condition.None? {
        return;
      }
      ghost var n := nextLabelIndex;
      var thenLabel := MakeLabelName("if.then");
      var endLabel := MakeLabelName("if.end");
      var elseLabel := endLabel;
      if st.elseBody != [] {
        elseLabel := MakeLabelName("if.else");
        if elseLabel == endLabel {
          LabelShapes.LabelNamesDiffer(functionName, "if.end", n + 1, "if.else", n + 2);
        }
      }
      Push(BranchNode(condition.value, thenLabel, elseLabel));
      ghost var middle := built;
      ghost var arms := LowerArms(Around(), Here(), st, thenLabel, elseLabel, endLabel);
      ParseArms(st, thenLabel, elseLabel, endLabel);
      ghost var l := Loaded(old(allocations), Test(st.condition), old(nextRegisterIndex));
      assert built == old(built) + (l.nodes + [BranchNode(condition.value, thenLabel, elseLabel)] + arms.nodes);
    }

    /** The body of a loop, with its own break and continue targets. */
    method ParseLoopBody(body: seq<Statement>, continueLabel: string, endLabel: string)
      modifies this
      ensures Grown(old(built), old(diagnostics),
                    LowerAll(old(Around()).Inside(endLabel, continueLabel), old(Here()), body))
      ensures jumpStack == old(jumpStack)
      decreases body, 1
    {
      jumpStack := jumpStack + [JumpTarget(endLabel, Some(continueLabel))];
      ParseBody(body);
      jumpStack := jumpStack[..|jumpStack| - 1];
    }

    method ParseStep(step: Option<Expression>)
      modifies this`built, this`nextRegisterIndex, this`diagnostics
      ensures Grown(old(built), old(diagnostics), LowerStep(old(Here()), step))
    {
      if step.Some? {
        var ignored := LowerExpression(step.value);
      }
    }

    /** A loop from the label of its body on. */
    method ParseLoop(test: Option<Expression>, body: seq<Statement>, step: Option<Expression>, bodyLabel: string,
                     continueLabel: string, endLabel: string)
      modifies this
      ensures Grown(old(built), old(diagnostics),
                    LowerLoop(old(Around()), old(Here()), test, body, step, bodyLabel, continueLabel, endLabel))
      ensures jumpStack == old(jumpStack)
      decreases body, 3
    {
      ghost var front := LoopFront(Around(), Here(), body, step, bodyLabel, continueLabel, endLabel);
      ParseLoopFront(body, step, bodyLabel, continueLabel, endLabel);
      EmitLabel(continueLabel);
      ghost var again := LowerBranch(front.cursor, test, bodyLabel, endLabel).0;
      var ok := EmitConditionalBranch(test, bodyLabel, endLabel);
      assert built == old(built) + (front.nodes + [LabelNode(continueLabel)] + again.nodes);
      if ok {
        EmitLabel(endLabel);
        assert built == old(built) + (front.nodes + [LabelNode(continueLabel)] + again.nodes + [LabelNode(endLabel)]);
      }
    }

    /** A loop up to its continue label. */
    method ParseLoopFront(body: seq<Statement>, step: Option<Expression>, bodyLabel: string, continueLabel: string,
                          endLabel: string)
      modifies this
      ensures Grown(old(built), old(diagnostics),
                    LoopFront(old(Around()), old(Here()), body, step, bodyLabel, continueLabel, endLabel))
      ensures jumpStack == old(jumpStack)
      decreases body, 2
    {
      ghost var inner := LowerAll(Around().Inside(endLabel, continueLabel), Here(), body);
      EmitLabel(bodyLabel);
      ParseLoopBody(body, continueLabel, endLabel);
      ghost var stepped := LowerStep(inner.cursor, step);
      ParseStep(step);
      assert built == old(built) + ([] + [LabelNode(bodyLabel)] + inner.nodes + stepped.nodes);
    }

    /** A loop entered through its test. */
    method ParseEntry(test: Option<Expression>, body: seq<Statement>, step: Option<Expression>, bodyLabel: string,
                      continueLabel: string, endLabel: string)
      modifies this
      ensures var (first, ok) := LowerBranch(old(Here()), test, bodyLabel, endLabel);
              var rest := LowerLoop(old(Around()), first.cursor, test, body, step, bodyLabel, continueLabel, endLabel);
              Grown(old(built), old(diagnostics), if ok then rest.After(first) else first)
      ensures jumpStack == old(jumpStack)
      decreases body, 4
    {
      var ok := EmitConditionalBranch(test, bodyLabel, endLabel);
      if ok {
        ParseLoop(test, body, step, bodyLabel, continueLabel, endLabel);
      }
    }

    method ParseWhile(st: Statement)
      requires st.While?
      modifies this
      ensures Grown(old(built), old(diagnostics), LowerStatement(old(Around()), old(Here()), st))
      ensures jumpStack == old(jumpStack)
      decreases st, 1
    {
      hide LabelName, LowerAll, LowerBranch;
      var bodyLabel := MakeLabelName("while.body");
      var continueLabel := MakeLabelName("while.cont");
      var endLabel := MakeLabelName("while.end");
      ParseEntry(st.test, st.body, None, bodyLabel, continueLabel, endLabel);
    }

    method ParseDoWhile(st: Statement)
      requires st.DoWhile?
      modifies this
      ensures Grown(old(built), old(diagnostics), LowerStatement(old(Around()), old(Here()), st))
      ensures jumpStack == old(jumpStack)
      decreases st, 1
    {
      hide LowerLoop, LabelName;
      var bodyLabel := MakeLabelName("do.body");
      var continueLabel := MakeLabelName("do.cont");
      var endLabel := MakeLabelName("do.end");
      ParseLoop(st.test, st.body, None, bodyLabel, continueLabel, endLabel);
    }

    method ParseFor(st: Statement)
      requires st.For?
      modifies this
      ensures Grown(old(built), old(diagnostics), LowerStatement(old(Around()), old(Here()), st))
      ensures jumpStack == old(jumpStack)
      decreases st, 1
    {
      hide LowerLoop, LowerBranch, LabelName;
      var bodyLabel := MakeLabelName("for.body");
      var continueLabel := MakeLabelName("for.cont");
      var endLabel := MakeLabelName("for.end");
      ForForm(Around(), old(Here()), st, Here(), bodyLabel, continueLabel, endLabel);
      ParseInitAndLoop(st, bodyLabel, continueLabel, endLabel);
    }

    /** The initialisation of a `for` loop, and the loop. */
    method ParseInitAndLoop(st: Statement, bodyLabel: string, continueLabel: string, endLabel: string)
      requires st.For?
      modifies this
      ensures var begun := LowerStatement(old(Around()), old(Here()), st.init);
              var (first, ok) := LowerBranch(begun.cursor, st.test, bodyLabel, endLabel);
              var rest := LowerLoop(old(Around()), first.cursor, st.test, st.body, Some(st.step), bodyLabel,
                                    continueLabel, endLabel);
              Grown(old(built), old(diagnostics), if ok then rest.After(first.After(begun)) else first.After(begun))
      ensures jumpStack == old(jumpStack)
      decreases st, 0
    {
      ghost var begun := LowerStatement(Around(), Here(), st.init);
      ghost var first := LowerBranch(begun.cursor, st.test, bodyLabel, endLabel);
      ghost var rest := LowerLoop(Around(), first.0.cursor, st.test, st.body, Some(st.step), bodyLabel, continueLabel,
                                  endLabel);
      ParseNode(st.init);
      ParseEntry(st.test, st.body, Some(st.step), bodyLabel, continueLabel, endLabel);
      assert built == old(built) + if first.1 then begun.nodes + first.0.nodes + rest.nodes
                                   else begun.nodes + first.0.nodes;
    }

    method ParseNode(st: Statement)
      modifies this
      ensures Grown(old(built), old(diagnostics), LowerStatement(old(Around()), old(Here()), st))
      ensures jumpStack == old(jumpStack)
      decreases st, 2
    {
      match st
      case Evaluation(e) => var ignored := LowerExpression(e);
      case Declaration(name, width, initialiser) => ParseVariableDeclaration(name, width, initialiser);
      case If(_, _, _) => ParseIf(st);
      case While(_, _) => ParseWhile(st);
      case For(_, _, _, _) => ParseFor(st);
      case DoWhile(_, _) => ParseDoWhile(st);
      case Break => ParseBreak();
      case Continue => ParseContinue();
      case Return(returned) => ParseReturn(returned);
    }

    // ----- functions -----

    method EmitParameter(scope: nat, parameter: F.Parameter, index: nat)
      modifies this`built, this`nextRegisterIndex, this`allocations
      ensures Grown(old(built), old(diagnostics), F.LowerParameter(old(Here()), scope, parameter, index))
    {
      var register := MakeRegister(parameter.width);
      if parameter.name !in allocations {
        allocations := allocations[parameter.name := register.index];
      }
      Push(AllocationNode(register));
      Push(ParameterNode(scope, register, index));
      assert built == old(built) + ([] + [AllocationNode(register), ParameterNode(scope, register, index)]);
    }

    method EmitParameters(scope: nat, parameters: seq<F.Parameter>)
      modifies this
      ensures Grown(old(built), old(diagnostics), F.LowerParameters(old(Here()), scope, parameters, 0))
      ensures jumpStack == old(jumpStack)
    {
      ghost var start := Here();
      for i := 0 to |parameters|
        invariant jumpStack == old(jumpStack)
        invariant old(built) + F.LowerParameters(start, scope, parameters, 0).nodes
               == built + F.LowerParameters(Here(), scope, parameters[i..], i).nodes
        invariant F.LowerParameters(start, scope, parameters, 0).cursor
               == F.LowerParameters(Here(), scope, parameters[i..], i).cursor
        invariant old(diagnostics) + F.LowerParameters(start, scope, parameters, 0).diagnostics
               == diagnostics + F.LowerParameters(Here(), scope, parameters[i..], i).diagnostics
      {
        assert parameters[i..][0] == parameters[i] && parameters[i..][1..] == parameters[i + 1..];
        EmitParameter(scope, parameters[i], i);
      }
    }

    /** A whole function definition, in a lowering context of its own. */
    method ParseFunctionDefinition(f: F.Function)
      requires Here() == F.START && built == [] && diagnostics == 0 && jumpStack == []
      requires functionName == f.name && isVoid == f.isVoid
      modifies this
      ensures built == F.LowerFunction(f).nodes && diagnostics == F.LowerFunction(f).diagnostics
    {
      hide F.LowerParameters, F.LowerEnd, LowerAll;
      EmitParameters(f.scope, f.parameters);
      assert built == F.LowerBegin(f).nodes;
      ParseBody(f.body);
      EmitEnd(f);
    }

    /** The return at the end, where one is missing. */
    method EmitEnd(f: F.Function)
      requires isVoid == f.isVoid && functionName == f.name
      modifies this`built, this`nextRegisterIndex
      ensures Grown(old(built), old(diagnostics), F.LowerEnd(f, old(Here()), old(built)))
    {
      if isVoid {
        Push(ReturnNode(None));
      }
      if functionName == "main" && (built == [] || !built[|built| - 1].ReturnNode?) {
        var zero := MakeRegister(f.returnWidth);
        Push(ImmediateNode(zero, 0));
        Push(ReturnNode(Some(zero.index)));
      }
    }
  }
}
