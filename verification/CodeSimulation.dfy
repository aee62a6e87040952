/** A well-formed body and its translation run alike: they halt together, with the same memory and
    the same returned value. */
module CodeSimulation {
  import opened Options
  import opened VirtualCode
  import opened AllocationMaps
  import opened Ssa
  import opened PseudoAssembly
  import opened ReferenceCounts
  import opened BodyTranslation

  // ----- what virtual instructions mean -----

  function CodeHolds(I: Interpretation, c: ConditionCode, a: int, b: int): bool {
    match c
    case Equal => a == b
    case NotEqual => a != b
    case Less => I.signed(a) < I.signed(b)
    case LessEqual => I.signed(a) <= I.signed(b)
    case Greater => I.signed(a) > I.signed(b)
    case GreaterEqual => I.signed(a) >= I.signed(b)
    case Below => I.unsigned(a) < I.unsigned(b)
    case BelowEqual => I.unsigned(a) <= I.unsigned(b)
    case Above => I.unsigned(a) > I.unsigned(b)
    case AboveEqual => I.unsigned(a) >= I.unsigned(b)
  }

  /** The inverted code of a predicate's condition code holds exactly when the predicate fails:
      for all ten predicates, and however values are read as signed and unsigned numbers. */
  lemma InvertedCodeNegates(I: Interpretation, c: Comparison, a: int, b: int)
    ensures CodeHolds(I, ToConditionCode(c), a, b) == I.Compares(c, a, b)
    ensures CodeHolds(I, Invert(ToConditionCode(c)), a, b) == !I.Compares(c, a, b)
  {
    match c
    case IsEqual =>
    case IsNotEqual =>
    case _ =>
  }

  function VirtualEffect(J: Interpretation, instruction: VirtualInstruction, v: State): State {
    match instruction
    case Plain(opcode, operands) =>
      if |operands| == 2 then EffectOfTwo(J, opcode, operands[0], operands[1], v)
      else if |operands| == 3 then EffectOfThree(J, opcode, operands[0], operands[1], operands[2], v)
      else v
    case _ => v
  }

  function EffectOfTwo(J: Interpretation, opcode: Opcode, a: nat, b: nat, v: State): State {
    match opcode
    case CopyInteger => Write(J, v, a, b)
    case Copy => Write(J, v, a, Read(J, v, b))
    case BitwiseNot => Write(J, v, a, J.unary(Complement, Read(J, v, b)))
    case ArithmeticNegate => Write(J, v, a, J.unary(Negation, Read(J, v, b)))
    case Reinterpret => Write(J, v, a, J.convert(ToReinterpret, Read(J, v, b)))
    case ZeroExtension => Write(J, v, a, J.convert(ToZeroExtension, Read(J, v, b)))
    case SignExtension => Write(J, v, a, J.convert(ToSignExtension, Read(J, v, b)))
    case SignExtendAndReinterpret => Write(J, v, a, J.convert(ToSignExtendAndReinterpret, Read(J, v, b)))
    case ZeroExtendAndReinterpret => Write(J, v, a, J.convert(ToZeroExtendAndReinterpret, Read(J, v, b)))
    case Truncate => Write(J, v, a, J.convert(ToTruncate, Read(J, v, b)))
    case AddressOf => Write(J, v, a, Get(J.cells, b))
    case Indirection => Write(J, v, a, Get(v.memory, Read(J, v, b)))
    case IndirectStore => v.(memory := v.memory[Read(J, v, a) := Read(J, v, b)])
    case _ => v
  }

  function EffectOfThree(J: Interpretation, opcode: Opcode, a: nat, b: nat, c: nat, v: State): State {
    match opcode
    case CopyParameter => Write(J, v, b, J.argument(c))
    case Add => Write(J, v, a, J.binary(Addition, Read(J, v, b), Read(J, v, c)))
    case Sub => Write(J, v, a, J.binary(Subtraction, Read(J, v, b), Read(J, v, c)))
    case Multiplication => Write(J, v, a, J.binary(Times, Read(J, v, b), Read(J, v, c)))
    case Division => Write(J, v, a, J.binary(Divide, Read(J, v, b), Read(J, v, c)))
    case LeftShift => Write(J, v, a, J.binary(ShiftLeft, Read(J, v, b), Read(J, v, c)))
    case RightShift => Write(J, v, a, J.binary(ShiftRight, Read(J, v, b), Read(J, v, c)))
    case BinaryOr => Write(J, v, a, J.binary(Or, Read(J, v, b), Read(J, v, c)))
    case BinaryAnd => Write(J, v, a, J.binary(And, Read(J, v, b), Read(J, v, c)))
    case BinaryXor => Write(J, v, a, J.binary(Xor, Read(J, v, b), Read(J, v, c)))
    case _ => v
  }

  function MachineOf(J: Interpretation): Machine {
    Machine((i: VirtualInstruction, v: State) => VirtualEffect(J, i, v),
            (c: ConditionCode, l: nat, r: nat, v: State) => CodeHolds(J, c, Read(J, v, l), Read(J, v, r)))
  }

  /** The interpretation with its cells under their virtual names. */
  ghost function Renamed(I: Interpretation, regs: map<nat, nat>): Interpretation
    requires Injective(regs)
  {
    I.(cells := map r | r in regs && r in I.cells :: regs[r] := I.cells[r])
  }

  /** What a halted run returned: the operand of the return it ended with. */
  function Returned(J: Interpretation, o: Observation): Option<int> {
    if |o.trace| > 0 && o.trace[|o.trace| - 1].Return? && |o.trace[|o.trace| - 1].operands| == 1
    then Some(Read(J, o.state, o.trace[|o.trace| - 1].operands[0]))
    else None
  }

  // ----- matching states -----

  ghost predicate Matches(I: Interpretation, regs: map<nat, nat>, s: State, v: State) {
    s.memory == v.memory
    && forall r :: r in regs && r !in I.cells ==> Get(s.registers, r) == Get(v.registers, regs[r])
  }

  lemma ReadMatches(I: Interpretation, regs: map<nat, nat>, s: State, v: State, r: nat)
    requires Injective(regs) && Matches(I, regs, s, v) && r in regs
    ensures Read(I, s, r) == Read(Renamed(I, regs), v, regs[r])
    ensures Get(I.cells, r) == Get(Renamed(I, regs).cells, regs[r])
  {
  }

  lemma WriteMatches(I: Interpretation, regs: map<nat, nat>, s: State, v: State, r: nat, x: int)
    requires Injective(regs) && Matches(I, regs, s, v) && r in regs
    ensures Matches(I, regs, Write(I, s, r, x), Write(Renamed(I, regs), v, regs[r], x))
  {
  }

  /** What a node computes before anything else happens: one instruction, doing the same. */
  predicate Straight(node: Node) {
    !IsTransfer(node) && !node.LabelNode? && !node.AllocationNode? && !node.CompareNode? && !node.CallNode?
    && !(node.BinaryNode? && node.binary.Modulo?)
  }

  ghost predicate Known(node: Node, regs: map<nat, nat>) {
    (forall k :: 0 <= k < |Lookups(node)| ==> Lookups(node)[k] in regs)
    && (ResultOf(node).Some? ==> ResultOf(node).value.index in regs)
  }

  lemma EffectsByArity(J: Interpretation, opcode: Opcode, a: nat, b: nat, c: nat, v: State)
    ensures VirtualEffect(J, Plain(opcode, [a, b]), v) == EffectOfTwo(J, opcode, a, b, v)
    ensures VirtualEffect(J, Plain(opcode, [a, b, c]), v) == EffectOfThree(J, opcode, a, b, c, v)
  {
  }

  lemma BinaryEffect(J: Interpretation, op: BinaryOperator, a: nat, b: nat, c: nat, v: State)
    requires !op.Modulo?
    ensures VirtualEffect(J, Plain(BinaryOpcode(op), [a, b, c]), v)
         == Write(J, v, a, J.binary(op, Read(J, v, b), Read(J, v, c)))
  {
    EffectsByArity(J, BinaryOpcode(op), a, b, c, v);
  }

  lemma BinaryMatches(I: Interpretation, node: Node, regs: map<nat, nat>, s: State, v: State)
    requires node.BinaryNode? && !node.binary.Modulo? && Known(node, regs)
    requires Injective(regs) && Matches(I, regs, s, v)
    ensures Matches(I, regs, Effect(I, node, s),
                    VirtualEffect(Renamed(I, regs),
                                  Plain(BinaryOpcode(node.binary),
                                        [At(regs, node.result.index), At(regs, node.left), At(regs, node.right)]), v))
  {
    assert Lookups(node)[0] == node.left && Lookups(node)[1] == node.right;
    ReadMatches(I, regs, s, v, node.left);
    ReadMatches(I, regs, s, v, node.right);
    BinaryEffect(Renamed(I, regs), node.binary, regs[node.result.index], regs[node.left], regs[node.right], v);
    WriteMatches(I, regs, s, v, node.result.index, I.binary(node.binary, Read(I, s, node.left), Read(I, s, node.right)));
  }

  /** The value a one-operand node computes, and the opcode that computes it. */
  function ValueOf(I: Interpretation, node: Node, s: State): int
    requires OneOperand(node)
  {
    match node
    case UnaryNode(op, _, operand) => I.unary(op, Read(I, s, operand))
    case ConvertNode(c, _, operand) => I.convert(c, Read(I, s, operand))
    case DecayNode(_, operand) => Get(I.cells, operand)
    case AddressOfNode(_, operand) => Get(I.cells, operand)
    case DerefNode(_, operand) => Get(s.memory, Read(I, s, operand))
    case _ => Read(I, s, node.operand)
  }

  function OpcodeOf(node: Node): Opcode
    requires OneOperand(node)
  {
    match node
    case UnaryNode(op, _, _) => UnaryOpcode(op)
    case ConvertNode(c, _, _) => ConversionOpcode(c)
    case DecayNode(_, _) => AddressOf
    case AddressOfNode(_, _) => AddressOf
    case DerefNode(_, _) => Indirection
    case _ => Copy
  }

  predicate OneOperand(node: Node) {
    node.UnaryNode? || node.ConvertNode? || node.PointerConvertNode? || node.DecayNode? || node.LoadNode?
    || node.DerefNode? || node.AddressOfNode?
  }

  lemma OneOperandEffect(J: Interpretation, node: Node, a: nat, b: nat, v: State)
    requires OneOperand(node)
    ensures VirtualEffect(J, Plain(OpcodeOf(node), [a, b]), v)
         == Write(J, v, a, match node {
                             case UnaryNode(op, _, _) => J.unary(op, Read(J, v, b))
                             case ConvertNode(c, _, _) => J.convert(c, Read(J, v, b))
                             case DecayNode(_, _) => Get(J.cells, b)
                             case AddressOfNode(_, _) => Get(J.cells, b)
                             case DerefNode(_, _) => Get(v.memory, Read(J, v, b))
                             case _ => Read(J, v, b) })
  {
    hide Read, Write, Get;
    EffectsByArity(J, OpcodeOf(node), a, b, 0, v);
  }

  lemma OneOperandMatches(I: Interpretation, node: Node, regs: map<nat, nat>, s: State, v: State)
    requires OneOperand(node) && Known(node, regs)
    requires Injective(regs) && Matches(I, regs, s, v)
    ensures Matches(I, regs, Effect(I, node, s),
                    VirtualEffect(Renamed(I, regs),
                                  Plain(OpcodeOf(node), [At(regs, node.result.index), At(regs, node.operand)]), v))
  {
    assert Lookups(node)[0] == node.operand;
    ReadMatches(I, regs, s, v, node.operand);
    OneOperandEffect(Renamed(I, regs), node, regs[node.result.index], regs[node.operand], v);
    assert Effect(I, node, s) == Write(I, s, node.result.index, ValueOf(I, node, s));
    WriteMatches(I, regs, s, v, node.result.index, ValueOf(I, node, s));
  }

  lemma StoreMatches(I: Interpretation, node: Node, regs: map<nat, nat>, s: State, v: State)
    requires node.StoreNode? && Known(node, regs)
    requires Injective(regs) && Matches(I, regs, s, v)
    ensures Matches(I, regs, Effect(I, node, s),
                    VirtualEffect(Renamed(I, regs), Plain(Copy, [At(regs, node.target), At(regs, node.source)]), v))
  {
    assert Lookups(node)[0] == node.target && Lookups(node)[1] == node.source;
    ReadMatches(I, regs, s, v, node.source);
    EffectsByArity(Renamed(I, regs), Copy, regs[node.target], regs[node.source], 0, v);
    WriteMatches(I, regs, s, v, node.target, Read(I, s, node.source));
  }

  lemma IndirectStoreEffect(J: Interpretation, a: nat, b: nat, v: State)
    ensures VirtualEffect(J, Plain(IndirectStore, [a, b]), v)
         == v.(memory := v.memory[Read(J, v, a) := Read(J, v, b)])
  {
    EffectsByArity(J, IndirectStore, a, b, 0, v);
  }

  lemma IndirectStoreMatches(I: Interpretation, node: Node, regs: map<nat, nat>, s: State, v: State)
    requires node.IndirectStoreNode? && Known(node, regs)
    requires Injective(regs) && Matches(I, regs, s, v)
    ensures Matches(I, regs, Effect(I, node, s),
                    VirtualEffect(Renamed(I, regs),
                                  Plain(IndirectStore, [At(regs, node.target), At(regs, node.source)]), v))
  {
    assert Lookups(node)[0] == node.target && Lookups(node)[1] == node.source;
    var a, b := At(regs, node.target), At(regs, node.source);
    ReadMatches(I, regs, s, v, node.target);
    ReadMatches(I, regs, s, v, node.source);
    IndirectStoreEffect(Renamed(I, regs), a, b, v);
    CellMatches(I, regs, s, v, Read(I, s, node.target), Read(I, s, node.source));
  }

  lemma CellMatches(I: Interpretation, regs: map<nat, nat>, s: State, v: State, address: int, x: int)
    requires Matches(I, regs, s, v)
    ensures Matches(I, regs, s.(memory := s.memory[address := x]), v.(memory := v.memory[address := x]))
  {
  }

  /** A node that stores a constant, and where. */
  lemma ConstantMatches(I: Interpretation, node: Node, regs: map<nat, nat>, s: State, v: State, r: nat, x: nat)
    requires r in regs && Effect(I, node, s) == Write(I, s, r, x)
    requires Injective(regs) && Matches(I, regs, s, v)
    ensures Matches(I, regs, Effect(I, node, s),
                    VirtualEffect(Renamed(I, regs), Plain(CopyInteger, [At(regs, r), x]), v))
  {
    EffectsByArity(Renamed(I, regs), CopyInteger, regs[r], x, 0, v);
    WriteMatches(I, regs, s, v, r, x);
  }

  lemma ParameterMatches(I: Interpretation, node: Node, regs: map<nat, nat>, s: State, v: State, index: nat)
    requires node.ParameterNode? && Known(node, regs)
    requires Injective(regs) && Matches(I, regs, s, v)
    ensures Matches(I, regs, Effect(I, node, s),
                    VirtualEffect(Renamed(I, regs),
                                  Plain(CopyParameter, [index, At(regs, node.register.index), node.index]), v))
  {
    assert Lookups(node)[0] == node.register.index;
    EffectsByArity(Renamed(I, regs), CopyParameter, index, regs[node.register.index], node.index, v);
    WriteMatches(I, regs, s, v, node.register.index, I.argument(node.index));
  }

  lemma StraightMatches(I: Interpretation, body: seq<Node>, i: nat, regs: map<nat, nat>, labels: map<string, nat>,
                        s: State, v: State)
    requires i < |body| && Straight(body[i]) && Known(body[i], regs)
    requires Injective(regs) && Matches(I, regs, s, v)
    ensures |Chunk(body, i, regs, labels)| == 1 && Chunk(body, i, regs, labels)[0].Plain?
    ensures Matches(I, regs, Effect(I, body[i], s),
                    VirtualEffect(Renamed(I, regs), Chunk(body, i, regs, labels)[0], v))
  {
    var node := body[i];
    if node.BinaryNode? {
      BinaryMatches(I, node, regs, s, v);
    } else if node.StoreNode? {
      StoreMatches(I, node, regs, s, v);
    } else if node.IndirectStoreNode? {
      IndirectStoreMatches(I, node, regs, s, v);
    } else if node.ImmediateNode? {
      ConstantMatches(I, node, regs, s, v, node.result.index, node.value);
    } else if node.StoreIntegerNode? {
      assert Lookups(node)[0] == node.target;
      ConstantMatches(I, node, regs, s, v, node.target, node.value);
    } else if node.ParameterNode? {
      ParameterMatches(I, node, regs, s, v, IndexIn(FunctionsUsed(body, i), node.scope));
    } else {
      OneOperandMatches(I, node, regs, s, v);
    }
  }

  // ----- code laid out for a body -----

  /** Where the nodes of a body went: their registers, label numbers and offsets in the code. */
  datatype Layout = Layout(
    regs: map<nat, nat>, labels: map<string, nat>, code: seq<VirtualInstruction>, offsets: seq<nat>)

  /** What an instruction does matches what a node does. */
  ghost predicate DoesSame(node: Node, instruction: VirtualInstruction, regs: map<nat, nat>)
    requires Injective(regs)
  {
    instruction.Plain?
    && forall I: Interpretation, s: State, v: State :: Matches(I, regs, s, v) ==>
         Matches(I, regs, Effect(I, node, s), VirtualEffect(Renamed(I, regs), instruction, v))
  }

  /** The code at the place of node `i`. */
  ghost predicate Encodes(body: seq<Node>, L: Layout, i: nat)
    requires i < |body| && |L.offsets| == |body| + 1 && Injective(L.regs)
  {
    var node, q, next := body[i], L.offsets[i], L.offsets[i + 1];
    if node.AllocationNode? then next == q
    else if node.CompareNode? then
      next == q && node.left in L.regs && node.right in L.regs && node.result.index !in L.regs
    else if node.LabelNode? then next == q + 1 && q < |L.code| && L.code[q].Label?
    else if node.GotoNode? then
      q < |L.code| && HasName(body, node.name) && L.code[q] == UnconditionalJump(At(L.labels, node.name))
    else if node.BranchNode? then
      q + 1 < |L.code| && Compared(body, i) && body[i - 1].left in L.regs && body[i - 1].right in L.regs
      && HasName(body, node.trueLabel) && HasName(body, node.falseLabel)
      && L.code[q] == CompareAndJump(L.regs[body[i - 1].left], L.regs[body[i - 1].right],
                                     Invert(ToConditionCode(body[i - 1].comparison)), At(L.labels, node.falseLabel))
      && L.code[q + 1] == UnconditionalJump(At(L.labels, node.trueLabel))
    else if node.ReturnNode? then
      q < |L.code| && (node.returned.Some? ==> node.returned.value in L.regs)
      && L.code[q] == Return(if node.returned.Some? then [L.regs[node.returned.value]] else [])
    else
      next == q + 1 && q < |L.code| && !node.CallNode? && DoesSame(node, L.code[q], L.regs)
  }

  ghost predicate LandsOn(body: seq<Node>, L: Layout, name: string)
    requires |L.offsets| == |body| + 1
  {
    HasName(body, name) ==>
      HasLabel(L.code, At(L.labels, name)) && Position(L.code, At(L.labels, name)) == L.offsets[Place(body, name)]
  }

  ghost predicate LaidOut(body: seq<Node>, L: Layout) {
    && |L.offsets| == |body| + 1 && L.offsets[|body|] == |L.code| && L.offsets[0] == 0
    && Injective(L.regs)
    && (forall i :: 0 <= i < |body| ==> Encodes(body, L, i))
    && (forall name :: LandsOn(body, L, name))
  }

  // ----- running both -----

  /** The cells are registers with a place in the code. */
  ghost predicate CellsFit(I: Interpretation, L: Layout) {
    forall r :: r in I.cells ==> r in L.regs
  }

  ghost predicate Aligned(I: Interpretation, body: seq<Node>, L: Layout, pc: nat, s: State, v: State) {
    pc <= |body| && Matches(I, L.regs, s, v)
    && (pc < |body| && Compared(body, pc) ==>
          Read(I, s, body[pc].condition)
          == if I.Compares(body[pc - 1].comparison, Read(I, s, body[pc - 1].left), Read(I, s, body[pc - 1].right))
             then 1 else 0)
  }

  ghost function MachineFor(I: Interpretation, L: Layout): Machine
    requires Injective(L.regs)
  {
    MachineOf(Renamed(I, L.regs))
  }

  /** A run is over, with this memory and this returned value. */
  ghost predicate Ends(J: Interpretation, o: Observation, value: Option<int>, memory: map<int, int>) {
    o.halted && o.state.memory == memory && Returned(J, o) == value
  }

  lemma EndsBefore(J: Interpretation, shown: VirtualInstruction, o: Observation, value: Option<int>,
                   memory: map<int, int>)
    requires shown.Plain?
    ensures Ends(J, Before(shown, o), value, memory) == Ends(J, o, value, memory)
  {
    var p := Before(shown, o);
    if o.trace != [] {
      assert p.trace[|p.trace| - 1] == o.trace[|o.trace| - 1];
    }
  }

  // One step of the body at `pc`, by kind of node.

  lemma StepsPlain(I: Interpretation, body: seq<Node>, L: Layout, pc: nat, s: State, v: State, fuel: nat)
    returns (v': State)
    requires |L.offsets| == |body| + 1 && Injective(L.regs) && Aligned(I, body, L, pc, s, v)
    requires pc < |body| && Encodes(body, L, pc) && Straight(body[pc])
    ensures v' == VirtualEffect(Renamed(I, L.regs), L.code[L.offsets[pc]], v) && L.code[L.offsets[pc]].Plain?
    ensures Step(I, body, Running(pc, s)) == Running(pc + 1, Effect(I, body[pc], s))
    ensures Aligned(I, body, L, pc + 1, Effect(I, body[pc], s), v')
    ensures Run(MachineFor(I, L), L.code, L.offsets[pc], v, 1 + fuel)
         == Before(L.code[L.offsets[pc]], Run(MachineFor(I, L), L.code, L.offsets[pc + 1], v', fuel))
  {
    hide Renamed, VirtualEffect, Effect, HasName;
    v' := VirtualEffect(Renamed(I, L.regs), L.code[L.offsets[pc]], v);
  }

  lemma StepsSilent(I: Interpretation, body: seq<Node>, L: Layout, pc: nat, s: State, v: State)
    requires |L.offsets| == |body| + 1 && Injective(L.regs) && CellsFit(I, L) && Aligned(I, body, L, pc, s, v)
    requires pc < |body| && Encodes(body, L, pc) && (body[pc].AllocationNode? || body[pc].CompareNode?)
    ensures Step(I, body, Running(pc, s)) == Running(pc + 1, Effect(I, body[pc], s))
    ensures Aligned(I, body, L, pc + 1, Effect(I, body[pc], s), v)
    ensures L.offsets[pc + 1] == L.offsets[pc]
  {
  }

  lemma StepsJump(I: Interpretation, body: seq<Node>, L: Layout, pc: nat, s: State, v: State, fuel: nat)
    returns (next: nat)
    requires |L.offsets| == |body| + 1 && Injective(L.regs) && Aligned(I, body, L, pc, s, v)
    requires pc < |body| && Encodes(body, L, pc) && (body[pc].LabelNode? || body[pc].GotoNode?)
    requires body[pc].GotoNode? ==> LandsOn(body, L, body[pc].name)
    ensures next <= |body| && Step(I, body, Running(pc, s)) == Running(next, s) && Aligned(I, body, L, next, s, v)
    ensures Run(MachineFor(I, L), L.code, L.offsets[pc], v, 1 + fuel)
         == Run(MachineFor(I, L), L.code, L.offsets[next], v, fuel)
  {
    next := if body[pc].LabelNode? then pc + 1 else Place(body, body[pc].name);
  }

  lemma PairRuns(m: Machine, code: seq<VirtualInstruction>, q: nat, v: State, fuel: nat)
    requires q + 1 < |code| && code[q].CompareAndJump? && code[q + 1].UnconditionalJump?
    ensures m.holds(code[q].cc, code[q].lhs, code[q].rhs, v) ==>
              Run(m, code, q, v, 1 + fuel) == Run(m, code, Target(code, code[q].id, q), v, fuel)
    ensures !m.holds(code[q].cc, code[q].lhs, code[q].rhs, v) ==>
              Run(m, code, q, v, 2 + fuel) == Run(m, code, Target(code, code[q + 1].id, q + 1), v, fuel)
  {
    if !m.holds(code[q].cc, code[q].lhs, code[q].rhs, v) {
      assert Run(m, code, q, v, 2 + fuel) == Run(m, code, q + 1, v, 1 + fuel);
    }
  }

  /** The inverted condition holds in the code exactly when the comparison failed. */
  lemma HoldsOppositely(I: Interpretation, body: seq<Node>, L: Layout, pc: nat, s: State, v: State)
    requires |L.offsets| == |body| + 1 && Injective(L.regs) && Aligned(I, body, L, pc, s, v)
    requires pc < |body| && Encodes(body, L, pc) && body[pc].BranchNode?
    ensures var jump := L.code[L.offsets[pc]];
            MachineFor(I, L).holds(jump.cc, jump.lhs, jump.rhs, v) <==> Read(I, s, body[pc].condition) == 0
  {
    var previous := body[pc - 1];
    ReadMatches(I, L.regs, s, v, previous.left);
    ReadMatches(I, L.regs, s, v, previous.right);
    InvertedCodeNegates(Renamed(I, L.regs), previous.comparison, Read(I, s, previous.left), Read(I, s, previous.right));
  }

  /** The label a branch goes to. */
  function Chosen(I: Interpretation, node: Node, s: State): string
    requires node.BranchNode?
  {
    if Read(I, s, node.condition) != 0 then node.trueLabel else node.falseLabel
  }

  lemma BranchLeads(I: Interpretation, body: seq<Node>, L: Layout, pc: nat, s: State, v: State)
    requires Aligned(I, body, L, pc, s, v) && pc < |body| && body[pc].BranchNode?
    requires HasName(body, Chosen(I, body[pc], s))
    ensures Step(I, body, Running(pc, s)) == Running(Place(body, Chosen(I, body[pc], s)), s)
    ensures Aligned(I, body, L, Place(body, Chosen(I, body[pc], s)), s, v)
  {
  }

  lemma BranchRuns(m: Machine, code: seq<VirtualInstruction>, q: nat, v: State, fuel: nat, trueId: nat, falseId: nat)
    requires q + 1 < |code| && code[q].CompareAndJump? && code[q].id == falseId
    requires code[q + 1] == UnconditionalJump(trueId) && HasLabel(code, trueId) && HasLabel(code, falseId)
    ensures var holds := m.holds(code[q].cc, code[q].lhs, code[q].rhs, v);
            Run(m, code, q, v, (if holds then 1 else 2) + fuel)
            == Run(m, code, Position(code, if holds then falseId else trueId), v, fuel)
    ensures !m.holds(code[q].cc, code[q].lhs, code[q].rhs, v) ==> !Run(m, code, q, v, 1).halted
  {
    PairRuns(m, code, q, v, fuel);
  }

  /** Where the pair of a branch is, and where its labels are. */
  lemma PairIsThere(I: Interpretation, body: seq<Node>, L: Layout, pc: nat, s: State)
    requires |L.offsets| == |body| + 1 && Injective(L.regs) && pc < |body| && Encodes(body, L, pc) && body[pc].BranchNode?
    requires LandsOn(body, L, body[pc].trueLabel) && LandsOn(body, L, body[pc].falseLabel)
    ensures var q, trueId, falseId := L.offsets[pc], At(L.labels, body[pc].trueLabel), At(L.labels, body[pc].falseLabel);
            q + 1 < |L.code| && L.code[q].CompareAndJump? && L.code[q].id == falseId
            && L.code[q + 1] == UnconditionalJump(trueId) && HasLabel(L.code, trueId) && HasLabel(L.code, falseId)
            && HasName(body, Chosen(I, body[pc], s))
            && Position(L.code, if Read(I, s, body[pc].condition) == 0 then falseId else trueId)
               == L.offsets[Place(body, Chosen(I, body[pc], s))]
  {
    hide Run, Read;
  }

  function Spent(I: Interpretation, node: Node, s: State): nat
    requires node.BranchNode?
  {
    if Read(I, s, node.condition) != 0 then 2 else 1
  }

  /** The emitted pair goes to the true label exactly when the predicate holds. */
  lemma StepsBranch(I: Interpretation, body: seq<Node>, L: Layout, pc: nat, s: State, v: State, fuel: nat)
    requires |L.offsets| == |body| + 1 && Injective(L.regs) && Aligned(I, body, L, pc, s, v)
    requires pc < |body| && Encodes(body, L, pc) && body[pc].BranchNode?
    requires LandsOn(body, L, body[pc].trueLabel) && LandsOn(body, L, body[pc].falseLabel)
    ensures Spent(I, body[pc], s) == 2 ==> !Run(MachineFor(I, L), L.code, L.offsets[pc], v, 1).halted
    ensures Run(MachineFor(I, L), L.code, L.offsets[pc], v, Spent(I, body[pc], s) + fuel)
         == Run(MachineFor(I, L), L.code, L.offsets[Place(body, Chosen(I, body[pc], s))], v, fuel)
  {
    hide Run, Encodes, Aligned, LandsOn, HasLabel, HasName, Read;
    PairIsThere(I, body, L, pc, s);
    HoldsOppositely(I, body, L, pc, s, v);
    BranchRuns(MachineFor(I, L), L.code, L.offsets[pc], v, fuel, At(L.labels, body[pc].trueLabel),
               At(L.labels, body[pc].falseLabel));
  }

  lemma ReturnSteps(I: Interpretation, body: seq<Node>, pc: nat, s: State, k: nat, value: Option<int>,
                    memory: map<int, int>)
    requires AtEnd(body, pc) && k > 0 && Steps(I, body, Running(pc, s), k) == Halted(value, memory)
    ensures memory == s.memory
    ensures value == if pc < |body| && body[pc].returned.Some? then Some(Read(I, s, body[pc].returned.value)) else None
  {
    StepsHalted(I, body, Step(I, body, Running(pc, s)), k - 1);
  }

  lemma ReturnRuns(J: Interpretation, code: seq<VirtualInstruction>, q: nat, v: State)
    requires q == |code| || (q < |code| && code[q].Return?)
    ensures Ends(J, Run(MachineOf(J), code, q, v, 1),
                 if q < |code| && |code[q].operands| == 1 then Some(Read(J, v, code[q].operands[0])) else None, v.memory)
  {
  }

  lemma StepsReturn(I: Interpretation, body: seq<Node>, L: Layout, pc: nat, s: State, v: State, k: nat,
                    value: Option<int>, memory: map<int, int>)
    requires |L.offsets| == |body| + 1 && L.offsets[|body|] == |L.code| && Injective(L.regs)
    requires Aligned(I, body, L, pc, s, v) && AtEnd(body, pc)
    requires pc < |body| ==> Encodes(body, L, pc)
    requires k > 0 && Steps(I, body, Running(pc, s), k) == Halted(value, memory)
    ensures Ends(Renamed(I, L.regs), Run(MachineFor(I, L), L.code, L.offsets[pc], v, 1), value, memory)
  {
    ReturnSteps(I, body, pc, s, k, value, memory);
    ReturnRuns(Renamed(I, L.regs), L.code, L.offsets[pc], v);
    if pc < |body| && body[pc].returned.Some? {
      ReadMatches(I, L.regs, s, v, body[pc].returned.value);
    }
  }

  /** The end of a body: past its last node, or at a return. */
  predicate AtEnd(body: seq<Node>, pc: nat) {
    pc >= |body| || body[pc].ReturnNode?
  }

  /** What one step at `pc` relies on. */
  ghost predicate Ready(I: Interpretation, body: seq<Node>, L: Layout, pc: nat, s: State, v: State) {
    && |L.offsets| == |body| + 1 && Injective(L.regs) && CellsFit(I, L) && Aligned(I, body, L, pc, s, v)
    && pc < |body| && !body[pc].ReturnNode? && Encodes(body, L, pc)
    && (body[pc].GotoNode? ==> LandsOn(body, L, body[pc].name))
    && (body[pc].BranchNode? ==> LandsOn(body, L, body[pc].trueLabel) && LandsOn(body, L, body[pc].falseLabel))
  }

  lemma IsReady(I: Interpretation, body: seq<Node>, L: Layout, pc: nat, s: State, v: State)
    requires LaidOut(body, L) && CellsFit(I, L) && Aligned(I, body, L, pc, s, v) && !AtEnd(body, pc)
    ensures Ready(I, body, L, pc, s, v)
  {
    if body[pc].BranchNode? {
      assert LandsOn(body, L, body[pc].trueLabel) && LandsOn(body, L, body[pc].falseLabel);
    }
  }

  /** Where a step leads, the virtual state there, and the fuel the code takes to get there. */
  ghost function NextPc(I: Interpretation, body: seq<Node>, pc: nat, s: State): nat
    requires pc < |body| && (body[pc].GotoNode? ==> HasName(body, body[pc].name))
    requires body[pc].BranchNode? ==> HasName(body, Chosen(I, body[pc], s))
  {
    if body[pc].GotoNode? then Place(body, body[pc].name)
    else if body[pc].BranchNode? then Place(body, Chosen(I, body[pc], s))
    else pc + 1
  }

  ghost function NextVirtual(I: Interpretation, body: seq<Node>, L: Layout, pc: nat, v: State): State
    requires pc < |body| == |L.offsets| - 1 && Injective(L.regs)
    requires Straight(body[pc]) ==> L.offsets[pc] < |L.code|
  {
    if Straight(body[pc]) then VirtualEffect(Renamed(I, L.regs), L.code[L.offsets[pc]], v) else v
  }

  function Cost(I: Interpretation, node: Node, s: State): nat {
    if node.AllocationNode? || node.CompareNode? then 0
    else if node.BranchNode? then Spent(I, node, s)
    else 1
  }

  lemma StraightOr(body: seq<Node>, L: Layout, pc: nat)
    requires |L.offsets| == |body| + 1 && Injective(L.regs) && pc < |body| && Encodes(body, L, pc)
    requires !body[pc].ReturnNode? && !(body[pc].BinaryNode? && body[pc].binary.Modulo?)
    ensures Straight(body[pc]) || body[pc].LabelNode? || body[pc].GotoNode? || body[pc].BranchNode?
            || body[pc].AllocationNode? || body[pc].CompareNode?
  {
  }

  lemma StepAligned(I: Interpretation, body: seq<Node>, L: Layout, pc: nat, s: State, v: State)
    requires Ready(I, body, L, pc, s, v) && !(body[pc].BinaryNode? && body[pc].binary.Modulo?)
    ensures var next := NextPc(I, body, pc, s);
            next <= |body| && Step(I, body, Running(pc, s)) == Running(next, Effect(I, body[pc], s))
            && Aligned(I, body, L, next, Effect(I, body[pc], s), NextVirtual(I, body, L, pc, v))
  {
    hide Aligned, VirtualEffect, LandsOn;
    StraightOr(body, L, pc);
    if body[pc].LabelNode? || body[pc].GotoNode? {
      var next := StepsJump(I, body, L, pc, s, v, 0);
    } else if body[pc].BranchNode? {
      BranchLeads(I, body, L, pc, s, v);
    } else if Straight(body[pc]) {
      var v' := StepsPlain(I, body, L, pc, s, v, 0);
    } else {
      StepsSilent(I, body, L, pc, s, v);
    }
  }

  lemma StraightEnds(I: Interpretation, body: seq<Node>, L: Layout, pc: nat, s: State, v: State, fuel: nat,
                     value: Option<int>, memory: map<int, int>)
    requires Ready(I, body, L, pc, s, v) && Straight(body[pc]) && NextPc(I, body, pc, s) <= |body|
    ensures var here := Run(MachineFor(I, L), L.code, L.offsets[pc], v, Cost(I, body[pc], s) + fuel);
            var there := Run(MachineFor(I, L), L.code, L.offsets[NextPc(I, body, pc, s)],
                             NextVirtual(I, body, L, pc, v), fuel);
            here.halted == there.halted
            && Ends(Renamed(I, L.regs), here, value, memory) == Ends(Renamed(I, L.regs), there, value, memory)
  {
    var v' := StepsPlain(I, body, L, pc, s, v, fuel);
    EndsBefore(Renamed(I, L.regs), L.code[L.offsets[pc]],
               Run(MachineFor(I, L), L.code, L.offsets[pc + 1], v', fuel), value, memory);
  }

  lemma JumpEnds(I: Interpretation, body: seq<Node>, L: Layout, pc: nat, s: State, v: State, fuel: nat,
                     value: Option<int>, memory: map<int, int>)
    requires Ready(I, body, L, pc, s, v) && NextPc(I, body, pc, s) <= |body|
    requires body[pc].LabelNode? || body[pc].GotoNode?
    ensures var here := Run(MachineFor(I, L), L.code, L.offsets[pc], v, Cost(I, body[pc], s) + fuel);
            var there := Run(MachineFor(I, L), L.code, L.offsets[NextPc(I, body, pc, s)],
                             NextVirtual(I, body, L, pc, v), fuel);
            here.halted == there.halted
            && Ends(Renamed(I, L.regs), here, value, memory) == Ends(Renamed(I, L.regs), there, value, memory)
  {
    hide Aligned, Encodes, Ends, LandsOn, Run, CellsFit, Injective;
    var next := StepsJump(I, body, L, pc, s, v, fuel);
    assert next == NextPc(I, body, pc, s) && Cost(I, body[pc], s) == 1 && NextVirtual(I, body, L, pc, v) == v;
  }

  /** A step does not change how the rest of the run ends. */
  lemma StepEnds(I: Interpretation, body: seq<Node>, L: Layout, pc: nat, s: State, v: State, fuel: nat,
                 value: Option<int>, memory: map<int, int>)
    requires Ready(I, body, L, pc, s, v) && !(body[pc].BinaryNode? && body[pc].binary.Modulo?)
    requires NextPc(I, body, pc, s) <= |body|
    ensures var here := Run(MachineFor(I, L), L.code, L.offsets[pc], v, Cost(I, body[pc], s) + fuel);
            var there := Run(MachineFor(I, L), L.code, L.offsets[NextPc(I, body, pc, s)],
                             NextVirtual(I, body, L, pc, v), fuel);
            here.halted == there.halted
            && Ends(Renamed(I, L.regs), here, value, memory) == Ends(Renamed(I, L.regs), there, value, memory)
  {
    hide Run, Aligned, Encodes, Ends, VirtualEffect;
    StraightOr(body, L, pc);
    if Straight(body[pc]) {
      StraightEnds(I, body, L, pc, s, v, fuel, value, memory);
    } else if body[pc].AllocationNode? || body[pc].CompareNode? {
      StepsSilent(I, body, L, pc, s, v);
    } else if body[pc].BranchNode? {
      StepsBranch(I, body, L, pc, s, v, fuel);
    } else {
      JumpEnds(I, body, L, pc, s, v, fuel, value, memory);
    }
  }

  /** The code cannot halt before the step is done. */
  lemma StepNotHalted(I: Interpretation, body: seq<Node>, L: Layout, pc: nat, s: State, v: State, fuel: nat)
    requires Ready(I, body, L, pc, s, v) && fuel < Cost(I, body[pc], s)
    ensures !Run(MachineFor(I, L), L.code, L.offsets[pc], v, fuel).halted
  {
    if fuel == 1 {
      StepsBranch(I, body, L, pc, s, v, 0);
    }
  }

  lemma CostSplits(I: Interpretation, body: seq<Node>, L: Layout, pc: nat, s: State, v: State, fuel: nat)
    returns (rest: nat)
    requires Ready(I, body, L, pc, s, v) && Run(MachineFor(I, L), L.code, L.offsets[pc], v, fuel).halted
    ensures fuel == Cost(I, body[pc], s) + rest
  {
    rest := 0;
    if fuel < Cost(I, body[pc], s) {
      StepNotHalted(I, body, L, pc, s, v, fuel);
    } else {
      rest := fuel - Cost(I, body[pc], s);
    }
  }

  lemma StepDecreases(I: Interpretation, body: seq<Node>, pc: nat, s: State)
    requires pc < |body| && (body[pc].GotoNode? ==> HasName(body, body[pc].name))
    requires body[pc].BranchNode? ==> HasName(body, Chosen(I, body[pc], s))
    ensures Cost(I, body[pc], s) == 0 ==> NextPc(I, body, pc, s) == pc + 1
  {
  }

  ghost predicate NoModulo(body: seq<Node>) {
    forall i :: 0 <= i < |body| && body[i].BinaryNode? ==> !body[i].binary.Modulo?
  }

  lemma {:induction false} BodyThenCode(I: Interpretation, body: seq<Node>, L: Layout, pc: nat, s: State, v: State,
                                        k: nat, value: Option<int>, memory: map<int, int>)
    returns (fuel: nat)
    requires LaidOut(body, L) && CellsFit(I, L) && Aligned(I, body, L, pc, s, v) && NoModulo(body)
    requires Steps(I, body, Running(pc, s), k) == Halted(value, memory)
    ensures Ends(Renamed(I, L.regs), Run(MachineFor(I, L), L.code, L.offsets[pc], v, fuel), value, memory)
    decreases k
  {
    hide Matches, Ends, Run, Effect, VirtualEffect, Cost, DoesSame;
    if AtEnd(body, pc) {
      StepsReturn(I, body, L, pc, s, v, k, value, memory);
      fuel := 1;
    } else {
      IsReady(I, body, L, pc, s, v);
      StepAligned(I, body, L, pc, s, v);
      fuel := BodyThenCode(I, body, L, NextPc(I, body, pc, s), Effect(I, body[pc], s),
                           NextVirtual(I, body, L, pc, v), k - 1, value, memory);
      StepEnds(I, body, L, pc, s, v, fuel, value, memory);
      fuel := Cost(I, body[pc], s) + fuel;
    }
  }

  /** A translation that halts comes from a body that halts. */
  lemma {:induction false} CodeThenBody(I: Interpretation, body: seq<Node>, L: Layout, pc: nat, s: State, v: State,
                                        fuel: nat)
    returns (k: nat)
    requires LaidOut(body, L) && CellsFit(I, L) && Aligned(I, body, L, pc, s, v) && NoModulo(body)
    requires Run(MachineFor(I, L), L.code, L.offsets[pc], v, fuel).halted
    ensures Steps(I, body, Running(pc, s), k).Halted?
    decreases fuel, |body| - pc
  {
    hide Effect, VirtualEffect, Ends, LandsOn, CellsFit, NextVirtual, DoesSame;
    if AtEnd(body, pc) {
      k := 1;
      assert Steps(I, body, Running(pc, s), 1) == Steps(I, body, Step(I, body, Running(pc, s)), 0);
    } else {
      IsReady(I, body, L, pc, s, v);
      StepAligned(I, body, L, pc, s, v);
      var rest := CostSplits(I, body, L, pc, s, v, fuel);
      StepEnds(I, body, L, pc, s, v, rest, None, map[]);
      StepDecreases(I, body, pc, s);
      k := CodeThenBody(I, body, L, NextPc(I, body, pc, s), Effect(I, body[pc], s),
                        NextVirtual(I, body, L, pc, v), rest);
      k := k + 1;
    }
  }

  /** A halted run stays as it is with more fuel. */
  lemma {:induction false} RunHaltsLater(m: Machine, code: seq<VirtualInstruction>, pc: nat, v: State, fuel: nat,
                                         more: nat)
    requires Run(m, code, pc, v, fuel).halted
    ensures Run(m, code, pc, v, fuel + more) == Run(m, code, pc, v, fuel)
    decreases fuel
  {
    if pc < |code| {
      match code[pc]
      case Label(_) => RunHaltsLater(m, code, pc + 1, v, fuel - 1, more);
      case UnconditionalJump(id) => RunHaltsLater(m, code, Target(code, id, pc), v, fuel - 1, more);
      case CompareAndJump(lhs, rhs, cc, id) =>
        RunHaltsLater(m, code, if m.holds(cc, lhs, rhs, v) then Target(code, id, pc) else pc + 1, v, fuel - 1, more);
      case Return(_) =>
      case Plain(_, _) => RunHaltsLater(m, code, pc + 1, m.exec(code[pc], v), fuel - 1, more);
    }
  }
}
