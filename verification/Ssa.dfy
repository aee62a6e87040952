/** The SSA nodes of a routine body, and what it means to run a body.

    Registers that an AllocationNode introduces are cells in memory with an address; every other
    register is a temporary. Arithmetic, conversions and incoming arguments are whatever an
    `Interpretation` says, and every statement about behaviour ranges over all of them. */
module Ssa {
  import opened Options
  import opened VirtualCode

  datatype Register = Register(index: nat, width: nat)

  datatype BinaryOperator =
    | Addition | Subtraction | Times | Divide | Modulo | ShiftLeft | ShiftRight | Or | And | Xor

  datatype UnaryOperator = Complement | Negation

  datatype Conversion =
    | ToReinterpret | ToZeroExtension | ToSignExtension
    | ToSignExtendAndReinterpret | ToZeroExtendAndReinterpret | ToTruncate

  datatype Comparison =
    | IsEqual | IsNotEqual
    | SignedLess | SignedLessEqual | SignedGreater | SignedGreaterEqual
    | UnsignedLess | UnsignedLessEqual | UnsignedGreater | UnsignedGreaterEqual

  datatype Node =
    | AllocationNode(register: Register)
    | ParameterNode(scope: nat, register: Register, index: nat)
    | ImmediateNode(result: Register, value: nat)
    | BinaryNode(binary: BinaryOperator, result: Register, left: nat, right: nat)
    | UnaryNode(unary: UnaryOperator, result: Register, operand: nat)
    | ConvertNode(conversion: Conversion, result: Register, operand: nat)
    | PointerConvertNode(result: Register, operand: nat)
    | DecayNode(result: Register, operand: nat)
    | LoadNode(result: Register, operand: nat)
    | DerefNode(result: Register, operand: nat)
    | AddressOfNode(result: Register, operand: nat)
    | StoreNode(target: nat, source: nat)
    | StoreIntegerNode(target: nat, value: nat)
    | IndirectStoreNode(target: nat, source: nat)
    | CallNode(callResult: Option<Register>, callee: nat, arguments: seq<nat>)
    | CompareNode(comparison: Comparison, result: Register, left: nat, right: nat)
    | BranchNode(condition: nat, trueLabel: string, falseLabel: string)
    | LabelNode(name: string)
    | GotoNode(name: string)
    | ReturnNode(returned: Option<nat>)

  datatype Interpretation = Interpretation(
    binary: (BinaryOperator, int, int) -> int,
    unary: (UnaryOperator, int) -> int,
    convert: (Conversion, int) -> int,
    signed: int -> int,
    unsigned: int -> int,
    argument: nat -> int,
    cells: map<nat, int>)
  {
    function Compares(c: Comparison, a: int, b: int): bool {
      match c
      case IsEqual => a == b
      case IsNotEqual => a != b
      case SignedLess => signed(a) < signed(b)
      case SignedLessEqual => signed(a) <= signed(b)
      case SignedGreater => signed(a) > signed(b)
      case SignedGreaterEqual => signed(a) >= signed(b)
      case UnsignedLess => unsigned(a) < unsigned(b)
      case UnsignedLessEqual => unsigned(a) <= unsigned(b)
      case UnsignedGreater => unsigned(a) > unsigned(b)
      case UnsignedGreaterEqual => unsigned(a) >= unsigned(b)
    }
  }

  function Get<K>(m: map<K, int>, k: K): int {
    if k in m then m[k] else 0
  }

  function Read(I: Interpretation, s: State, r: nat): int {
    if r in I.cells then Get(s.memory, I.cells[r]) else Get(s.registers, r)
  }

  function Write(I: Interpretation, s: State, r: nat, v: int): State {
    if r in I.cells then s.(memory := s.memory[I.cells[r] := v]) else s.(registers := s.registers[r := v])
  }

  /** What a node other than a call or a transfer of control does. */
  function Effect(I: Interpretation, node: Node, s: State): State {
    match node
    case AllocationNode(_) => s
    case ParameterNode(_, register, index) => Write(I, s, register.index, I.argument(index))
    case ImmediateNode(result, value) => Write(I, s, result.index, value)
    case BinaryNode(op, result, left, right) =>
      Write(I, s, result.index, I.binary(op, Read(I, s, left), Read(I, s, right)))
    case UnaryNode(op, result, operand) => Write(I, s, result.index, I.unary(op, Read(I, s, operand)))
    case ConvertNode(c, result, operand) => Write(I, s, result.index, I.convert(c, Read(I, s, operand)))
    case PointerConvertNode(result, operand) => Write(I, s, result.index, Read(I, s, operand))
    case DecayNode(result, operand) => Write(I, s, result.index, Get(I.cells, operand))
    case LoadNode(result, operand) => Write(I, s, result.index, Read(I, s, operand))
    case DerefNode(result, operand) => Write(I, s, result.index, Get(s.memory, Read(I, s, operand)))
    case AddressOfNode(result, operand) => Write(I, s, result.index, Get(I.cells, operand))
    case StoreNode(target, source) => Write(I, s, target, Read(I, s, source))
    case StoreIntegerNode(target, value) => Write(I, s, target, value)
    case IndirectStoreNode(target, source) =>
      s.(memory := s.memory[Read(I, s, target) := Read(I, s, source)])
    case CompareNode(c, result, left, right) =>
      Write(I, s, result.index, if I.Compares(c, Read(I, s, left), Read(I, s, right)) then 1 else 0)
    case _ => s
  }

  predicate IsTransfer(node: Node) {
    node.BranchNode? || node.GotoNode? || node.ReturnNode?
  }

  function Effects(I: Interpretation, nodes: seq<Node>, s: State): State {
    if nodes == [] then s else Effects(I, nodes[1..], Effect(I, nodes[0], s))
  }

  lemma {:induction false} EffectsConcat(I: Interpretation, a: seq<Node>, b: seq<Node>, s: State)
    ensures Effects(I, a + b, s) == Effects(I, b, Effects(I, a, s))
    decreases |a|
  {
    if a == [] {
      assert a + b == b;
    } else {
      assert (a + b)[1..] == a[1..] + b;
      EffectsConcat(I, a[1..], b, Effect(I, a[0], s));
    }
  }

  // ----- running a body -----

  datatype Configuration = Running(pc: nat, state: State) | Halted(value: Option<int>, memory: map<int, int>)

  ghost predicate UniqueNames(body: seq<Node>) {
    forall i, j :: 0 <= i < j < |body| && body[i].LabelNode? && body[j].LabelNode? ==> body[i].name != body[j].name
  }

  predicate HasName(body: seq<Node>, name: string) {
    LabelNode(name) in body
  }

  ghost function Place(body: seq<Node>, name: string): (i: nat)
    requires HasName(body, name)
    ensures i < |body| && body[i] == LabelNode(name)
  {
    var i :| 0 <= i < |body| && body[i] == LabelNode(name);
    i
  }

  lemma PlaceUnique(body: seq<Node>, i: nat)
    requires UniqueNames(body) && i < |body| && body[i].LabelNode?
    ensures HasName(body, body[i].name) && Place(body, body[i].name) == i
  {
    assert body[i] == LabelNode(body[i].name);
  }

  /** As with virtual code, a transfer to a label that is not placed does nothing. */
  ghost function Destination(body: seq<Node>, name: string, pc: nat): nat {
    if HasName(body, name) then Place(body, name) else pc + 1
  }

  ghost function Step(I: Interpretation, body: seq<Node>, c: Configuration): Configuration {
    match c
    case Halted(_, _) => c
    case Running(pc, s) =>
      if pc >= |body| then Halted(None, s.memory)
      else
        match body[pc]
        case GotoNode(name) => Running(Destination(body, name, pc), s)
        case BranchNode(condition, trueLabel, falseLabel) =>
          Running(Destination(body, if Read(I, s, condition) != 0 then trueLabel else falseLabel, pc), s)
        case ReturnNode(returned) =>
          Halted(if returned.Some? then Some(Read(I, s, returned.value)) else None, s.memory)
        case node => Running(pc + 1, Effect(I, node, s))
  }

  ghost function Steps(I: Interpretation, body: seq<Node>, c: Configuration, k: nat): Configuration
    decreases k
  {
    if k == 0 then c else Steps(I, body, Step(I, body, c), k - 1)
  }

  lemma {:induction false} StepsCompose(I: Interpretation, body: seq<Node>, c: Configuration, j: nat, k: nat)
    ensures Steps(I, body, c, j + k) == Steps(I, body, Steps(I, body, c, j), k)
    decreases j
  {
    if j > 0 {
      StepsCompose(I, body, Step(I, body, c), j - 1, k);
    }
  }

  lemma {:induction false} StepsHalted(I: Interpretation, body: seq<Node>, c: Configuration, k: nat)
    requires c.Halted?
    ensures Steps(I, body, c, k) == c
    decreases k
  {
    if k > 0 {
      StepsHalted(I, body, c, k - 1);
    }
  }

  /** Running a stretch without transfers of control applies its effects in order. */
  lemma {:induction false} StepsStraight(I: Interpretation, body: seq<Node>, pc: nat, nodes: seq<Node>, s: State)
    requires pc + |nodes| <= |body| && body[pc..pc + |nodes|] == nodes
    requires forall i :: 0 <= i < |nodes| ==> !IsTransfer(nodes[i])
    ensures Steps(I, body, Running(pc, s), |nodes|) == Running(pc + |nodes|, Effects(I, nodes, s))
    decreases |nodes|
  {
    if nodes != [] {
      assert body[pc] == nodes[0];
      assert body[pc + 1..pc + 1 + |nodes[1..]|] == nodes[1..];
      StepsStraight(I, body, pc + 1, nodes[1..], Effect(I, nodes[0], s));
    }
  }
}
