/** The virtual instruction list: its instructions, what it means to run it, and when two lists
    behave alike.

    Every instruction other than a label or a jump is a black box here. A `Machine` says what
    such an instruction does to the state and when a condition code holds of two registers, and
    every statement about behaviour ranges over all machines. */
module VirtualCode {

  datatype ConditionCode =
    | Equal | NotEqual
    | Less | LessEqual | Greater | GreaterEqual
    | Below | BelowEqual | Above | AboveEqual

  datatype Opcode =
    | Copy | CopyInteger
    | Add | Sub | Multiplication | Division
    | LeftShift | RightShift
    | BinaryOr | BinaryAnd | BinaryXor | BitwiseNot | ArithmeticNegate
    | Reinterpret | ZeroExtension | SignExtension
    | SignExtendAndReinterpret | ZeroExtendAndReinterpret | Truncate
    | Call | CallWithResult | CopyParameter | PassArgument
    | AddressOf | LoadStringAddress | ZeroMemory | CopyFromData
    | Indirection | IndirectStore

  datatype VirtualInstruction =
    | Label(id: nat)
    | UnconditionalJump(id: nat)
    | CompareAndJump(lhs: nat, rhs: nat, cc: ConditionCode, id: nat)
    | Return(operands: seq<nat>)
    | Plain(opcode: Opcode, operands: seq<nat>)
  {
    predicate IsJump() {
      UnconditionalJump? || CompareAndJump?
    }
  }

  /** Registers by virtual index, and memory cells by address. */
  datatype State = State(registers: map<nat, int>, memory: map<int, int>)

  datatype Machine = Machine(
    exec: (VirtualInstruction, State) -> State,
    holds: (ConditionCode, nat, nat, State) -> bool)

  /** What can be seen of a run: the instructions executed other than labels and jumps, the
      state they lead to, and whether the run is over. */
  datatype Observation = Observation(trace: seq<VirtualInstruction>, state: State, halted: bool)

  function Before(i: VirtualInstruction, o: Observation): Observation {
    o.(trace := [i] + o.trace)
  }

  // ----- labels -----

  /** ParseLabelNode never places one label twice. */
  ghost predicate UniqueLabels(code: seq<VirtualInstruction>) {
    forall i, j :: 0 <= i < j < |code| && code[i].Label? && code[j].Label? ==> code[i].id != code[j].id
  }

  predicate HasLabel(code: seq<VirtualInstruction>, id: nat) {
    Label(id) in code
  }

  ghost function Position(code: seq<VirtualInstruction>, id: nat): (i: nat)
    requires HasLabel(code, id)
    ensures i < |code| && code[i] == Label(id)
  {
    var i :| 0 <= i < |code| && code[i] == Label(id);
    i
  }

  lemma PositionUnique(code: seq<VirtualInstruction>, i: nat)
    requires UniqueLabels(code) && i < |code| && code[i].Label?
    ensures HasLabel(code, code[i].id) && Position(code, code[i].id) == i
  {
    assert code[i] == Label(code[i].id);
  }

  /** Where a jump at `pc` goes. A jump to a label that is nowhere placed does nothing: the
      missing label has been diagnosed, and the clean-up deletes the jump. */
  ghost function Target(code: seq<VirtualInstruction>, id: nat, pc: nat): nat {
    if HasLabel(code, id) then Position(code, id) else pc + 1
  }

  // ----- running -----

  ghost function Run(m: Machine, code: seq<VirtualInstruction>, pc: nat, s: State, fuel: nat): Observation
    decreases fuel
  {
    if fuel == 0 then Observation([], s, false)
    else if pc >= |code| then Observation([], s, true)
    else
      match code[pc]
      case Label(_) => Run(m, code, pc + 1, s, fuel - 1)
      case UnconditionalJump(id) => Run(m, code, Target(code, id, pc), s, fuel - 1)
      case CompareAndJump(lhs, rhs, cc, id) =>
        Run(m, code, if m.holds(cc, lhs, rhs, s) then Target(code, id, pc) else pc + 1, s, fuel - 1)
      case Return(_) => Observation([code[pc]], m.exec(code[pc], s), true)
      case Plain(_, _) => Before(code[pc], Run(m, code, pc + 1, m.exec(code[pc], s), fuel - 1))
  }

  ghost predicate Reaches(m: Machine, code: seq<VirtualInstruction>, s: State, o: Observation) {
    exists fuel: nat :: Run(m, code, 0, s, fuel) == o
  }

  /** The same observations, on every machine and from every state. Observations that are not
      halted are included, so the two lists also diverge together, after the same instructions. */
  ghost predicate SameBehaviour(p: seq<VirtualInstruction>, q: seq<VirtualInstruction>) {
    forall m: Machine, s: State, o: Observation :: Reaches(m, p, s, o) <==> Reaches(m, q, s, o)
  }

  // ----- stretches of labels and unconditional jumps -----

  /** From `pc`, exactly `k` labels and unconditional jumps lead to `dest`. */
  ghost predicate Skips(code: seq<VirtualInstruction>, pc: nat, k: nat, dest: nat)
    decreases k
  {
    if k == 0 then pc == dest
    else
      pc < |code|
      && match code[pc]
         case Label(_) => Skips(code, pc + 1, k - 1, dest)
         case UnconditionalJump(id) => Skips(code, Target(code, id, pc), k - 1, dest)
         case _ => false
  }

  lemma {:induction false} SkipsCompose(code: seq<VirtualInstruction>, a: nat, j: nat, b: nat, k: nat, c: nat)
    requires Skips(code, a, j, b) && Skips(code, b, k, c)
    ensures Skips(code, a, j + k, c)
    decreases j
  {
    if j > 0 {
      var next := if code[a].Label? then a + 1 else Target(code, code[a].id, a);
      SkipsCompose(code, next, j - 1, b, k, c);
    }
  }

  lemma {:induction false} SkipsOverLabels(code: seq<VirtualInstruction>, from: nat, dest: nat)
    requires from <= dest <= |code| && forall k :: from <= k < dest ==> code[k].Label?
    ensures Skips(code, from, dest - from, dest)
    decreases dest - from
  {
    if from < dest {
      SkipsOverLabels(code, from + 1, dest);
    }
  }

  /** A skip is invisible: what is left of the fuel is spent where it leads. */
  lemma {:induction false} RunSkips(m: Machine, code: seq<VirtualInstruction>, pc: nat, k: nat, dest: nat, s: State,
                                    fuel: nat)
    requires Skips(code, pc, k, dest)
    ensures Run(m, code, pc, s, fuel)
         == if fuel <= k then Observation([], s, false) else Run(m, code, dest, s, fuel - k)
    decreases k
  {
    if k > 0 && fuel > 0 {
      var next := if code[pc].Label? then pc + 1 else Target(code, code[pc].id, pc);
      RunSkips(m, code, next, k - 1, dest, s, fuel - 1);
    }
  }
}
