/** Typed expression trees, what they mean from left to right, and the nodes they are lowered to. */
module Expressions {
  import opened Options
  import opened VirtualCode
  import opened Ssa

  datatype Type =
    | Integral(signed: bool, size: nat)
    | Pointer(width: nat)
  {
    function Width(): nat {
      if Integral? then size else width
    }
  }

  datatype Expression =
    | Missing
    | Unsupported(type_: Type)
    | Literal(value: nat, type_: Type)
    | LoadVariable(name: string, type_: Type)
    | Variable(name: string, type_: Type)
    | Binary(binary: BinaryOperator, left: Expression, right: Expression, type_: Type)
    | Unary(unary: UnaryOperator, operand: Expression, type_: Type)
    | Convert(operand: Expression, type_: Type)
    | PointerConversion(operand: Expression, type_: Type)
    | AddressOf(operand: Expression, type_: Type)
    | Dereference(operand: Expression, type_: Type)
    | Compare(comparison: Comparison, left: Expression, right: Expression, type_: Type)
    | Compound(binary: BinaryOperator, left: Expression, right: Expression, type_: Type)
    | Assign(left: Expression, right: Expression, type_: Type)
    | PostStep(decrement: bool, operand: Expression, step: nat, type_: Type)
  {
    function TypeOf(): Type {
      if Missing? then Pointer(0) else type_
    }

    function Width(): nat {
      TypeOf().Width()
    }
  }

  /** The conversion that the sizes and signs of two integer types call for. */
  function ConversionBetween(source: Type, target: Type): Conversion
    requires source.Integral? && target.Integral?
  {
    if target.size == source.size then ToReinterpret
    else if target.size < source.size then ToTruncate
    else if source.signed == target.signed then
      if target.signed then ToSignExtension else ToZeroExtension
    else if target.signed then ToSignExtendAndReinterpret
    else ToZeroExtendAndReinterpret
  }

  predicate Convertible(operand: Expression, target: Type) {
    operand.TypeOf().Integral? && target.Integral?
  }

  // ----- meaning -----

  type Memory = map<int, int>

  /** What evaluating an expression gives: a value, or an object in memory. */
  datatype Outcome = Value(value: int) | Object(address: int)
  {
    function Rvalue(m: Memory): int {
      if Value? then value else Get(m, address)
    }

    function Address(): int {
      if Object? then address else 0
    }
  }

  function StepOperator(decrement: bool): BinaryOperator {
    if decrement then Subtraction else Addition
  }

  /** Left to right. Assignments and compound assignments designate the object they stored to. */
  function Evaluate(I: Interpretation, env: map<string, int>, e: Expression, m: Memory): (Outcome, Memory)
    decreases e, 0
  {
    match e
    case Missing => (Value(0), m)
    case Unsupported(_) => (Value(0), m)
    case Literal(value, _) => (Value(value), m)
    case LoadVariable(name, _) => (Value(Get(m, Get(env, name))), m)
    case Variable(name, _) => (Object(Get(env, name)), m)
    case Binary(op, left, right, _) =>
      var (a, m1) := Rvalue(I, env, left, m);
      var (b, m2) := Rvalue(I, env, right, m1);
      (Value(I.binary(op, a, b)), m2)
    case Unary(op, operand, _) =>
      var (a, m1) := Rvalue(I, env, operand, m);
      (Value(I.unary(op, a)), m1)
    case Convert(operand, target) =>
      var (a, m1) := Rvalue(I, env, operand, m);
      (Value(if Convertible(operand, target) then I.convert(ConversionBetween(operand.TypeOf(), target), a) else a), m1)
    case PointerConversion(operand, _) =>
      var (a, m1) := Rvalue(I, env, operand, m);
      (Value(a), m1)
    case AddressOf(operand, _) =>
      var (o, m1) := Evaluate(I, env, operand, m);
      (Value(o.Address()), m1)
    case Dereference(operand, _) =>
      var (a, m1) := Rvalue(I, env, operand, m);
      (Object(a), m1)
    case Compare(c, left, right, _) =>
      var (a, m1) := Rvalue(I, env, left, m);
      var (b, m2) := Rvalue(I, env, right, m1);
      (Value(if I.Compares(c, a, b) then 1 else 0), m2)
    case Compound(op, left, right, _) =>
      var (o, m1) := Evaluate(I, env, left, m);
      var (b, m2) := Rvalue(I, env, right, m1);
      (o, m2[o.Address() := I.binary(op, Get(m2, o.Address()), b)])
    case Assign(left, right, _) =>
      var (o, m1) := Evaluate(I, env, left, m);
      var (b, m2) := Rvalue(I, env, right, m1);
      (o, m2[o.Address() := b])
    case PostStep(decrement, operand, step, _) =>
      var (o, m1) := Evaluate(I, env, operand, m);
      var before := Get(m1, o.Address());
      (Value(before), m1[o.Address() := I.binary(StepOperator(decrement), before, step)])
  }

  function Rvalue(I: Interpretation, env: map<string, int>, e: Expression, m: Memory): (int, Memory)
    decreases e, 1
  {
    var (o, m1) := Evaluate(I, env, e, m);
    (o.Rvalue(m1), m1)
  }

  // ----- lowering -----

  /** The nodes one lowering appends, the next free register, the register of the result if there
      is one, and how many diagnostics were reported. */
  datatype Lowered = Lowered(nodes: seq<Node>, next: nat, result: Option<nat>, diagnostics: nat)
  {
    function Then(node: Node, result_: Option<nat>): Lowered {
      Lowered(nodes + [node], next, result_, diagnostics)
    }

    /** A node that computes a new register. */
    function Into(node: Node): Lowered {
      Lowered(nodes + [node], next + 1, Some(next), diagnostics)
    }

    function After(earlier: Lowered): Lowered {
      Lowered(earlier.nodes + nodes, next, result, earlier.diagnostics + diagnostics)
    }

    function Failed(): Lowered {
      this.(result := None)
    }
  }

  predicate NeedsLoad(e: Expression) {
    e.Variable? || e.Assign?
  }

  function Loaded(names: map<string, nat>, e: Expression, next: nat): (l: Lowered)
    ensures next <= l.next
    decreases e, 1
  {
    var l := Lower(names, e, next);
    if !NeedsLoad(e) || l.result.None? then l
    else l.Into(LoadNode(Register(l.next, e.Width()), l.result.value))
  }

  function Slot(names: map<string, nat>, e: Expression, next: nat): (slot: Lowered)
    ensures next <= slot.next
    decreases e, 1
  {
    if e.Dereference? then Loaded(names, e.operand, next) else Lower(names, e, next)
  }

  function SlotRead(e: Expression, register: Register, slot: nat): Node {
    if e.Dereference? then DerefNode(register, slot) else LoadNode(register, slot)
  }

  function SlotWrite(e: Expression, slot: nat, source: nat): Node {
    if e.Dereference? then IndirectStoreNode(slot, source) else StoreNode(slot, source)
  }

  function Lower(names: map<string, nat>, e: Expression, next: nat): (l: Lowered)
    ensures next <= l.next
    decreases e, 0
  {
    var nothing := Lowered([], next, None, 0);
    match e
    case Missing => nothing
    case Unsupported(_) => nothing.(diagnostics := 1)
    case Literal(value, _) => nothing.Into(ImmediateNode(Register(next, e.Width()), value))
    case LoadVariable(name, _) =>
      if name !in names then nothing.(diagnostics := 1)
      else nothing.Into(LoadNode(Register(next, e.Width()), names[name]))
    case Variable(name, _) =>
      if name !in names then nothing.(diagnostics := 1) else nothing.(result := Some(names[name]))
    case Binary(op, left, right, _) =>
      var a := Loaded(names, left, next);
      var b := Loaded(names, right, a.next).After(a);
      if a.result.None? || b.result.None? then b.Failed()
      else b.Into(BinaryNode(op, Register(b.next, e.Width()), a.result.value, b.result.value))
    case Unary(op, operand, _) =>
      var a := Loaded(names, operand, next);
      if a.result.None? then a else a.Into(UnaryNode(op, Register(a.next, e.Width()), a.result.value))
    case Convert(operand, target) =>
      var a := Loaded(names, operand, next);
      if a.result.None? || !Convertible(operand, target) then a.Failed()
      else a.Into(ConvertNode(ConversionBetween(operand.TypeOf(), target), Register(a.next, e.Width()), a.result.value))
    case PointerConversion(operand, target) =>
      if target == operand.TypeOf() then Loaded(names, operand, next)
      else
        var a := Lower(names, operand, next);
        if a.result.None? then a else a.Into(PointerConvertNode(Register(a.next, e.Width()), a.result.value))
    case AddressOf(operand, _) =>
      if operand.Missing? then nothing
      else if operand.Dereference? then Loaded(names, operand.operand, next)
      else if !operand.Variable? then nothing.(diagnostics := 1)
      else
        var a := Lower(names, operand, next);
        if a.result.None? then a else a.Into(AddressOfNode(Register(a.next, e.Width()), a.result.value))
    case Dereference(operand, _) =>
      var a := Loaded(names, operand, next);
      if a.result.None? then a else a.Into(DerefNode(Register(a.next, e.Width()), a.result.value))
    case Compare(c, left, right, _) =>
      var a := Loaded(names, left, next);
      var b := Loaded(names, right, a.next).After(a);
      if a.result.None? || b.result.None? then b.Failed()
      else b.Into(CompareNode(c, Register(b.next, e.Width()), a.result.value, b.result.value))
    case Compound(op, left, right, _) =>
      var slot := Slot(names, left, next);
      var b := Loaded(names, right, slot.next).After(slot);
      if slot.result.None? || b.result.None? then b.Failed()
      else Updated(e, slot.result.value, b, op, b.result.value)
    case Assign(left, right, _) =>
      var slot := Slot(names, left, next);
      var b := Loaded(names, right, slot.next).After(slot);
      if slot.result.None? || b.result.None? then b.Failed()
      else b.Then(SlotWrite(left, slot.result.value, b.result.value),
                  if left.Dereference? then b.result else slot.result)
    case PostStep(decrement, operand, step, _) =>
      var slot := Slot(names, operand, next);
      if slot.result.None? then slot
      else Stepped(e, slot.result.value, slot)
  }

  /** Read the slot, apply the operator, write the slot; the result is the new value. */
  function Updated(e: Expression, slot: nat, before: Lowered, op: BinaryOperator, operand: nat): (l: Lowered)
    requires e.Compound?
    ensures l.next == before.next + 2
  {
    var read := before.Into(SlotRead(e.left, Register(before.next, e.left.Width()), slot));
    var computed := read.Into(BinaryNode(op, Register(read.next, e.Width()), before.next, operand));
    computed.Then(SlotWrite(e.left, slot, read.next), computed.result)
  }

  /** Read the slot, add or subtract the step, write the slot; the result is the old value. */
  function Stepped(e: Expression, slot: nat, before: Lowered): (l: Lowered)
    requires e.PostStep?
    ensures l.next == before.next + 3
  {
    var read := before.Into(SlotRead(e.operand, Register(before.next, e.operand.Width()), slot));
    var one := read.Into(ImmediateNode(Register(read.next, e.Width()), e.step));
    var computed := one.Into(BinaryNode(StepOperator(e.decrement), Register(one.next, e.Width()), before.next, read.next));
    computed.Then(SlotWrite(e.operand, slot, one.next), Some(before.next))
  }
}
