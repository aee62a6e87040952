/** Lowered expressions compute what the expression means, and leave everything else alone. */
module ExpressionLowering {
  import opened Options
  import opened VirtualCode
  import opened Ssa
  import opened Expressions

  /** An expression whose lowering is the register of an object, not of a value. */
  predicate Direct(e: Expression) {
    e.Variable? || (e.Assign? && Direct(e.left))
  }

  /** What an assignment is lowered to store to: objects in registers, and dereferences. */
  predicate Assignable(e: Expression) {
    Direct(e) || e.Dereference?
  }

  predicate Resolved(names: set<string>, e: Expression) {
    match e
    case Missing => false
    case Unsupported(_) => false
    case Literal(_, _) => true
    case LoadVariable(name, _) => name in names
    case Variable(name, _) => name in names
    case Binary(_, left, right, _) => Resolved(names, left) && Resolved(names, right)
    case Unary(_, operand, _) => Resolved(names, operand)
    case Convert(operand, target) => Resolved(names, operand) && operand.TypeOf().Integral? && target.Integral?
    case PointerConversion(operand, _) => Resolved(names, operand)
    case AddressOf(operand, _) => (operand.Variable? || operand.Dereference?) && Resolved(names, operand)
    case Dereference(operand, _) => Resolved(names, operand)
    case Compare(_, left, right, _) => Resolved(names, left) && Resolved(names, right)
    case Compound(_, left, right, _) => Resolved(names, left) && Resolved(names, right)
    case Assign(left, right, _) => Resolved(names, left) && Resolved(names, right)
    case PostStep(_, operand, _, _) => Resolved(names, operand)
  }

  /** The outcome of a lowering: it succeeds if and only if `ok`, and then reports nothing. */
  predicate Succeeds(l: Lowered, ok: bool) {
    (l.result.Some? <==> ok) && (ok ==> l.diagnostics == 0)
  }

  lemma TwoResolved(names: map<string, nat>, e: Expression, next: nat)
    requires e.Binary? || e.Compare?
    requires Succeeds(Loaded(names, e.left, next), Resolved(names.Keys, e.left))
    requires Succeeds(Loaded(names, e.right, Loaded(names, e.left, next).next), Resolved(names.Keys, e.right))
    ensures Succeeds(Lower(names, e, next), Resolved(names.Keys, e))
  {
  }

  lemma AssignmentResolved(names: map<string, nat>, e: Expression, next: nat)
    requires e.Compound? || e.Assign?
    requires Succeeds(Slot(names, e.left, next), Resolved(names.Keys, e.left))
    requires Succeeds(Loaded(names, e.right, Slot(names, e.left, next).next), Resolved(names.Keys, e.right))
    ensures Succeeds(Lower(names, e, next), Resolved(names.Keys, e))
  {
  }

  lemma LoadedResolved(names: map<string, nat>, e: Expression, next: nat)
    requires Succeeds(Lower(names, e, next), Resolved(names.Keys, e))
    ensures Succeeds(Loaded(names, e, next), Resolved(names.Keys, e))
  {
  }

  /** Lowering fails exactly on unresolved names, missing or unsupported parts, conversions between
      types that are not integers, and addresses of anything but variables and dereferences; what
      succeeds reports nothing. */
  lemma {:induction false} LowersIfResolved(names: map<string, nat>, e: Expression, next: nat)
    ensures Succeeds(Lower(names, e, next), Resolved(names.Keys, e))
    ensures Succeeds(Loaded(names, e, next), Resolved(names.Keys, e))
    decreases e, 0
  {
    if e.Binary? || e.Compare? {
      LowersIfResolved(names, e.left, next);
      LowersIfResolved(names, e.right, Loaded(names, e.left, next).next);
      TwoResolved(names, e, next);
    } else if e.Compound? || e.Assign? {
      SlotResolved(names, e.left, next);
      LowersIfResolved(names, e.right, Slot(names, e.left, next).next);
      AssignmentResolved(names, e, next);
    } else if e.PostStep? {
      SlotResolved(names, e.operand, next);
    } else if e.AddressOf? && e.operand.Dereference? {
      LowersIfResolved(names, e.operand.operand, next);
    } else if e.Unary? || e.Convert? || e.PointerConversion? || e.AddressOf? || e.Dereference? {
      LowersIfResolved(names, e.operand, next);
    }
    LoadedResolved(names, e, next);
  }

  lemma {:induction false} SlotResolved(names: map<string, nat>, e: Expression, next: nat)
    ensures Succeeds(Slot(names, e, next), Resolved(names.Keys, e))
    decreases e, 1
  {
    if e.Dereference? {
      LowersIfResolved(names, e.operand, next);
    } else {
      LowersIfResolved(names, e, next);
    }
  }

  /** Nothing is missing, and conversions are between integers: what fails then is reported. */
  predicate Spoken(e: Expression) {
    match e
    case Missing => false
    case Binary(_, left, right, _) => Spoken(left) && Spoken(right)
    case Unary(_, operand, _) => Spoken(operand)
    case Convert(operand, target) => Spoken(operand) && operand.TypeOf().Integral? && target.Integral?
    case PointerConversion(operand, _) => Spoken(operand)
    case AddressOf(operand, _) => Spoken(operand)
    case Dereference(operand, _) => Spoken(operand)
    case Compare(_, left, right, _) => Spoken(left) && Spoken(right)
    case Compound(_, left, right, _) => Spoken(left) && Spoken(right)
    case Assign(left, right, _) => Spoken(left) && Spoken(right)
    case PostStep(_, operand, _, _) => Spoken(operand)
    case _ => true
  }

  /** An expression with an unknown name or an unsupported part is reported, whatever surrounds that part. */
  lemma {:induction false} FailuresAreReported(names: map<string, nat>, e: Expression, next: nat)
    requires Spoken(e) && !Resolved(names.Keys, e)
    ensures Lower(names, e, next).diagnostics > 0 && Lower(names, e, next).result.None?
    ensures Loaded(names, e, next).diagnostics > 0 && Loaded(names, e, next).result.None?
    decreases e, 0
  {
    LowersIfResolved(names, e, next);
    if e.Binary? || e.Compare? {
      if Resolved(names.Keys, e.left) {
        FailuresAreReported(names, e.right, Loaded(names, e.left, next).next);
      } else {
        FailuresAreReported(names, e.left, next);
      }
    } else if e.Compound? || e.Assign? {
      if Resolved(names.Keys, e.left) {
        FailuresAreReported(names, e.right, Slot(names, e.left, next).next);
      } else {
        SlotFailureIsReported(names, e.left, next);
      }
    } else if e.PostStep? {
      SlotFailureIsReported(names, e.operand, next);
    } else if e.AddressOf? && e.operand.Dereference? {
      FailuresAreReported(names, e.operand.operand, next);
    } else if e.Unary? || e.Convert? || e.PointerConversion? || e.Dereference? || (e.AddressOf? && e.operand.Variable?) {
      FailuresAreReported(names, e.operand, next);
    }
  }

  lemma {:induction false} SlotFailureIsReported(names: map<string, nat>, e: Expression, next: nat)
    requires Spoken(e) && !Resolved(names.Keys, e)
    ensures Slot(names, e, next).diagnostics > 0
    decreases e, 1
  {
    if e.Dereference? {
      FailuresAreReported(names, e.operand, next);
    } else {
      FailuresAreReported(names, e, next);
    }
  }

  // ----- what the nodes compute -----

  /** Everything that is stored to is a place, all the way down. */
  predicate Sound(e: Expression) {
    match e
    case Binary(_, left, right, _) => Sound(left) && Sound(right)
    case Unary(_, operand, _) => Sound(operand)
    case Convert(operand, _) => Sound(operand)
    case PointerConversion(operand, _) => Sound(operand)
    case AddressOf(operand, _) => Sound(operand)
    case Dereference(operand, _) => Sound(operand)
    case Compare(_, left, right, _) => Sound(left) && Sound(right)
    case Compound(_, left, right, _) => Assignable(left) && Sound(left) && Sound(right)
    case Assign(left, right, _) => Assignable(left) && Sound(left) && Sound(right)
    case PostStep(_, operand, _, _) => Assignable(operand) && Sound(operand)
    case _ => true
  }

  function ValueOf(I: Interpretation, env: map<string, int>, e: Expression, m: Memory): int {
    var (o, m1) := Evaluate(I, env, e, m);
    o.Rvalue(m1)
  }

  /** Variables live in cells. */
  ghost predicate Environment(I: Interpretation, names: map<string, nat>, env: map<string, int>, next: nat) {
    forall name :: name in names ==>
      names[name] < next && name in env && names[name] in I.cells && I.cells[names[name]] == env[name]
  }

  /** No register from `next` up to `limit` is a cell. */
  ghost predicate Clear(I: Interpretation, next: nat, limit: nat) {
    forall r :: r in I.cells ==> r < next || limit <= r
  }

  /** Temporaries below `next` keep their values. */
  ghost predicate Preserves(I: Interpretation, next: nat, s: State, t: State) {
    forall r :: r < next && r !in I.cells ==> Get(t.registers, r) == Get(s.registers, r)
  }

  /** A temporary holds a value. */
  predicate Holds(I: Interpretation, t: State, r: nat, value: int) {
    r !in I.cells && Get(t.registers, r) == value
  }

  /** A register stands for the object at an address: the object's own cell, or, behind a
      dereference, a temporary that holds the address. */
  predicate Designates(I: Interpretation, e: Expression, t: State, r: nat, address: int) {
    if e.Dereference? then Holds(I, t, r, address) else r in I.cells && I.cells[r] == address
  }

  /** The nodes lead from `s` to this memory, keep older temporaries, and their result is one of
      the registers in use. */
  ghost predicate Leads(I: Interpretation, next: nat, l: Lowered, s: State, m: Memory) {
    l.result.Some? && l.result.value < l.next && next <= l.next
    && Effects(I, l.nodes, s).memory == m
    && Preserves(I, next, s, Effects(I, l.nodes, s))
  }

  /** The lowered expression computes its value. */
  ghost predicate Computes(I: Interpretation, env: map<string, int>, e: Expression, next: nat, l: Lowered, s: State) {
    Leads(I, next, l, s, Rvalue(I, env, e, s.memory).1)
    && Holds(I, Effects(I, l.nodes, s), l.result.value, Rvalue(I, env, e, s.memory).0)
  }

  /** The lowered expression is its object if it is a direct one, and computes its value if not. */
  ghost predicate Means(I: Interpretation, env: map<string, int>, e: Expression, next: nat, l: Lowered, s: State) {
    if Direct(e) then
      var (o, m) := Evaluate(I, env, e, s.memory);
      Leads(I, next, l, s, m) && o.Object? && l.result.value in I.cells && I.cells[l.result.value] == o.address
    else Computes(I, env, e, next, l, s)
  }

  /** The lowered slot designates its object. */
  ghost predicate Locates(I: Interpretation, env: map<string, int>, e: Expression, next: nat, l: Lowered, s: State) {
    var (o, m) := Evaluate(I, env, e, s.memory);
    Leads(I, next, l, s, m) && o.Object?
    && Designates(I, e, Effects(I, l.nodes, s), l.result.value, o.address)
  }

  lemma OneMore(I: Interpretation, nodes: seq<Node>, node: Node, s: State)
    ensures Effects(I, nodes + [node], s) == Effect(I, node, Effects(I, nodes, s))
  {
    EffectsConcat(I, nodes, [node], s);
    assert [node][1..] == [];
  }

  lemma InOrder(I: Interpretation, a: Lowered, b: Lowered, s: State)
    ensures Effects(I, b.After(a).nodes, s) == Effects(I, b.nodes, Effects(I, a.nodes, s))
  {
    EffectsConcat(I, a.nodes, b.nodes, s);
  }

  /** A lowering followed by a node that computes a new temporary. */
  lemma IntoLeads(I: Interpretation, next: nat, l: Lowered, node: Node, value: int, s: State)
    requires next <= l.next && Clear(I, next, l.next + 1)
    requires Preserves(I, next, s, Effects(I, l.nodes, s))
    requires Effect(I, node, Effects(I, l.nodes, s)) == Write(I, Effects(I, l.nodes, s), l.next, value)
    ensures Leads(I, next, l.Into(node), s, Effects(I, l.nodes, s).memory)
    ensures Holds(I, Effects(I, l.Into(node).nodes, s), l.next, value)
    ensures forall r :: r < l.next && r !in I.cells ==>
              Get(Effects(I, l.Into(node).nodes, s).registers, r) == Get(Effects(I, l.nodes, s).registers, r)
  {
    OneMore(I, l.nodes, node, s);
  }

  lemma LoadedComputes(I: Interpretation, names: map<string, nat>, env: map<string, int>, e: Expression, next: nat, s: State)
    requires Environment(I, names, env, next) && Clear(I, next, Loaded(names, e, next).next)
    requires Means(I, env, e, next, Lower(names, e, next), s)
    ensures Computes(I, env, e, next, Loaded(names, e, next), s)
  {
    if NeedsLoad(e) {
      var l := Lower(names, e, next);
      var node := LoadNode(Register(l.next, e.Width()), l.result.value);
      IntoLeads(I, next, l, node, ValueOf(I, env, e, s.memory), s);
    }
  }

  /** Two operands one after the other: both values are there at the end. */
  lemma BothComputed(I: Interpretation, env: map<string, int>, left: Expression, right: Expression, next: nat,
                     a: Lowered, b: Lowered, s: State)
    requires Computes(I, env, left, next, a, s) && Computes(I, env, right, a.next, b, Effects(I, a.nodes, s))
    ensures var (x, m1) := Rvalue(I, env, left, s.memory);
            var (y, m2) := Rvalue(I, env, right, m1);
            var t := Effects(I, b.After(a).nodes, s);
            Leads(I, next, b.After(a), s, m2) && Holds(I, t, a.result.value, x) && Holds(I, t, b.result.value, y)
  {
    InOrder(I, a, b, s);
  }

  lemma TwoMean(I: Interpretation, names: map<string, nat>, env: map<string, int>, e: Expression, next: nat, s: State)
    requires (e.Binary? || e.Compare?) && Environment(I, names, env, next)
    requires Clear(I, next, Lower(names, e, next).next)
    requires var a := Loaded(names, e.left, next);
             Computes(I, env, e.left, next, a, s)
             && Computes(I, env, e.right, a.next, Loaded(names, e.right, a.next), Effects(I, a.nodes, s))
    ensures Means(I, env, e, next, Lower(names, e, next), s)
  {
    var a := Loaded(names, e.left, next);
    var b := Loaded(names, e.right, a.next);
    BothComputed(I, env, e.left, e.right, next, a, b, s);
    var both := b.After(a);
    var register := Register(both.next, e.Width());
    var node := if e.Binary? then BinaryNode(e.binary, register, a.result.value, b.result.value)
                else CompareNode(e.comparison, register, a.result.value, b.result.value);
    IntoLeads(I, next, both, node, ValueOf(I, env, e, s.memory), s);
  }

  lemma OneMeans(I: Interpretation, names: map<string, nat>, env: map<string, int>, e: Expression, next: nat, s: State)
    requires e.Unary? || e.Convert? || e.Dereference?
    requires e.Convert? ==> Convertible(e.operand, e.type_)
    requires Environment(I, names, env, next)
    requires Clear(I, next, Lower(names, e, next).next) && Computes(I, env, e.operand, next, Loaded(names, e.operand, next), s)
    ensures Means(I, env, e, next, Lower(names, e, next), s)
  {
    var a := Loaded(names, e.operand, next);
    var register := Register(a.next, e.Width());
    var node := if e.Unary? then UnaryNode(e.unary, register, a.result.value)
                else if e.Convert? then
                  ConvertNode(ConversionBetween(e.operand.TypeOf(), e.type_), register, a.result.value)
                else DerefNode(register, a.result.value);
    IntoLeads(I, next, a, node, ValueOf(I, env, e, s.memory), s);
  }

  lemma LeafMeans(I: Interpretation, names: map<string, nat>, env: map<string, int>, e: Expression, next: nat, s: State)
    requires (e.Literal? || e.LoadVariable? || e.Variable?) && Resolved(names.Keys, e) && Environment(I, names, env, next)
    requires Clear(I, next, Lower(names, e, next).next)
    ensures Means(I, env, e, next, Lower(names, e, next), s)
  {
    var nothing := Lowered([], next, None, 0);
    assert Effects(I, nothing.nodes, s) == s;
    if !e.Variable? {
      var register := Register(next, e.Width());
      var node := if e.Literal? then ImmediateNode(register, e.value) else LoadNode(register, names[e.name]);
      IntoLeads(I, next, nothing, node, ValueOf(I, env, e, s.memory), s);
    }
  }

  /** A pointer conversion reads its operand, whether that is an object or a value. */
  lemma PointerConversionMeans(I: Interpretation, names: map<string, nat>, env: map<string, int>, e: Expression,
                               next: nat, s: State)
    requires e.PointerConversion? && Environment(I, names, env, next)
    requires Clear(I, next, Lower(names, e, next).next)
    requires if e.type_ == e.operand.TypeOf() then Computes(I, env, e.operand, next, Loaded(names, e.operand, next), s)
             else Means(I, env, e.operand, next, Lower(names, e.operand, next), s)
    ensures Means(I, env, e, next, Lower(names, e, next), s)
  {
    var (o, m) := Evaluate(I, env, e.operand, s.memory);
    assert Rvalue(I, env, e.operand, s.memory) == (o.Rvalue(m), m);
    assert Rvalue(I, env, e, s.memory) == (o.Rvalue(m), m);
    if e.type_ != e.operand.TypeOf() {
      var a := Lower(names, e.operand, next);
      var node := PointerConvertNode(Register(a.next, e.Width()), a.result.value);
      IntoLeads(I, next, a, node, ValueOf(I, env, e, s.memory), s);
    }
  }

  /** The address of a variable is its cell's; the address of a dereference is the pointer. */
  lemma AddressOfMeans(I: Interpretation, names: map<string, nat>, env: map<string, int>, e: Expression, next: nat,
                       s: State)
    requires e.AddressOf? && Environment(I, names, env, next)
    requires Clear(I, next, Lower(names, e, next).next)
    requires e.operand.Variable? || e.operand.Dereference?
    requires Locates(I, env, e.operand, next, Slot(names, e.operand, next), s)
    ensures Means(I, env, e, next, Lower(names, e, next), s)
  {
    if e.operand.Variable? {
      var a := Lower(names, e.operand, next);
      var node := AddressOfNode(Register(a.next, e.Width()), a.result.value);
      IntoLeads(I, next, a, node, ValueOf(I, env, e, s.memory), s);
    }
  }

  // ----- places -----

  lemma SlotReads(I: Interpretation, e: Expression, t: State, slot: nat, address: int, register: Register)
    requires Designates(I, e, t, slot, address)
    ensures Effect(I, SlotRead(e, register, slot), t) == Write(I, t, register.index, Get(t.memory, address))
  {
  }

  lemma SlotStores(I: Interpretation, e: Expression, t: State, slot: nat, address: int, source: nat, value: int)
    requires Designates(I, e, t, slot, address) && Holds(I, t, source, value)
    ensures Effect(I, SlotWrite(e, slot, source), t) == t.(memory := t.memory[address := value])
  {
  }

  lemma SlotMeans(I: Interpretation, names: map<string, nat>, env: map<string, int>, e: Expression, next: nat, s: State)
    requires Assignable(e) && (e.Dereference? ==> Computes(I, env, e.operand, next, Loaded(names, e.operand, next), s))
    requires Direct(e) ==> Means(I, env, e, next, Lower(names, e, next), s)
    ensures Locates(I, env, e, next, Slot(names, e, next), s)
  {
  }

  /** A slot and then a value: at the end the slot is still there. */
  lemma SlotAndValue(I: Interpretation, env: map<string, int>, left: Expression, right: Expression, next: nat,
                     slot: Lowered, b: Lowered, s: State)
    requires Locates(I, env, left, next, slot, s) && Computes(I, env, right, slot.next, b, Effects(I, slot.nodes, s))
    ensures var (o, m1) := Evaluate(I, env, left, s.memory);
            var (y, m2) := Rvalue(I, env, right, m1);
            var t := Effects(I, b.After(slot).nodes, s);
            Leads(I, next, b.After(slot), s, m2) && Designates(I, left, t, slot.result.value, o.address)
            && Holds(I, t, b.result.value, y)
  {
    InOrder(I, slot, b, s);
  }

  /** Storing through a slot leads to the memory with the object replaced. */
  lemma StoreLeads(I: Interpretation, next: nat, l: Lowered, e: Expression, slot: nat, address: int, source: nat,
                   value: int, result: nat, s: State)
    requires next <= l.next && Preserves(I, next, s, Effects(I, l.nodes, s)) && result < l.next
    requires Designates(I, e, Effects(I, l.nodes, s), slot, address) && Holds(I, Effects(I, l.nodes, s), source, value)
    ensures var written := l.Then(SlotWrite(e, slot, source), Some(result));
            Leads(I, next, written, s, Effects(I, l.nodes, s).memory[address := value])
            && Effects(I, written.nodes, s).registers == Effects(I, l.nodes, s).registers
  {
    OneMore(I, l.nodes, SlotWrite(e, slot, source), s);
    SlotStores(I, e, Effects(I, l.nodes, s), slot, address, source, value);
  }

  lemma AssignMeans(I: Interpretation, names: map<string, nat>, env: map<string, int>, e: Expression, next: nat, s: State)
    requires e.Assign? && Assignable(e.left) && Environment(I, names, env, next)
    requires Clear(I, next, Lower(names, e, next).next)
    requires var slot := Slot(names, e.left, next);
             Locates(I, env, e.left, next, slot, s)
             && Computes(I, env, e.right, slot.next, Loaded(names, e.right, slot.next), Effects(I, slot.nodes, s))
    ensures Means(I, env, e, next, Lower(names, e, next), s)
  {
    var slot := Slot(names, e.left, next);
    var b := Loaded(names, e.right, slot.next);
    SlotAndValue(I, env, e.left, e.right, next, slot, b, s);
    var (o, m1) := Evaluate(I, env, e.left, s.memory);
    var (y, m2) := Rvalue(I, env, e.right, m1);
    var result := if e.left.Dereference? then b.result.value else slot.result.value;
    StoreLeads(I, next, b.After(slot), e.left, slot.result.value, o.address, b.result.value, y, result, s);
    assert Evaluate(I, env, e, s.memory) == (o, m2[o.address := y]);
    assert Rvalue(I, env, e, s.memory) == (y, m2[o.address := y]);
    assert Direct(e) <==> !e.left.Dereference?;
  }

  /** Reading a slot into a new temporary keeps the slot. */
  lemma ReadLeads(I: Interpretation, next: nat, l: Lowered, e: Expression, slot: nat, address: int, width: nat, s: State)
    requires next <= l.next && Clear(I, next, l.next + 1) && slot < l.next
    requires Preserves(I, next, s, Effects(I, l.nodes, s)) && Designates(I, e, Effects(I, l.nodes, s), slot, address)
    ensures var read := l.Into(SlotRead(e, Register(l.next, width), slot));
            var t := Effects(I, read.nodes, s);
            Leads(I, next, read, s, Effects(I, l.nodes, s).memory)
            && Holds(I, t, l.next, Get(Effects(I, l.nodes, s).memory, address)) && Designates(I, e, t, slot, address)
            && Preserves(I, l.next, Effects(I, l.nodes, s), t)
  {
    var t := Effects(I, l.nodes, s);
    SlotReads(I, e, t, slot, address, Register(l.next, width));
    IntoLeads(I, next, l, SlotRead(e, Register(l.next, width), slot), Get(t.memory, address), s);
  }

  /** An operation on two temporaries, and what it keeps. */
  lemma OperationLeads(I: Interpretation, next: nat, l: Lowered, op: BinaryOperator, width: nat, left: nat, right: nat,
                       x: int, y: int, s: State)
    requires next <= l.next && Clear(I, next, l.next + 1)
    requires var t := Effects(I, l.nodes, s); Preserves(I, next, s, t) && Holds(I, t, left, x) && Holds(I, t, right, y)
    ensures var computed := l.Into(BinaryNode(op, Register(l.next, width), left, right));
            var t := Effects(I, computed.nodes, s);
            Leads(I, next, computed, s, Effects(I, l.nodes, s).memory) && Holds(I, t, l.next, I.binary(op, x, y))
            && Preserves(I, l.next, Effects(I, l.nodes, s), t)
  {
    IntoLeads(I, next, l, BinaryNode(op, Register(l.next, width), left, right), I.binary(op, x, y), s);
  }

  lemma UpdatedLeads(I: Interpretation, e: Expression, next: nat, l: Lowered, slot: nat, operand: nat, address: int,
                     y: int, s: State)
    requires e.Compound? && next <= l.next && Clear(I, next, l.next + 2)
    requires slot < l.next && operand < l.next
    requires var t := Effects(I, l.nodes, s);
             Preserves(I, next, s, t) && Designates(I, e.left, t, slot, address) && Holds(I, t, operand, y)
    ensures var m := Effects(I, l.nodes, s).memory;
            var value := I.binary(e.binary, Get(m, address), y);
            var updated := Updated(e, slot, l, e.binary, operand);
            Leads(I, next, updated, s, m[address := value])
            && Holds(I, Effects(I, updated.nodes, s), updated.result.value, value)
  {
    var m := Effects(I, l.nodes, s).memory;
    var value := I.binary(e.binary, Get(m, address), y);
    var read := l.Into(SlotRead(e.left, Register(l.next, e.left.Width()), slot));
    ReadLeads(I, next, l, e.left, slot, address, e.left.Width(), s);
    var computed := read.Into(BinaryNode(e.binary, Register(read.next, e.Width()), l.next, operand));
    OperationLeads(I, next, read, e.binary, e.Width(), l.next, operand, Get(m, address), y, s);
    StoreLeads(I, next, computed, e.left, slot, address, read.next, value, read.next, s);
  }

  lemma CompoundMeans(I: Interpretation, names: map<string, nat>, env: map<string, int>, e: Expression, next: nat,
                      s: State)
    requires e.Compound? && Assignable(e.left) && Environment(I, names, env, next)
    requires Clear(I, next, Lower(names, e, next).next)
    requires var slot := Slot(names, e.left, next);
             Locates(I, env, e.left, next, slot, s)
             && Computes(I, env, e.right, slot.next, Loaded(names, e.right, slot.next), Effects(I, slot.nodes, s))
    ensures Means(I, env, e, next, Lower(names, e, next), s)
  {
    var slot := Slot(names, e.left, next);
    var b := Loaded(names, e.right, slot.next);
    SlotAndValue(I, env, e.left, e.right, next, slot, b, s);
    var (o, m1) := Evaluate(I, env, e.left, s.memory);
    var (y, m2) := Rvalue(I, env, e.right, m1);
    UpdatedLeads(I, e, next, b.After(slot), slot.result.value, b.result.value, o.address, y, s);
    assert Evaluate(I, env, e, s.memory) == (o, m2[o.address := I.binary(e.binary, Get(m2, o.address), y)]);
  }

  lemma SteppedLeads(I: Interpretation, e: Expression, next: nat, l: Lowered, slot: nat, address: int, s: State)
    requires e.PostStep? && next <= l.next && Clear(I, next, l.next + 3) && slot < l.next
    requires Preserves(I, next, s, Effects(I, l.nodes, s)) && Designates(I, e.operand, Effects(I, l.nodes, s), slot, address)
    ensures var m := Effects(I, l.nodes, s).memory;
            var value := I.binary(StepOperator(e.decrement), Get(m, address), e.step);
            var stepped := Stepped(e, slot, l);
            Leads(I, next, stepped, s, m[address := value])
            && Holds(I, Effects(I, stepped.nodes, s), stepped.result.value, Get(m, address))
  {
    var m := Effects(I, l.nodes, s).memory;
    var op := StepOperator(e.decrement);
    var read := l.Into(SlotRead(e.operand, Register(l.next, e.operand.Width()), slot));
    ReadLeads(I, next, l, e.operand, slot, address, e.operand.Width(), s);
    var one := read.Into(ImmediateNode(Register(read.next, e.Width()), e.step));
    IntoLeads(I, next, read, ImmediateNode(Register(read.next, e.Width()), e.step), e.step, s);
    var computed := one.Into(BinaryNode(op, Register(one.next, e.Width()), l.next, read.next));
    OperationLeads(I, next, one, op, e.Width(), l.next, read.next, Get(m, address), e.step, s);
    StoreLeads(I, next, computed, e.operand, slot, address, one.next, I.binary(op, Get(m, address), e.step), l.next, s);
  }

  lemma PostStepMeans(I: Interpretation, names: map<string, nat>, env: map<string, int>, e: Expression, next: nat,
                      s: State)
    requires e.PostStep? && Assignable(e.operand) && Environment(I, names, env, next)
    requires Clear(I, next, Lower(names, e, next).next)
    requires Locates(I, env, e.operand, next, Slot(names, e.operand, next), s)
    ensures Means(I, env, e, next, Lower(names, e, next), s)
  {
    var slot := Slot(names, e.operand, next);
    var (o, m1) := Evaluate(I, env, e.operand, s.memory);
    SteppedLeads(I, e, next, slot, slot.result.value, o.address, s);
  }

  // ----- the theorem -----

  lemma {:induction false} LoweredMeans(I: Interpretation, names: map<string, nat>, env: map<string, int>,
                                        e: Expression, next: nat, s: State)
    requires Resolved(names.Keys, e) && Sound(e) && Environment(I, names, env, next)
    requires Clear(I, next, Lower(names, e, next).next)
    ensures Means(I, env, e, next, Lower(names, e, next), s)
    decreases e, 0
  {
    if e.Binary? || e.Compare? {
      var a := Loaded(names, e.left, next);
      LoweredComputes(I, names, env, e.left, next, s);
      LoweredComputes(I, names, env, e.right, a.next, Effects(I, a.nodes, s));
      TwoMean(I, names, env, e, next, s);
    } else if e.Compound? || e.Assign? {
      var slot := Slot(names, e.left, next);
      LoweredLocates(I, names, env, e.left, next, s);
      LoweredComputes(I, names, env, e.right, slot.next, Effects(I, slot.nodes, s));
      if e.Compound? {
        CompoundMeans(I, names, env, e, next, s);
      } else {
        AssignMeans(I, names, env, e, next, s);
      }
    } else if e.PostStep? {
      LoweredLocates(I, names, env, e.operand, next, s);
      PostStepMeans(I, names, env, e, next, s);
    } else if e.Unary? || e.Convert? || e.Dereference? {
      LoweredComputes(I, names, env, e.operand, next, s);
      OneMeans(I, names, env, e, next, s);
    } else if e.PointerConversion? {
      if e.type_ == e.operand.TypeOf() {
        LoweredComputes(I, names, env, e.operand, next, s);
      } else {
        LoweredMeans(I, names, env, e.operand, next, s);
      }
      PointerConversionMeans(I, names, env, e, next, s);
    } else if e.AddressOf? {
      LoweredLocates(I, names, env, e.operand, next, s);
      AddressOfMeans(I, names, env, e, next, s);
    } else {
      LeafMeans(I, names, env, e, next, s);
    }
  }

  /** For every sound expression, every meaning of the operators and every state: the nodes
      compute the value of the expression from left to right, leave the memory it leaves, and
      touch no register that was there before. */
  lemma {:induction false} LoweredComputes(I: Interpretation, names: map<string, nat>, env: map<string, int>,
                                           e: Expression, next: nat, s: State)
    requires Resolved(names.Keys, e) && Sound(e) && Environment(I, names, env, next)
    requires Clear(I, next, Loaded(names, e, next).next)
    ensures Computes(I, env, e, next, Loaded(names, e, next), s)
    decreases e, 1
  {
    LoweredMeans(I, names, env, e, next, s);
    LoadedComputes(I, names, env, e, next, s);
  }

  lemma {:induction false} LoweredLocates(I: Interpretation, names: map<string, nat>, env: map<string, int>,
                                          e: Expression, next: nat, s: State)
    requires Resolved(names.Keys, e) && Sound(e) && Assignable(e) && Environment(I, names, env, next)
    requires Clear(I, next, Slot(names, e, next).next)
    ensures Locates(I, env, e, next, Slot(names, e, next), s)
    decreases e, 1
  {
    if e.Dereference? {
      LoweredComputes(I, names, env, e.operand, next, s);
    } else {
      LoweredMeans(I, names, env, e, next, s);
    }
    SlotMeans(I, names, env, e, next, s);
  }

  // ----- assignments to other things -----

  /** What C++ lets one assign to: results of assignments are objects too. */
  predicate IsObject(e: Expression) {
    e.Variable? || e.Dereference? || ((e.Assign? || e.Compound?) && IsObject(e.left))
  }

  function AssignLiteral(left: Expression, k: nat): Expression {
    Assign(left, Literal(k, left.TypeOf()), left.TypeOf())
  }

  /** Running the lowered assignment leaves the memory that the assignment means. */
  ghost predicate AssignsRight(I: Interpretation, names: map<string, nat>, env: map<string, int>, left: Expression,
                               k: nat, next: nat, s: State) {
    Effects(I, Lower(names, AssignLiteral(left, k), next).nodes, s).memory
    == Evaluate(I, env, AssignLiteral(left, k), s.memory).1
  }

  lemma LiteralLowered(names: map<string, nat>, left: Expression, k: nat, next: nat)
    requires Resolved(names.Keys, left) && !left.Dereference?
    ensures var slot := Lower(names, left, next);
            slot.result.Some? && Lower(names, AssignLiteral(left, k), next)
            == slot.Into(ImmediateNode(Register(slot.next, left.Width()), k))
                   .Then(StoreNode(slot.result.value, slot.next), slot.result)
  {
    LowersIfResolved(names, left, next);
    var slot := Lower(names, left, next);
    var literal := Literal(k, left.TypeOf());
    assert literal.Width() == left.Width();
    var b := Loaded(names, literal, slot.next);
    assert b == Lower(names, literal, slot.next);
    assert b == Lowered([], slot.next, None, 0).Into(ImmediateNode(Register(slot.next, left.Width()), k));
    assert b.nodes == [ImmediateNode(Register(slot.next, left.Width()), k)];
    assert b.After(slot) == slot.Into(ImmediateNode(Register(slot.next, left.Width()), k));
  }

  /** Where the left side is no place, the value ends up in a temporary and the object keeps its. */
  lemma StoredNowhere(I: Interpretation, names: map<string, nat>, env: map<string, int>, left: Expression, k: nat,
                      next: nat, s: State)
    requires IsObject(left) && Resolved(names.Keys, left) && Sound(left) && !Assignable(left)
    requires Environment(I, names, env, next) && Clear(I, next, Lower(names, AssignLiteral(left, k), next).next)
    ensures Effects(I, Lower(names, AssignLiteral(left, k), next).nodes, s).memory
         == Evaluate(I, env, left, s.memory).1
  {
    hide Lower, Loaded, Evaluate, AssignLiteral, Resolved, Environment;
    LiteralLowered(names, left, k, next);
    LoweredMeans(I, names, env, left, next, s);
    var slot := Lower(names, left, next);
    var literal := ImmediateNode(Register(slot.next, left.Width()), k);
    IntoLeads(I, next, slot, literal, k, s);
    OneMore(I, slot.Into(literal).nodes, StoreNode(slot.result.value, slot.next), s);
    assert Rvalue(I, env, left, s.memory).1 == Evaluate(I, env, left, s.memory).1;
  }

  lemma {:induction false} ObjectsDesignate(I: Interpretation, env: map<string, int>, e: Expression, m: Memory)
    requires IsObject(e)
    ensures Evaluate(I, env, e, m).0.Object?
    decreases e
  {
    if e.Assign? || e.Compound? {
      ObjectsDesignate(I, env, e.left, m);
    }
  }

  lemma AssignablesAreAssigned(I: Interpretation, names: map<string, nat>, env: map<string, int>, left: Expression,
                               k: nat, next: nat, s: State)
    requires IsObject(left) && Resolved(names.Keys, left) && Sound(left) && Environment(I, names, env, next)
    requires forall r :: r in I.cells ==> r < next
    requires Assignable(left)
    ensures AssignsRight(I, names, env, left, k, next, s)
  {
    hide Environment, Effects, Lower;
    LoweredMeans(I, names, env, AssignLiteral(left, k), next, s);
    assert Rvalue(I, env, AssignLiteral(left, k), s.memory).1 == Evaluate(I, env, AssignLiteral(left, k), s.memory).1;
  }

  lemma AssignedLiteral(I: Interpretation, env: map<string, int>, left: Expression, k: nat, m: Memory)
    ensures Evaluate(I, env, left, m).0.Object? ==>
              var (o, m1) := Evaluate(I, env, left, m);
              Evaluate(I, env, AssignLiteral(left, k), m) == (o, m1[o.address := k])
  {
    var (o, m1) := Evaluate(I, env, left, m);
    assert Rvalue(I, env, Literal(k, left.TypeOf()), m1) == (k, m1);
  }

  /** Storing the other of zero and one would show. */
  lemma OthersAreMissed(I: Interpretation, names: map<string, nat>, env: map<string, int>, left: Expression,
                        next: nat, s: State) returns (k: nat)
    requires IsObject(left) && Resolved(names.Keys, left) && Sound(left) && Environment(I, names, env, next)
    requires forall r :: r in I.cells ==> r < next
    requires !Assignable(left)
    ensures !AssignsRight(I, names, env, left, k, next, s)
  {
    var (o, m1) := Evaluate(I, env, left, s.memory);
    ObjectsDesignate(I, env, left, s.memory);
    k := if Get(m1, o.address) == 0 then 1 else 0;
    StoredNowhere(I, names, env, left, k, next, s);
    hide Lower, Effects, Evaluate, Environment, Resolved, Sound, IsObject, Assignable;
    AssignedLiteral(I, env, left, k, s.memory);
    assert Get(m1[o.address := k], o.address) == k;
  }

  /** An assignment is lowered correctly if and only if its left side is a variable, a dereference,
      or an assignment to such a variable: results of compound assignments, of pre-increments and of
      assignments through a pointer are not stored to. */
  lemma AssignsRightIffAssignable(I: Interpretation, names: map<string, nat>, env: map<string, int>, left: Expression,
                             next: nat, s: State)
    requires IsObject(left) && Resolved(names.Keys, left) && Sound(left) && Environment(I, names, env, next)
    requires forall r :: r in I.cells ==> r < next
    ensures Assignable(left) <==> forall k: nat :: AssignsRight(I, names, env, left, k, next, s)
  {
    hide AssignsRight, Environment, Resolved, Sound, IsObject, Assignable;
    if Assignable(left) {
      forall k: nat
        ensures AssignsRight(I, names, env, left, k, next, s)
      {
        AssignablesAreAssigned(I, names, env, left, k, next, s);
      }
    } else {
      var k := OthersAreMissed(I, names, env, left, next, s);
    }
  }

  // ----- increments and decrements -----

  /** What `x++` and `x--` mean, wherever the object is: the value before, and its sum or difference with the
      step left in the object. */
  lemma StepsOnce(I: Interpretation, env: map<string, int>, decrement: bool, operand: Expression, step: nat,
                  type_: Type, m: Memory)
    requires IsObject(operand)
    ensures var (o, m1) := Evaluate(I, env, operand, m);
            var before := Get(m1, o.Address());
            o.Object?
            && Evaluate(I, env, PostStep(decrement, operand, step, type_), m)
               == (Value(before), m1[o.Address() := I.binary(if decrement then Subtraction else Addition, before, step)])
  {
    ObjectsDesignate(I, env, operand, m);
  }

  /** The nodes of `x++` and `x--`, run from any state: the old value in the result, the new one in the variable,
      and nothing else in memory changed. */
  lemma SteppedVariable(I: Interpretation, names: map<string, nat>, env: map<string, int>, decrement: bool, name: string,
                        step: nat, type_: Type, next: nat, s: State)
    requires name in names && Environment(I, names, env, next)
    requires forall r :: r in I.cells ==> r < next
    ensures var l := Lower(names, PostStep(decrement, Variable(name, type_), step, type_), next);
            var before := Get(s.memory, env[name]);
            l.result.Some? && Read(I, Effects(I, l.nodes, s), l.result.value) == before
            && Effects(I, l.nodes, s).memory
               == s.memory[env[name] := I.binary(if decrement then Subtraction else Addition, before, step)]
  {
    var e := PostStep(decrement, Variable(name, type_), step, type_);
    LoweredMeans(I, names, env, e, next, s);
    StepsOnce(I, env, decrement, Variable(name, type_), step, type_, s.memory);
  }

  /** The nodes of `(*p)++` and `(*p)--`: the same at the address that the pointer holds. */
  lemma SteppedDereference(I: Interpretation, names: map<string, nat>, env: map<string, int>, decrement: bool,
                           name: string, pointer: Type, step: nat, type_: Type, next: nat, s: State)
    requires name in names && Environment(I, names, env, next)
    requires forall r :: r in I.cells ==> r < next
    ensures var e := PostStep(decrement, Dereference(LoadVariable(name, pointer), type_), step, type_);
            var l, address := Lower(names, e, next), Get(s.memory, env[name]);
            var before := Get(s.memory, address);
            l.result.Some? && Read(I, Effects(I, l.nodes, s), l.result.value) == before
            && Effects(I, l.nodes, s).memory
               == s.memory[address := I.binary(if decrement then Subtraction else Addition, before, step)]
  {
    var operand := Dereference(LoadVariable(name, pointer), type_);
    assert Rvalue(I, env, LoadVariable(name, pointer), s.memory) == (Get(s.memory, env[name]), s.memory);
    assert Evaluate(I, env, operand, s.memory) == (Object(Get(s.memory, env[name])), s.memory);
    assert Resolved(names.Keys, PostStep(decrement, operand, step, type_));
    LoweredMeans(I, names, env, PostStep(decrement, operand, step, type_), next, s);
    StepsOnce(I, env, decrement, operand, step, type_, s.memory);
  }
}
