/** The widths of operands. Where the operands of every operator have the same width, so have the registers that
    the lowered operators work on. */
module OperandWidths {
  import opened Options
  import opened AllocationMaps
  import opened Ssa
  import opened Expressions
  import opened ExpressionLowering
  import opened ExpressionShapes
  import opened RegisterWidths

  type Layout = map<nat, Descriptor>

  // ----- widths along nodes -----

  function LayOutAll(before: Layout, nodes: seq<Node>): Layout {
    if nodes == [] then before else LayOut(LayOutAll(before, nodes[..|nodes| - 1]), nodes[|nodes| - 1])
  }

  /** What is asserted when an operator or a comparison is translated. */
  predicate EvenAt(before: Layout, node: Node) {
    node.BinaryNode? || node.CompareNode? ==> WidthAt(before, node.left) == WidthAt(before, node.right)
  }

  predicate Even(before: Layout, nodes: seq<Node>) {
    nodes == []
    || (Even(before, nodes[..|nodes| - 1]) && EvenAt(LayOutAll(before, nodes[..|nodes| - 1]), nodes[|nodes| - 1]))
  }

  lemma {:induction false} EvenConcat(before: Layout, a: seq<Node>, b: seq<Node>)
    ensures LayOutAll(before, a + b) == LayOutAll(LayOutAll(before, a), b)
    ensures Even(before, a + b) <==> Even(before, a) && Even(LayOutAll(before, a), b)
    decreases |b|
  {
    hide LayOut, EvenAt;
    if b == [] {
      assert a + b == a;
    } else {
      var last := |b| - 1;
      assert (a + b)[..|a + b| - 1] == a + b[..last];
      EvenConcat(before, a, b[..last]);
    }
  }

  lemma EvenOne(before: Layout, node: Node)
    ensures LayOutAll(before, [node]) == LayOut(before, node)
    ensures Even(before, [node]) <==> EvenAt(before, node)
  {
    assert [node][..0] == [];
  }

  lemma {:induction false} EvenEverywhere(before: Layout, nodes: seq<Node>, n: nat)
    requires Even(before, nodes) && n < |nodes|
    ensures EvenAt(LayOutAll(before, nodes[..n]), nodes[n])
    decreases |nodes|
  {
    if n < |nodes| - 1 {
      EvenEverywhere(before, nodes[..|nodes| - 1], n);
      assert nodes[..|nodes| - 1][..n] == nodes[..n];
    }
  }

  // ----- expressions -----

  /** The operands of an operator have its width, and variables have the widths they were declared with. */
  predicate Typed(types: map<string, nat>, e: Expression) {
    match e
    case LoadVariable(name, t) => name in types && types[name] == t.Width()
    case Variable(name, t) => name in types && types[name] == t.Width()
    case Binary(_, left, right, t) => Typed(types, left) && Typed(types, right) && left.Width() == right.Width() == t.Width()
    case Unary(_, operand, t) => Typed(types, operand) && operand.Width() == t.Width()
    case Convert(operand, _) => Typed(types, operand)
    case PointerConversion(operand, _) => Typed(types, operand)
    case AddressOf(operand, t) =>
      Typed(types, operand) && (operand.Dereference? ==> operand.operand.Width() == t.Width())
    case Dereference(operand, _) => Typed(types, operand)
    case Compare(_, left, right, _) => Typed(types, left) && Typed(types, right) && left.Width() == right.Width()
    case Compound(_, left, right, t) => Typed(types, left) && Typed(types, right) && left.Width() == right.Width() == t.Width()
    case Assign(left, right, t) => Typed(types, left) && Typed(types, right) && left.Width() == right.Width() == t.Width()
    case PostStep(_, operand, _, t) => Typed(types, operand) && operand.Width() == t.Width()
    case _ => true
  }

  /** The registers of variables are as wide as the variables. */
  ghost predicate Fit(types: map<string, nat>, names: map<string, nat>, before: Layout, next: nat) {
    forall name :: name in names ==> name in types && names[name] < next && WidthAt(before, names[name]) == types[name]
  }

  /** The registers below `next` are as wide as before. */
  ghost predicate Kept(before: Layout, after: Layout, next: nat) {
    forall r: nat :: r < next ==> WidthAt(after, r) == WidthAt(before, r)
  }

  /** Nothing asserted fails, and the result has this width. */
  ghost predicate Sized(before: Layout, l: Lowered, next: nat, width: nat) {
    l.result.Some? && l.result.value < l.next && next <= l.next && Even(before, l.nodes)
    && Kept(before, LayOutAll(before, l.nodes), next) && WidthAt(LayOutAll(before, l.nodes), l.result.value) == width
  }

  lemma FitKept(types: map<string, nat>, names: map<string, nat>, before: Layout, after: Layout, next: nat, more: nat)
    requires Fit(types, names, before, next) && Kept(before, after, next) && next <= more
    ensures Fit(types, names, after, more)
  {
  }

  /** One more register, as wide as its node says. */
  lemma IntoSized(before: Layout, l: Lowered, node: Node, next: nat, width: nat)
    requires next <= l.next && Even(before, l.nodes) && Kept(before, LayOutAll(before, l.nodes), next)
    requires var after := LayOutAll(before, l.nodes);
             EvenAt(after, node) && l.next in LayOut(after, node)
             && LayOut(after, node) == after[l.next := LayOut(after, node)[l.next]] && LayOut(after, node)[l.next].width == width
    ensures Sized(before, l.Into(node), next, width)
    ensures Kept(LayOutAll(before, l.nodes), LayOutAll(before, l.Into(node).nodes), l.next)
  {
    EvenConcat(before, l.nodes, [node]);
    EvenOne(LayOutAll(before, l.nodes), node);
  }

  /** A node without a result. */
  lemma ThenSized(before: Layout, l: Lowered, node: Node, result: Option<nat>, next: nat, width: nat)
    requires next <= l.next && Even(before, l.nodes) && Kept(before, LayOutAll(before, l.nodes), next)
    requires EvenAt(LayOutAll(before, l.nodes), node) && LayOut(LayOutAll(before, l.nodes), node) == LayOutAll(before, l.nodes)
    requires result.Some? && result.value < l.next && WidthAt(LayOutAll(before, l.nodes), result.value) == width
    ensures Sized(before, l.Then(node, result), next, width)
  {
    EvenConcat(before, l.nodes, [node]);
    EvenOne(LayOutAll(before, l.nodes), node);
  }

  lemma BothSized(before: Layout, a: Lowered, b: Lowered, next: nat, x: nat, y: nat)
    requires Sized(before, a, next, x) && Sized(LayOutAll(before, a.nodes), b, a.next, y)
    ensures Sized(before, b.After(a), next, y)
    ensures WidthAt(LayOutAll(before, b.After(a).nodes), a.result.value) == x && a.result.value < b.next
  {
    EvenConcat(before, a.nodes, b.nodes);
  }

  lemma {:induction false} LoweredSized(types: map<string, nat>, names: map<string, nat>, e: Expression, next: nat,
                                        before: Layout)
    requires Resolved(names.Keys, e) && Translatable(e) && Typed(types, e) && Fit(types, names, before, next)
    ensures Sized(before, Lower(names, e, next), next, e.Width())
    decreases e, 2
  {
    hide Sized, Fit, Even;
    match e
    case Binary(_, _, _, _) => OperatorSized(types, names, e, next, before);
    case Compound(_, _, _, _) => AssignmentSized(types, names, e, next, before);
    case Assign(_, _, _) => AssignmentSized(types, names, e, next, before);
    case PostStep(_, operand, _, _) =>
      SlotSized(types, names, operand, next, before);
      SteppedSized(before, e, Slot(names, operand, next), next,
                   if operand.Dereference? then operand.operand.Width() else operand.Width());
    case AddressOf(operand, _) =>
      if operand.Dereference? {
        LoadedSized(types, names, operand.operand, next, before);
      } else {
        LoweredSized(types, names, operand, next, before);
        OneSized(before, e, Lower(names, operand, next), operand.Width(), next,
                 AddressOfNode(Register(Lower(names, operand, next).next, e.Width()), Lower(names, operand, next).result.value));
      }
    case PointerConversion(operand, target) =>
      if target == operand.TypeOf() {
        LoadedSized(types, names, operand, next, before);
      } else {
        LoweredSized(types, names, operand, next, before);
        LowersIfResolved(names, operand, next);
        var a := Lower(names, operand, next);
        OneSized(before, e, a, operand.Width(), next, PointerConvertNode(Register(a.next, e.Width()), a.result.value));
      }
    case Unary(op, operand, _) =>
      LoadedSized(types, names, operand, next, before);
      var a := Loaded(names, operand, next);
      OneSized(before, e, a, operand.Width(), next, UnaryNode(op, Register(a.next, e.Width()), a.result.value));
    case Convert(operand, target) =>
      LoadedSized(types, names, operand, next, before);
      var a := Loaded(names, operand, next);
      OneSized(before, e, a, operand.Width(), next,
               ConvertNode(ConversionBetween(operand.TypeOf(), target), Register(a.next, e.Width()), a.result.value));
    case Dereference(operand, _) =>
      LoadedSized(types, names, operand, next, before);
      var a := Loaded(names, operand, next);
      OneSized(before, e, a, operand.Width(), next, DerefNode(Register(a.next, e.Width()), a.result.value));
    case _ => LeafSized(types, names, e, next, before);
  }

  lemma OneSized(before: Layout, e: Expression, a: Lowered, x: nat, next: nat, node: Node)
    requires Sized(before, a, next, x) && (node.UnaryNode? ==> node.operand == a.result.value && x == e.Width())
    requires node.UnaryNode? || node.ConvertNode? || node.PointerConvertNode? || node.DerefNode? || node.AddressOfNode?
             || node.LoadNode?
    requires node.result == Register(a.next, e.Width())
    ensures Sized(before, a.Into(node), next, e.Width())
  {
    IntoSized(before, a, node, next, e.Width());
  }

  lemma LeafSized(types: map<string, nat>, names: map<string, nat>, e: Expression, next: nat, before: Layout)
    requires e.Literal? || e.LoadVariable? || e.Variable?
    requires Resolved(names.Keys, e) && Typed(types, e) && Fit(types, names, before, next)
    ensures Sized(before, Lower(names, e, next), next, e.Width())
  {
    var nothing := Lowered([], next, None, 0);
    if e.Literal? {
      IntoSized(before, nothing, ImmediateNode(Register(next, e.Width()), e.value), next, e.Width());
    } else if e.LoadVariable? {
      IntoSized(before, nothing, LoadNode(Register(next, e.Width()), names[e.name]), next, e.Width());
    }
  }

  lemma {:induction false} OperatorSized(types: map<string, nat>, names: map<string, nat>, e: Expression, next: nat,
                                         before: Layout)
    requires e.Binary? && Resolved(names.Keys, e) && Translatable(e) && Typed(types, e) && Fit(types, names, before, next)
    ensures Sized(before, Lower(names, e, next), next, e.Width())
    decreases e, 1
  {
    var a, b := OperandsSized(types, names, e, next, before);
    hide Sized, Fit, Loaded, Translatable, Resolved;
    BinarySized(before, b.After(a), e.binary, e.Width(), a.result.value, b.result.value, next, e.Width());
  }

  /** An operator on registers that are as wide as it. */
  lemma BinarySized(before: Layout, l: Lowered, op: BinaryOperator, width: nat, left: nat, right: nat, next: nat, x: nat)
    requires Sized(before, l, next, x) && !op.Modulo?
    requires WidthAt(LayOutAll(before, l.nodes), left) == width == WidthAt(LayOutAll(before, l.nodes), right)
    ensures var node := BinaryNode(op, Register(l.next, width), left, right);
            Sized(before, l.Into(node), next, width)
            && Kept(LayOutAll(before, l.nodes), LayOutAll(before, l.Into(node).nodes), l.next)
  {
    IntoSized(before, l, BinaryNode(op, Register(l.next, width), left, right), next, width);
  }

  /** The value of an object, or a constant. */
  lemma ValueSized(before: Layout, l: Lowered, node: Node, width: nat, next: nat, x: nat)
    requires Sized(before, l, next, x) && (node.LoadNode? || node.DerefNode? || node.ImmediateNode?)
    requires node.result == Register(l.next, width)
    ensures Sized(before, l.Into(node), next, width)
    ensures Kept(LayOutAll(before, l.nodes), LayOutAll(before, l.Into(node).nodes), l.next)
  {
    IntoSized(before, l, node, next, width);
  }

  lemma WriteSized(before: Layout, l: Lowered, node: Node, result: nat, next: nat, width: nat, x: nat)
    requires Sized(before, l, next, x) && (node.StoreNode? || node.IndirectStoreNode?)
    requires result < l.next && WidthAt(LayOutAll(before, l.nodes), result) == width
    ensures Sized(before, l.Then(node, Some(result)), next, width)
  {
    ThenSized(before, l, node, Some(result), next, width);
  }

  /** Two operands, one after the other. */
  lemma {:induction false} OperandsSized(types: map<string, nat>, names: map<string, nat>, e: Expression, next: nat,
                                         before: Layout)
    returns (a: Lowered, b: Lowered)
    requires (e.Binary? || e.Compare?) && Resolved(names.Keys, e) && Typed(types, e) && Fit(types, names, before, next)
    requires Translatable(e.left) && Translatable(e.right)
    ensures a == Loaded(names, e.left, next) && b == Loaded(names, e.right, a.next)
    ensures a.result.Some? && Sized(before, b.After(a), next, e.right.Width())
    ensures WidthAt(LayOutAll(before, b.After(a).nodes), a.result.value) == e.left.Width() && a.result.value < b.next
    decreases e, 0
  {
    a := Loaded(names, e.left, next);
    b := Loaded(names, e.right, a.next);
    LoadedSized(types, names, e.left, next, before);
    FitKept(types, names, before, LayOutAll(before, a.nodes), next, a.next);
    LoadedSized(types, names, e.right, a.next, LayOutAll(before, a.nodes));
    BothSized(before, a, b, next, e.left.Width(), e.right.Width());
  }

  lemma {:induction false} AssignmentSized(types: map<string, nat>, names: map<string, nat>, e: Expression, next: nat,
                                           before: Layout)
    requires (e.Compound? || e.Assign?) && Resolved(names.Keys, e) && Translatable(e) && Typed(types, e)
    requires Fit(types, names, before, next)
    ensures Sized(before, Lower(names, e, next), next, e.Width())
    decreases e, 1
  {
    var slot := Slot(names, e.left, next);
    var b := Loaded(names, e.right, slot.next);
    SlotSized(types, names, e.left, next, before);
    FitKept(types, names, before, LayOutAll(before, slot.nodes), next, slot.next);
    LoadedSized(types, names, e.right, slot.next, LayOutAll(before, slot.nodes));
    var both := b.After(slot);
    BothSized(before, slot, b, next, if e.left.Dereference? then e.left.operand.Width() else e.left.Width(),
              e.right.Width());
    if e.Compound? {
      UpdatedSized(before, e, slot.result.value, both, next);
    } else {
      hide Fit, LayOutAll, LayOut, Slot, Loaded, Even, Kept;
      WriteSized(before, both, SlotWrite(e.left, slot.result.value, b.result.value),
                 if e.left.Dereference? then b.result.value else slot.result.value, next, e.Width(), e.right.Width());
    }
  }

  lemma UpdatedSized(before: Layout, e: Expression, slot: nat, both: Lowered, next: nat)
    requires e.Compound? && !e.binary.Modulo? && e.left.Width() == e.Width() && Sized(before, both, next, e.Width())
    ensures Sized(before, Updated(e, slot, both, e.binary, both.result.value), next, e.Width())
  {
    hide LayOutAll, LayOut, Even;
    var read := both.Into(SlotRead(e.left, Register(both.next, e.left.Width()), slot));
    ValueSized(before, both, SlotRead(e.left, Register(both.next, e.left.Width()), slot), e.Width(), next, e.Width());
    BinarySized(before, read, e.binary, e.Width(), both.next, both.result.value, next, e.Width());
    var computed := read.Into(BinaryNode(e.binary, Register(read.next, e.Width()), both.next, both.result.value));
    WriteSized(before, computed, SlotWrite(e.left, slot, read.next), read.next, next, e.Width(), e.Width());
  }

  lemma SteppedSized(before: Layout, e: Expression, slot: Lowered, next: nat, width: nat)
    requires e.PostStep? && e.operand.Width() == e.Width() && Sized(before, slot, next, width)
    ensures Sized(before, Stepped(e, slot.result.value, slot), next, e.Width())
  {
    hide LayOutAll, LayOut, Even;
    var read := slot.Into(SlotRead(e.operand, Register(slot.next, e.operand.Width()), slot.result.value));
    ValueSized(before, slot, SlotRead(e.operand, Register(slot.next, e.operand.Width()), slot.result.value), e.Width(), next,
               width);
    var one := read.Into(ImmediateNode(Register(read.next, e.Width()), e.step));
    ValueSized(before, read, ImmediateNode(Register(read.next, e.Width()), e.step), e.Width(), next, e.Width());
    BinarySized(before, one, StepOperator(e.decrement), e.Width(), slot.next, read.next, next, e.Width());
    var computed := one.Into(BinaryNode(StepOperator(e.decrement), Register(one.next, e.Width()), slot.next, read.next));
    WriteSized(before, computed, SlotWrite(e.operand, slot.result.value, one.next), slot.next, next, e.Width(), e.Width());
  }

  lemma {:induction false} LoadedSized(types: map<string, nat>, names: map<string, nat>, e: Expression, next: nat,
                                       before: Layout)
    requires Resolved(names.Keys, e) && Translatable(e) && Typed(types, e) && Fit(types, names, before, next)
    ensures Sized(before, Loaded(names, e, next), next, e.Width())
    decreases e, 3
  {
    LoweredSized(types, names, e, next, before);
    if NeedsLoad(e) {
      var l := Lower(names, e, next);
      OneSized(before, e, l, e.Width(), next, LoadNode(Register(l.next, e.Width()), l.result.value));
    }
  }

  /** The register that a slot is read and written through. */
  lemma {:induction false} SlotSized(types: map<string, nat>, names: map<string, nat>, e: Expression, next: nat,
                                     before: Layout)
    requires Resolved(names.Keys, e) && Translatable(e) && Typed(types, e) && Fit(types, names, before, next)
    ensures Sized(before, Slot(names, e, next), next, if e.Dereference? then e.operand.Width() else e.Width())
    decreases e, 3
  {
    if e.Dereference? {
      LoadedSized(types, names, e.operand, next, before);
    } else {
      LoweredSized(types, names, e, next, before);
    }
  }
}
