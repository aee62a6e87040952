/** The shape of lowered expressions: registers are introduced once, in increasing order, and before
    they are used. */
module ExpressionShapes {
  import opened Options
  import opened Ssa
  import opened PseudoAssembly
  import opened ReferenceCounts
  import opened Expressions
  import opened ExpressionLowering

  // ----- flow of registers -----

  /** The register a node gives a value it had not before. */
  function Introduces(node: Node): Option<nat> {
    if node.CompareNode? then Some(node.result.index)
    else if node.BinaryNode? then Some(node.result.index)
    else if ResultOf(node).Some? then Some(ResultOf(node).value.index)
    else None
  }

  /** The registers that can be looked up after some nodes. A comparison's result cannot. */
  function Defs(nodes: seq<Node>): set<nat> {
    if nodes == [] then {}
    else
      Defs(nodes[..|nodes| - 1])
      + if ResultOf(nodes[|nodes| - 1]).Some? then {ResultOf(nodes[|nodes| - 1]).value.index} else {}
  }

  ghost predicate LooksUp(node: Node, known: set<nat>) {
    forall k :: 0 <= k < |Lookups(node)| ==> Lookups(node)[k] in known
  }

  /** Each node looks up registers that are `known` or introduced before it, and introduces the next
      free register or a later one, from `lo` up to `hi`. */
  ghost predicate Flows(nodes: seq<Node>, known: set<nat>, lo: nat, hi: nat)
    decreases |nodes|
  {
    if nodes == [] then lo <= hi
    else
      var before, node := nodes[..|nodes| - 1], nodes[|nodes| - 1];
      LooksUp(node, known + Defs(before))
      && if Introduces(node).Some? then Introduces(node).value < hi && Flows(before, known, lo, Introduces(node).value)
         else Flows(before, known, lo, hi)
  }

  lemma {:induction false} DefsConcat(a: seq<Node>, b: seq<Node>)
    ensures Defs(a + b) == Defs(a) + Defs(b)
    decreases |b|
  {
    if b == [] {
      assert a + b == a;
    } else {
      assert (a + b)[..|a + b| - 1] == a + b[..|b| - 1];
      DefsConcat(a, b[..|b| - 1]);
    }
  }

  lemma {:induction false} FlowsWider(nodes: seq<Node>, known: set<nat>, lo: nat, hi: nat, known': set<nat>, lo': nat,
                                      hi': nat)
    requires Flows(nodes, known, lo, hi) && known <= known' && lo' <= lo && hi <= hi'
    ensures Flows(nodes, known', lo', hi')
    decreases |nodes|
  {
    if nodes != [] {
      var before, node := nodes[..|nodes| - 1], nodes[|nodes| - 1];
      if Introduces(node).Some? {
        FlowsWider(before, known, lo, Introduces(node).value, known', lo', Introduces(node).value);
      } else {
        FlowsWider(before, known, lo, hi, known', lo', hi');
      }
    }
  }

  lemma {:induction false} FlowsConcat(a: seq<Node>, b: seq<Node>, known: set<nat>, lo: nat, mid: nat, hi: nat)
    requires Flows(a, known, lo, mid) && Flows(b, known + Defs(a), mid, hi)
    ensures Flows(a + b, known, lo, hi) && Defs(a + b) == Defs(a) + Defs(b)
    decreases |b|
  {
    DefsConcat(a, b);
    if b == [] {
      assert a + b == a;
      FlowsWider(a, known, lo, mid, known, lo, hi);
    } else {
      var before, node := b[..|b| - 1], b[|b| - 1];
      assert (a + b)[..|a + b| - 1] == a + before;
      FlowsConcat(a, before, known, lo, mid, if Introduces(node).Some? then Introduces(node).value else hi);
      assert known + Defs(a) + Defs(before) == known + Defs(a + before);
    }
  }

  /** One more node at the end. */
  lemma FlowsThen(nodes: seq<Node>, node: Node, known: set<nat>, lo: nat, mid: nat, hi: nat)
    requires Flows(nodes, known, lo, mid) && mid <= hi && LooksUp(node, known + Defs(nodes))
    requires Introduces(node).Some? ==> mid <= Introduces(node).value < hi
    ensures Flows(nodes + [node], known, lo, hi)
    ensures Defs(nodes + [node]) == Defs(nodes) + if ResultOf(node).Some? then {ResultOf(node).value.index} else {}
  {
    assert (nodes + [node])[..|nodes + [node]| - 1] == nodes;
    FlowsWider(nodes, known, lo, mid, known, lo, if Introduces(node).Some? then Introduces(node).value else hi);
  }

  // ----- expressions -----

  /** Nodes that only compute or store: what expressions without comparisons consist of. */
  predicate Computing(node: Node) {
    match node
    case ImmediateNode(_, _) => true
    case BinaryNode(op, _, _, _) => !op.Modulo?
    case UnaryNode(_, _, _) => true
    case ConvertNode(_, _, _) => true
    case PointerConvertNode(_, _) => true
    case LoadNode(_, _) => true
    case DerefNode(_, _) => true
    case AddressOfNode(_, _) => true
    case StoreNode(_, _) => true
    case StoreIntegerNode(_, _) => true
    case IndirectStoreNode(_, _) => true
    case _ => false
  }

  predicate AllComputing(nodes: seq<Node>) {
    forall i :: 0 <= i < |nodes| ==> Computing(nodes[i])
  }

  /** Expressions that the code generator can translate: no modulo, and no comparison, as its result
      is only good for a branch. */
  predicate Translatable(e: Expression) {
    match e
    case Binary(op, left, right, _) => !op.Modulo? && Translatable(left) && Translatable(right)
    case Unary(_, operand, _) => Translatable(operand)
    case Convert(operand, _) => Translatable(operand)
    case PointerConversion(operand, _) => Translatable(operand)
    case AddressOf(operand, _) => Translatable(operand)
    case Dereference(operand, _) => Translatable(operand)
    case Compare(_, _, _, _) => false
    case Compound(op, left, right, _) => !op.Modulo? && Translatable(left) && Translatable(right)
    case Assign(left, right, _) => Translatable(left) && Translatable(right)
    case PostStep(_, operand, _, _) => Translatable(operand)
    case _ => true
  }

  /** The registers variables live in. */
  function Homes(names: map<string, nat>): set<nat> {
    set name | name in names :: names[name]
  }

  ghost predicate Shaped(l: Lowered, known: set<nat>, next: nat) {
    l.result.Some? && l.result.value in known + Defs(l.nodes)
    && Flows(l.nodes, known, next, l.next) && AllComputing(l.nodes)
  }

  lemma ShapedInto(l: Lowered, node: Node, known: set<nat>, next: nat)
    requires Flows(l.nodes, known, next, l.next) && AllComputing(l.nodes) && Computing(node)
    requires ResultOf(node).Some? && ResultOf(node).value.index == l.next && LooksUp(node, known + Defs(l.nodes))
    ensures Shaped(l.Into(node), known, next)
    ensures Defs(l.Into(node).nodes) == Defs(l.nodes) + {l.next}
  {
    FlowsThen(l.nodes, node, known, next, l.next, l.next + 1);
  }

  lemma ShapedThen(l: Lowered, node: Node, result: nat, known: set<nat>, next: nat)
    requires Flows(l.nodes, known, next, l.next) && AllComputing(l.nodes) && Computing(node)
    requires Introduces(node).None? && ResultOf(node).None? && LooksUp(node, known + Defs(l.nodes))
    requires result in known + Defs(l.nodes)
    ensures Shaped(l.Then(node, Some(result)), known, next)
  {
    FlowsThen(l.nodes, node, known, next, l.next, l.next);
  }

  lemma ShapedBoth(a: Lowered, b: Lowered, known: set<nat>, next: nat)
    requires Shaped(a, known, next) && Shaped(b, known, a.next)
    ensures Shaped(b.After(a), known, next) && a.result.value in known + Defs(b.After(a).nodes)
  {
    FlowsWider(b.nodes, known, a.next, b.next, known + Defs(a.nodes), a.next, b.next);
    FlowsConcat(a.nodes, b.nodes, known, next, a.next, b.next);
  }

  lemma ShapedRead(l: Lowered, e: Expression, width: nat, slot: nat, known: set<nat>, next: nat)
    requires Flows(l.nodes, known, next, l.next) && AllComputing(l.nodes) && slot in known + Defs(l.nodes)
    ensures var read := l.Into(SlotRead(e, Register(l.next, width), slot));
            Shaped(read, known, next) && Defs(read.nodes) == Defs(l.nodes) + {l.next}
  {
    ShapedInto(l, SlotRead(e, Register(l.next, width), slot), known, next);
  }

  lemma ShapedOperation(l: Lowered, op: BinaryOperator, width: nat, left: nat, right: nat, known: set<nat>, next: nat)
    requires Flows(l.nodes, known, next, l.next) && AllComputing(l.nodes) && !op.Modulo?
    requires left in known + Defs(l.nodes) && right in known + Defs(l.nodes)
    ensures var computed := l.Into(BinaryNode(op, Register(l.next, width), left, right));
            Shaped(computed, known, next) && Defs(computed.nodes) == Defs(l.nodes) + {l.next}
  {
    ShapedInto(l, BinaryNode(op, Register(l.next, width), left, right), known, next);
  }

  lemma ShapedWrite(l: Lowered, e: Expression, slot: nat, source: nat, result: nat, known: set<nat>, next: nat)
    requires Flows(l.nodes, known, next, l.next) && AllComputing(l.nodes)
    requires slot in known + Defs(l.nodes) && source in known + Defs(l.nodes) && result in known + Defs(l.nodes)
    ensures Shaped(l.Then(SlotWrite(e, slot, source), Some(result)), known, next)
  {
    ShapedThen(l, SlotWrite(e, slot, source), result, known, next);
  }

  lemma ShapedUpdated(e: Expression, slot: nat, l: Lowered, op: BinaryOperator, operand: nat, known: set<nat>, next: nat)
    requires e.Compound? && !op.Modulo? && Flows(l.nodes, known, next, l.next) && AllComputing(l.nodes)
    requires slot in known + Defs(l.nodes) && operand in known + Defs(l.nodes)
    ensures Shaped(Updated(e, slot, l, op, operand), known, next)
  {
    var read := l.Into(SlotRead(e.left, Register(l.next, e.left.Width()), slot));
    ShapedRead(l, e.left, e.left.Width(), slot, known, next);
    ShapedOperation(read, op, e.Width(), l.next, operand, known, next);
    ShapedWrite(read.Into(BinaryNode(op, Register(read.next, e.Width()), l.next, operand)), e.left, slot, read.next,
                read.next, known, next);
  }

  lemma ShapedStepped(e: Expression, slot: nat, l: Lowered, known: set<nat>, next: nat)
    requires e.PostStep? && Flows(l.nodes, known, next, l.next) && AllComputing(l.nodes)
    requires slot in known + Defs(l.nodes)
    ensures Shaped(Stepped(e, slot, l), known, next)
  {
    var op := StepOperator(e.decrement);
    var read := l.Into(SlotRead(e.operand, Register(l.next, e.operand.Width()), slot));
    ShapedRead(l, e.operand, e.operand.Width(), slot, known, next);
    var one := read.Into(ImmediateNode(Register(read.next, e.Width()), e.step));
    ShapedInto(read, ImmediateNode(Register(read.next, e.Width()), e.step), known, next);
    ShapedOperation(one, op, e.Width(), l.next, read.next, known, next);
    ShapedWrite(one.Into(BinaryNode(op, Register(one.next, e.Width()), l.next, read.next)), e.operand, slot, one.next,
                l.next, known, next);
  }

  lemma NothingShaped(known: set<nat>, next: nat)
    ensures Flows([], known, next, next) && AllComputing([])
  {
  }

  lemma LeafShape(names: map<string, nat>, e: Expression, next: nat)
    requires (e.Literal? || e.LoadVariable? || e.Variable?) && Resolved(names.Keys, e)
    ensures Shaped(Lower(names, e, next), Homes(names), next)
  {
    var nothing := Lowered([], next, None, 0);
    NothingShaped(Homes(names), next);
    match e
    case Literal(value, _) => ShapedInto(nothing, ImmediateNode(Register(next, e.Width()), value), Homes(names), next);
    case LoadVariable(name, _) => ShapedInto(nothing, LoadNode(Register(next, e.Width()), names[name]), Homes(names), next);
    case Variable(name, _) =>
  }

  lemma BinaryShape(names: map<string, nat>, e: Expression, next: nat)
    requires e.Binary? && !e.binary.Modulo?
    requires var a := Loaded(names, e.left, next);
             Shaped(a, Homes(names), next) && Shaped(Loaded(names, e.right, a.next), Homes(names), a.next)
    ensures Shaped(Lower(names, e, next), Homes(names), next)
  {
    var a := Loaded(names, e.left, next);
    var b := Loaded(names, e.right, a.next);
    ShapedBoth(a, b, Homes(names), next);
    ShapedOperation(b.After(a), e.binary, e.Width(), a.result.value, b.result.value, Homes(names), next);
  }

  lemma AssignmentShape(names: map<string, nat>, e: Expression, next: nat)
    requires e.Assign? || (e.Compound? && !e.binary.Modulo?)
    requires var slot := Slot(names, e.left, next);
             Shaped(slot, Homes(names), next) && Shaped(Loaded(names, e.right, slot.next), Homes(names), slot.next)
    ensures Shaped(Lower(names, e, next), Homes(names), next)
  {
    hide Slot, Loaded, Flows, AllComputing, Defs;
    var slot := Slot(names, e.left, next);
    var b := Loaded(names, e.right, slot.next);
    ShapedBoth(slot, b, Homes(names), next);
    if e.Compound? {
      ShapedUpdated(e, slot.result.value, b.After(slot), e.binary, b.result.value, Homes(names), next);
    } else {
      ShapedWrite(b.After(slot), e.left, slot.result.value, b.result.value,
                  if e.left.Dereference? then b.result.value else slot.result.value, Homes(names), next);
    }
  }

  /** Every lowered expression introduces its registers in order and uses only what is known. */
  lemma {:induction false} LoweredShape(names: map<string, nat>, e: Expression, next: nat)
    requires Resolved(names.Keys, e) && Translatable(e)
    ensures Shaped(Lower(names, e, next), Homes(names), next)
    decreases e, 1
  {
    if e.Binary? {
      LoadedShape(names, e.left, next);
      LoadedShape(names, e.right, Loaded(names, e.left, next).next);
      BinaryShape(names, e, next);
    } else if e.Assign? || e.Compound? {
      SlotShape(names, e.left, next);
      LoadedShape(names, e.right, Slot(names, e.left, next).next);
      AssignmentShape(names, e, next);
    } else if e.PostStep? {
      var slot := Slot(names, e.operand, next);
      SlotShape(names, e.operand, next);
      ShapedStepped(e, slot.result.value, slot, Homes(names), next);
    } else if e.Literal? || e.LoadVariable? || e.Variable? {
      LeafShape(names, e, next);
    } else {
      OneShape(names, e, next);
    }
  }

  lemma {:induction false} OneShape(names: map<string, nat>, e: Expression, next: nat)
    requires Resolved(names.Keys, e) && Translatable(e)
    requires e.Unary? || e.Convert? || e.PointerConversion? || e.AddressOf? || e.Dereference?
    ensures Shaped(Lower(names, e, next), Homes(names), next)
    decreases e, 0
  {
    hide Flows, AllComputing, Defs;
    var known := Homes(names);
    if e.AddressOf? && e.operand.Dereference? {
      LoadedShape(names, e.operand.operand, next);
    } else if e.AddressOf? || (e.PointerConversion? && e.type_ != e.operand.TypeOf()) {
      LoweredShape(names, e.operand, next);
      var a := Lower(names, e.operand, next);
      var register := Register(a.next, e.Width());
      ShapedInto(a, if e.AddressOf? then AddressOfNode(register, a.result.value)
                    else PointerConvertNode(register, a.result.value), known, next);
    } else {
      LoadedShape(names, e.operand, next);
      var a := Loaded(names, e.operand, next);
      var register := Register(a.next, e.Width());
      match e
      case Unary(op, _, _) => ShapedInto(a, UnaryNode(op, register, a.result.value), known, next);
      case Convert(operand, target) =>
        ShapedInto(a, ConvertNode(ConversionBetween(operand.TypeOf(), target), register, a.result.value), known, next);
      case Dereference(_, _) => ShapedInto(a, DerefNode(register, a.result.value), known, next);
      case _ =>
    }
  }

  lemma {:induction false} LoadedShape(names: map<string, nat>, e: Expression, next: nat)
    requires Resolved(names.Keys, e) && Translatable(e)
    ensures Shaped(Loaded(names, e, next), Homes(names), next)
    decreases e, 2
  {
    hide Lower, Resolved, Translatable, Flows, AllComputing;
    LoweredShape(names, e, next);
    if NeedsLoad(e) {
      var l := Lower(names, e, next);
      ShapedInto(l, LoadNode(Register(l.next, e.Width()), l.result.value), Homes(names), next);
    }
  }

  lemma {:induction false} SlotShape(names: map<string, nat>, e: Expression, next: nat)
    requires Resolved(names.Keys, e) && Translatable(e)
    ensures Shaped(Slot(names, e, next), Homes(names), next)
    decreases e, 2
  {
    if e.Dereference? {
      LoadedShape(names, e.operand, next);
    } else {
      LoweredShape(names, e, next);
    }
  }
}
