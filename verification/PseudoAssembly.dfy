/** From SSA nodes to virtual instructions. `ParseNode` below says what the translation of one
    node does to the whole parsing context, on every path including the failing ones; the classes
    do it in place. */
module PseudoAssembly {
  import opened Options
  import opened VirtualCode
  import opened AllocationMaps
  import opened Ssa
  import opened ControlFlowRewrites
  import opened Cleanup = ControlFlowCleanup

  // ----- the state -----

  datatype RegisterData = RegisterData(useCount: int, width: nat, allocationClass: AllocationClass, alignment: nat)

  const NO_DATA := RegisterData(0, 0, AllocationClass.Temporary, 1)

  datatype PendingCompare = PendingCompare(
    resultSsa: nat, lhsSsa: nat, rhsSsa: nat, lhsVirtual: nat, rhsVirtual: nat, cc: ConditionCode)

  /** One map of register data serves two keys: use counts by SSA index, and widths, classes and
      alignments by virtual index. */
  datatype Context = Context(
    instructions: seq<VirtualInstruction>,
    allocations: Allocations,
    registers: map<nat, RegisterData>,
    labelIds: map<string, nat>,
    nextLabelId: nat,
    definedLabels: set<nat>,
    gotoReferences: set<nat>,
    functionUsage: seq<nat>,
    pending: Option<PendingCompare>,
    errors: nat)

  function Data(registers: map<nat, RegisterData>, r: nat): RegisterData {
    if r in registers then registers[r] else NO_DATA
  }

  function UseCount(c: Context, r: nat): int {
    Data(c.registers, r).useCount
  }

  // ----- counting references in advance -----

  /** The registers a node is counted as using. */
  function References(node: Node): seq<nat> {
    match node
    case BinaryNode(_, _, left, right) => [left, right]
    case UnaryNode(_, _, operand) => [operand]
    case ConvertNode(_, _, operand) => [operand]
    case PointerConvertNode(_, operand) => [operand]
    case DecayNode(_, operand) => [operand]
    case LoadNode(_, operand) => [operand]
    case DerefNode(_, operand) => [operand]
    case AddressOfNode(result, operand) => [result.index, operand]
    case StoreNode(target, source) => [target, source]
    case StoreIntegerNode(target, _) => [target]
    case IndirectStoreNode(target, source) => [target, source]
    case CallNode(_, _, arguments) => arguments
    case CompareNode(_, _, left, right) => [left, right]
    case BranchNode(condition, _, _) => [condition]
    case ReturnNode(Some(operand)) => [operand]
    case _ => []
  }

  function Reference(registers: map<nat, RegisterData>, r: nat): map<nat, RegisterData> {
    registers[r := Data(registers, r).(useCount := Data(registers, r).useCount + 1)]
  }

  function ReferenceAll(registers: map<nat, RegisterData>, rs: seq<nat>): map<nat, RegisterData> {
    if rs == [] then registers else Reference(ReferenceAll(registers, rs[..|rs| - 1]), rs[|rs| - 1])
  }

  function CreateReferenceMap(registers: map<nat, RegisterData>, body: seq<Node>): map<nat, RegisterData> {
    if body == [] then registers
    else ReferenceAll(CreateReferenceMap(registers, body[..|body| - 1]), References(body[|body| - 1]))
  }

  // ----- one node -----

  function ToConditionCode(c: Comparison): ConditionCode {
    match c
    case IsEqual => ConditionCode.Equal
    case IsNotEqual => ConditionCode.NotEqual
    case SignedLess => ConditionCode.Less
    case SignedLessEqual => ConditionCode.LessEqual
    case SignedGreater => ConditionCode.Greater
    case SignedGreaterEqual => ConditionCode.GreaterEqual
    case UnsignedLess => ConditionCode.Below
    case UnsignedLessEqual => ConditionCode.BelowEqual
    case UnsignedGreater => ConditionCode.Above
    case UnsignedGreaterEqual => ConditionCode.AboveEqual
  }

  function Invert(c: ConditionCode): ConditionCode {
    match c
    case Equal => NotEqual
    case NotEqual => Equal
    case Less => GreaterEqual
    case LessEqual => Greater
    case Greater => LessEqual
    case GreaterEqual => Less
    case Below => AboveEqual
    case BelowEqual => Above
    case Above => BelowEqual
    case AboveEqual => Below
  }

  function BinaryOpcode(op: BinaryOperator): Opcode
    requires !op.Modulo?
  {
    match op
    case Addition => Add
    case Subtraction => Sub
    case Times => Multiplication
    case Divide => Division
    case ShiftLeft => LeftShift
    case ShiftRight => RightShift
    case Or => BinaryOr
    case And => BinaryAnd
    case Xor => BinaryXor
  }

  function UnaryOpcode(op: UnaryOperator): Opcode {
    match op
    case Complement => BitwiseNot
    case Negation => ArithmeticNegate
  }

  function ConversionOpcode(c: Conversion): Opcode {
    match c
    case ToReinterpret => Reinterpret
    case ToZeroExtension => ZeroExtension
    case ToSignExtension => SignExtension
    case ToSignExtendAndReinterpret => SignExtendAndReinterpret
    case ToZeroExtendAndReinterpret => ZeroExtendAndReinterpret
    case ToTruncate => Truncate
  }

  predicate Found(c: Context, rs: seq<nat>) {
    forall i :: 0 <= i < |rs| ==> rs[i] in c.allocations.live
  }

  function Virtuals(c: Context, rs: seq<nat>): (vs: seq<nat>)
    requires Found(c, rs)
    ensures |vs| == |rs| && forall i :: 0 <= i < |rs| ==> vs[i] == c.allocations.live[rs[i]]
  {
    if rs == [] then [] else [c.allocations.live[rs[0]]] + Virtuals(c, rs[1..])
  }

  function Fail(c: Context): Context {
    c.(errors := c.errors + 1)
  }

  function Emit(c: Context, instruction: VirtualInstruction): Context {
    c.(instructions := c.instructions + [instruction])
  }

  function Describe(registers: map<nat, RegisterData>, v: nat, width: nat, class_: AllocationClass)
    : map<nat, RegisterData>
  {
    registers[v := Data(registers, v).(width := width, allocationClass := class_)]
  }

  function Allocate(c: Context, ssa: nat, width: nat, class_: AllocationClass): Context {
    c.(allocations := c.allocations.Emplace(ssa, width, class_),
       registers := Describe(c.registers, |c.allocations.descriptors|, width, class_))
  }

  /** One counted use is over; the register is released with its last. */
  function Dereference(c: Context, r: nat): Context {
    var data := Data(c.registers, r).(useCount := UseCount(c, r) - 1);
    var counted := c.(registers := c.registers[r := data]);
    if data.useCount == 0 then counted.(allocations := c.allocations.Release(r)) else counted
  }

  function DereferenceAll(c: Context, rs: seq<nat>): Context
    decreases |rs|
  {
    if rs == [] then c else DereferenceAll(Dereference(c, rs[0]), rs[1..])
  }

  /** The common shape: look the operands up, allocate the result, end the operands' uses. */
  function Compute(c: Context, opcode: Opcode, result: nat, width: nat, operands: seq<nat>): Context {
    if !Found(c, operands) then Fail(c)
    else
      Emit(DereferenceAll(Allocate(c, result, width, AllocationClass.Temporary), operands),
           Plain(opcode, [|c.allocations.descriptors|] + Virtuals(c, operands)))
  }

  /** The other shape: allocate the result first, and leave the operand's count alone. */
  function Locate(c: Context, opcode: Opcode, result: Register, operand: nat): Context {
    var holding := Allocate(c, result.index, result.width, AllocationClass.Temporary);
    if !Found(holding, [operand]) then Fail(holding)
    else Emit(holding, Plain(opcode, [|c.allocations.descriptors|] + Virtuals(holding, [operand])))
  }

  function LabelId(c: Context, name: string): (named: Context)
    ensures name in named.labelIds
    ensures forall n :: n in c.labelIds ==> n in named.labelIds && named.labelIds[n] == c.labelIds[n]
  {
    if name in c.labelIds then c
    else c.(labelIds := c.labelIds[name := c.nextLabelId], nextLabelId := c.nextLabelId + 1)
  }

  function PassArguments(c: Context, function_: nat, arguments: seq<nat>, next: nat): (Context, bool)
    decreases |arguments|
  {
    if arguments == [] then (c, true)
    else if !Found(c, [arguments[0]]) then (c, false)
    else
      PassArguments(Emit(c, Plain(PassArgument, [function_] + Virtuals(c, [arguments[0]]) + [next])),
                    function_, arguments[1..], next + 1)
  }

  function IndexIn(s: seq<nat>, x: nat): nat {
    if s == [] || s[0] == x then 0 else 1 + IndexIn(s[1..], x)
  }

  /** The first place of an element, or the end. */
  lemma {:induction false} IndexFinds(s: seq<nat>, x: nat)
    ensures IndexIn(s, x) <= |s| && (IndexIn(s, x) < |s| <==> x in s)
    ensures IndexIn(s, x) < |s| ==> s[IndexIn(s, x)] == x
    decreases |s|
  {
    if s != [] {
      IndexFinds(s[1..], x);
    }
  }

  function UseFunction(c: Context, callee: nat): Context {
    if callee in c.functionUsage then c else c.(functionUsage := c.functionUsage + [callee])
  }

  function ParseCall(c: Context, node: Node): Context
    requires node.CallNode?
  {
    var index := IndexIn(c.functionUsage, node.callee);
    var (passed, ok) := PassArguments(UseFunction(c, node.callee), index, node.arguments, 0);
    if !ok then Fail(passed)
    else if node.callResult.None? then Emit(passed, Plain(Call, [index]))
    else
      Emit(Allocate(passed, node.callResult.value.index, node.callResult.value.width, AllocationClass.Temporary),
           Plain(CallWithResult, [|passed.allocations.descriptors|, index]))
  }

  function ParseCompare(c: Context, node: Node): Context
    requires node.CompareNode?
  {
    if !Found(c, [node.left, node.right]) then Fail(c)
    else
      var vs := Virtuals(c, [node.left, node.right]);
      c.(pending := Some(PendingCompare(node.result.index, node.left, node.right, vs[0], vs[1],
                                        ToConditionCode(node.comparison))))
  }

  /** A branch is emitted from the comparison just before it: jump away on the opposite condition,
      then jump to the true label. */
  function ParseBranch(c: Context, node: Node): Context
    requires node.BranchNode?
  {
    var idle := c.(pending := None);
    if c.pending.None? || c.pending.value.resultSsa != node.condition then Fail(idle)
    else
      var p := c.pending.value;
      var named := LabelId(LabelId(idle, node.trueLabel), node.falseLabel);
      var released := DereferenceAll(named, [p.lhsSsa, p.rhsSsa]);
      Emit(Emit(released, CompareAndJump(p.lhsVirtual, p.rhsVirtual, Invert(p.cc), named.labelIds[node.falseLabel])),
           UnconditionalJump(named.labelIds[node.trueLabel]))
  }

  function ParseLabel(c: Context, name: string): Context {
    var named := LabelId(c, name);
    var id := named.labelIds[name];
    if id in named.definedLabels then Fail(named)
    else Emit(named.(definedLabels := named.definedLabels + {id}), Label(id))
  }

  function ParseGoto(c: Context, name: string): Context {
    var named := LabelId(c, name);
    var id := named.labelIds[name];
    Emit(named.(gotoReferences := named.gotoReferences + {id}), UnconditionalJump(id))
  }

  function DescribedWidth(c: Context, r: nat): nat {
    if r in c.allocations.live && c.allocations.live[r] < |c.allocations.descriptors|
    then c.allocations.descriptors[c.allocations.live[r]].width
    else 0
  }

  function ParseChecked(c: Context, node: Node): Context {
    match node
    case AllocationNode(register) =>
      Allocate(c, register.index, register.width, AllocationClass.Allocation)
    case ParameterNode(scope, register, index) =>
      if !Found(c, [register.index]) then Fail(c)
      else
        Emit(UseFunction(c, scope),
             Plain(CopyParameter, [IndexIn(c.functionUsage, scope)] + Virtuals(c, [register.index]) + [index]))
    case ImmediateNode(result, value) =>
      Emit(Allocate(c, result.index, result.width, AllocationClass.Temporary),
           Plain(CopyInteger, [|c.allocations.descriptors|, value]))
    case BinaryNode(op, result, left, right) =>
      if op.Modulo? then Fail(c)
      else
        Compute(c, BinaryOpcode(op), result.index, DescribedWidth(c, left), [left, right])
    case UnaryNode(op, result, operand) =>
      Compute(c, UnaryOpcode(op), result.index, DescribedWidth(c, operand), [operand])
    case ConvertNode(conversion, result, operand) =>
      Compute(c, ConversionOpcode(conversion), result.index, result.width, [operand])
    case PointerConvertNode(result, operand) => Compute(c, Copy, result.index, result.width, [operand])
    case DecayNode(result, operand) => Compute(c, AddressOf, result.index, result.width, [operand])
    case LoadNode(result, operand) => Compute(c, Copy, result.index, result.width, [operand])
    case DerefNode(result, operand) => Locate(c, Indirection, result, operand)
    case AddressOfNode(result, operand) => Locate(c, AddressOf, result, operand)
    case StoreNode(target, source) =>
      if !Found(c, [source, target]) then Fail(c)
      else Emit(DereferenceAll(c, [source, target]), Plain(Copy, Virtuals(c, [target, source])))
    case StoreIntegerNode(target, value) =>
      if !Found(c, [target]) then Fail(c) else Emit(c, Plain(CopyInteger, Virtuals(c, [target]) + [value]))
    case IndirectStoreNode(target, source) =>
      if !Found(c, [target, source]) then Fail(c)
      else Emit(DereferenceAll(c, [target, source]), Plain(IndirectStore, Virtuals(c, [target, source])))
    case CallNode(_, _, _) => ParseCall(c, node)
    case CompareNode(_, _, _, _) => ParseCompare(c, node)
    case BranchNode(_, _, _) => ParseBranch(c, node)
    case LabelNode(name) => ParseLabel(c, name)
    case GotoNode(name) => ParseGoto(c, name)
    case ReturnNode(None) => Emit(c, Return([]))
    case ReturnNode(Some(operand)) =>
      if !Found(c, [operand]) then Fail(c)
      else Emit(DereferenceAll(c, [operand]), Return(Virtuals(c, [operand])))
  }

  /** A comparison is good only for a branch that directly follows it. */
  function ParseNode(c: Context, node: Node): Context {
    if c.pending.Some? && !node.BranchNode? then ParseChecked(Fail(c.(pending := None)), node)
    else ParseChecked(c, node)
  }

  /** The register a node introduces with a virtual register of its own. */
  function ResultOf(node: Node): Option<Register> {
    match node
    case AllocationNode(register) => Some(register)
    case ImmediateNode(result, _) => Some(result)
    case BinaryNode(op, result, _, _) => if op.Modulo? then None else Some(result)
    case UnaryNode(_, result, _) => Some(result)
    case ConvertNode(_, result, _) => Some(result)
    case PointerConvertNode(result, _) => Some(result)
    case DecayNode(result, _) => Some(result)
    case LoadNode(result, _) => Some(result)
    case DerefNode(result, _) => Some(result)
    case AddressOfNode(result, _) => Some(result)
    case CallNode(result, _, _) => result
    case _ => None
  }

  /** What every allocation demands: the register is not in use yet. */
  ghost predicate Allocatable(c: Context, node: Node) {
    |c.allocations.descriptors| < INVALID_INDEX
    && (ResultOf(node).Some? ==>
          ResultOf(node).value.index < INVALID_INDEX && ResultOf(node).value.index !in c.allocations.live)
  }

  lemma StaysAllocatable(c: Context, node: Node)
    ensures Allocatable(c, node) ==> Allocatable(Fail(c.(pending := None)), node)
  {
  }

  // ----- in place -----

  /** The target's register map. */
  class VirtualRegisterMap {
    var registers: map<nat, RegisterData>

    constructor ()
      ensures registers == map[]
    {
      registers := map[];
    }

    method Reset()
      modifies this
      ensures registers == map[]
    {
      registers := map[];
    }

    method ReferenceRegister(r: nat)
      modifies this
      ensures registers == Reference(old(registers), r)
    {
      var data := Data(registers, r);
      registers := registers[r := data.(useCount := data.useCount + 1)];
    }

    method DereferenceRegister(r: nat) returns (left: int)
      modifies this
      ensures left == Data(old(registers), r).useCount - 1
      ensures registers == old(registers)[r := Data(old(registers), r).(useCount := left)]
    {
      var data := Data(registers, r);
      left := data.useCount - 1;
      registers := registers[r := data.(useCount := left)];
    }

    method DescribeRegister(v: nat, width: nat, class_: AllocationClass)
      modifies this
      ensures registers == Describe(old(registers), v, width, class_)
    {
      registers := registers[v := Data(registers, v).(width := width, allocationClass := class_)];
    }
  }

  /** The uses of a body are counted node by node, before any is translated. */
  method CountReferences(target: VirtualRegisterMap, body: seq<Node>)
    modifies target
    ensures target.registers == CreateReferenceMap(old(target.registers), body)
  {
    ghost var start := target.registers;
    for i := 0 to |body|
      invariant target.registers == CreateReferenceMap(start, body[..i])
    {
      var rs := References(body[i]);
      ghost var before := target.registers;
      for j := 0 to |rs|
        invariant target.registers == ReferenceAll(before, rs[..j])
      {
        target.ReferenceRegister(rs[j]);
        assert rs[..j + 1][..j] == rs[..j];
      }
      assert rs[..|rs|] == rs;
      assert body[..i + 1][..i] == body[..i];
    }
    assert body[..|body|] == body;
  }

  /** Every pass found something to do, changed the code, and did not lengthen it. */
  ghost predicate Progresses(trail: seq<seq<VirtualInstruction>>) {
    forall k :: 0 <= k < |trail| - 1 ==> !Tidy(trail[k]) && trail[k] != trail[k + 1] && |trail[k + 1]| <= |trail[k]|
  }

  lemma ProgressesFrom(code: seq<VirtualInstruction>)
    ensures Progresses([code])
  {
  }

  lemma ProgressesOn(trail: seq<seq<VirtualInstruction>>, code: seq<VirtualInstruction>)
    requires Progresses(trail) && trail != []
    requires var last := trail[|trail| - 1]; !Tidy(last) && last != code && |code| <= |last|
    ensures Progresses(trail + [code])
  {
    hide Tidy;
  }

  class ParsingContext {
    var instructions: seq<VirtualInstruction>
    var labelIds: map<string, nat>
    var nextLabelId: nat
    var definedLabels: set<nat>
    var gotoReferences: set<nat>
    var functionUsageTable: seq<nat>
    var pendingCompare: Option<PendingCompare>
    var errors: nat
    const allocationMap: AllocationMap
    const target: VirtualRegisterMap

    ghost predicate Valid()
      reads this, allocationMap
    {
      allocationMap.Valid()
      && (pendingCompare.Some? ==>
            Reached(pendingCompare.value.lhsSsa) && Reached(pendingCompare.value.rhsSsa))
    }

    /** The allocation window covers the register, as releasing it demands. */
    ghost predicate Reached(r: nat)
      reads this, allocationMap
    {
      r < |allocationMap.descriptorArrayWindow|
    }

    ghost function View(): Context
      reads this, allocationMap, target
    {
      Context(instructions, allocationMap.View(), target.registers, labelIds, nextLabelId,
              definedLabels, gotoReferences, functionUsageTable, pendingCompare, errors)
    }

    constructor (target: VirtualRegisterMap)
      ensures Valid() && fresh(allocationMap) && this.target == target
      ensures View() == Context([], NO_ALLOCATIONS, target.registers, map[], 0, {}, {}, [], None, 0)
    {
      instructions, labelIds, nextLabelId, definedLabels, gotoReferences := [], map[], 0, {}, {};
      functionUsageTable, pendingCompare, errors := [], None, 0;
      allocationMap := new AllocationMap();
      this.target := target;
    }

    method CallFunctionIndex(callee: nat) returns (index: nat)
      modifies this`functionUsageTable
      ensures index == IndexIn(old(functionUsageTable), callee)
      ensures functionUsageTable == UseFunction(old(View()), callee).functionUsage
      ensures old(functionUsageTable) <= functionUsageTable
      ensures index < |functionUsageTable| && functionUsageTable[index] == callee
    {
      index := 0;
      while index < |functionUsageTable| && functionUsageTable[index] != callee
        invariant index <= |functionUsageTable| && functionUsageTable == old(functionUsageTable)
        invariant callee !in functionUsageTable[..index]
        invariant IndexIn(functionUsageTable, callee) == index + IndexIn(functionUsageTable[index..], callee)
      {
        assert functionUsageTable[index..][1..] == functionUsageTable[index + 1..];
        index := index + 1;
      }
      if index == |functionUsageTable| {
        assert functionUsageTable[..index] == functionUsageTable;
        functionUsageTable := functionUsageTable + [callee];
      }
    }

    method AllocateVirtual(ssaIndex: nat, width: nat, class_: AllocationClass) returns (virtualIndex: nat)
      requires Valid() && ssaIndex !in View().allocations.live
      requires ssaIndex < INVALID_INDEX && |View().allocations.descriptors| < INVALID_INDEX
      modifies allocationMap, target
      ensures Valid() && View() == Allocate(old(View()), ssaIndex, width, class_)
      ensures virtualIndex == |old(View()).allocations.descriptors|
      ensures forall r: nat :: old(Reached(r)) ==> Reached(r)
    {
      virtualIndex := allocationMap.EmplaceAllocate(ssaIndex, width, class_);
      target.DescribeRegister(virtualIndex, width, class_);
    }

    method DereferenceSSA(ssaIndex: nat)
      requires Valid() && Reached(ssaIndex)
      modifies allocationMap, target
      ensures Valid() && View() == Dereference(old(View()), ssaIndex)
      ensures forall r: nat :: old(Reached(r)) ==> Reached(r)
    {
      var left := target.DereferenceRegister(ssaIndex);
      if left != 0 {
        return;
      }
      allocationMap.ReleaseSSA(ssaIndex);
    }

    /** The lookups a node starts with; each one that fails ends the node. */
    method FindVirtuals(rs: seq<nat>) returns (found: bool, vs: seq<nat>)
      requires Valid()
      ensures found <==> Found(View(), rs)
      ensures found ==> vs == Virtuals(View(), rs) && forall i :: 0 <= i < |rs| ==> Reached(rs[i])
    {
      vs := [];
      for i := 0 to |rs|
        invariant |vs| == i
        invariant forall j :: 0 <= j < i ==>
                    rs[j] in View().allocations.live && vs[j] == View().allocations.live[rs[j]]
      {
        var v;
        found, v := allocationMap.FindVirtualBySSA(rs[i]);
        if !found {
          return false, [];
        }
        vs := vs + [v];
      }
      found := true;
    }

    method Push(instruction: VirtualInstruction)
      modifies this`instructions
      ensures View() == Emit(old(View()), instruction)
      ensures old(Valid()) ==> Valid()
    {
      instructions := instructions + [instruction];
    }

    method Report()
      modifies this`errors
      ensures View() == Fail(old(View()))
      ensures old(Valid()) ==> Valid()
    {
      errors := errors + 1;
    }

    method DereferenceSSAs(rs: seq<nat>)
      requires Valid() && forall i :: 0 <= i < |rs| ==> Reached(rs[i])
      modifies allocationMap, target
      ensures Valid() && View() == DereferenceAll(old(View()), rs)
      decreases |rs|
    {
      if rs != [] {
        DereferenceSSA(rs[0]);
        DereferenceSSAs(rs[1..]);
      }
    }

    /** Look up, allocate, dereference, emit: the body shared by the arithmetic, conversion and
        load nodes. */
    method ParseComputation(opcode: Opcode, result: nat, width: nat, operands: seq<nat>)
      requires Valid() && result !in View().allocations.live
      requires result < INVALID_INDEX && |View().allocations.descriptors| < INVALID_INDEX
      modifies this, allocationMap, target
      ensures Valid() && View() == Compute(old(View()), opcode, result, width, operands)
    {
      hide Found, Virtuals, DereferenceAll, Fail, Emit;
      var found, vs := FindVirtuals(operands);
      if !found {
        Report();
        return;
      }
      var v := AllocateVirtual(result, width, AllocationClass.Temporary);
      DereferenceSSAs(operands);
      Push(Plain(opcode, [v] + vs));
    }

    /** Allocate first, then look up, as the address-of and dereference nodes do. */
    method ParseLocation(opcode: Opcode, result: Register, operand: nat)
      requires Valid() && result.index !in View().allocations.live
      requires result.index < INVALID_INDEX && |View().allocations.descriptors| < INVALID_INDEX
      modifies this, allocationMap, target
      ensures Valid() && View() == Locate(old(View()), opcode, result, operand)
    {
      hide Describe;
      var v := AllocateVirtual(result.index, result.width, AllocationClass.Temporary);
      var found, vs := FindVirtuals([operand]);
      if !found {
        Report();
        return;
      }
      Push(Plain(opcode, [v] + vs));
    }

    method WidthOf(r: nat) returns (width: nat)
      requires Valid()
      ensures width == DescribedWidth(View(), r)
    {
      var found, descriptor := allocationMap.GetDescriptorFromSSA(r);
      width := if found then descriptor.width else 0;
    }

    method ParseBinaryNode(node: Node)
      requires Valid() && node.BinaryNode? && Allocatable(View(), node)
      modifies this, allocationMap, target
      ensures Valid() && View() == ParseChecked(old(View()), node)
    {
      if node.binary.Modulo? {
        Report();
        return;
      }
      var width := WidthOf(node.left);
      ParseComputation(BinaryOpcode(node.binary), node.result.index, width, [node.left, node.right]);
    }

    method ParseUnaryNode(node: Node)
      requires Valid() && node.UnaryNode? && Allocatable(View(), node)
      modifies this, allocationMap, target
      ensures Valid() && View() == ParseChecked(old(View()), node)
    {
      var width := WidthOf(node.operand);
      ParseComputation(UnaryOpcode(node.unary), node.result.index, width, [node.operand]);
    }

    method ParseConvertNode(node: Node)
      requires Valid() && node.ConvertNode? && Allocatable(View(), node)
      modifies this, allocationMap, target
      ensures Valid() && View() == ParseChecked(old(View()), node)
    {
      ParseComputation(ConversionOpcode(node.conversion), node.result.index, node.result.width, [node.operand]);
    }

    method ParsePointerConvertNode(node: Node)
      requires Valid() && node.PointerConvertNode? && Allocatable(View(), node)
      modifies this, allocationMap, target
      ensures Valid() && View() == ParseChecked(old(View()), node)
    {
      ParseComputation(Copy, node.result.index, node.result.width, [node.operand]);
    }

    method ParseDecayNode(node: Node)
      requires Valid() && node.DecayNode? && Allocatable(View(), node)
      modifies this, allocationMap, target
      ensures Valid() && View() == ParseChecked(old(View()), node)
    {
      ParseComputation(AddressOf, node.result.index, node.result.width, [node.operand]);
    }

    method ParseLoadNode(node: Node)
      requires Valid() && node.LoadNode? && Allocatable(View(), node)
      modifies this, allocationMap, target
      ensures Valid() && View() == ParseChecked(old(View()), node)
    {
      ParseComputation(Copy, node.result.index, node.result.width, [node.operand]);
    }

    method ParseDereferenceNode(node: Node)
      requires Valid() && node.DerefNode? && Allocatable(View(), node)
      modifies this, allocationMap, target
      ensures Valid() && View() == ParseChecked(old(View()), node)
    {
      ParseLocation(Indirection, node.result, node.operand);
    }

    method ParseAddressOfNode(node: Node)
      requires Valid() && node.AddressOfNode? && Allocatable(View(), node)
      modifies this, allocationMap, target
      ensures Valid() && View() == ParseChecked(old(View()), node)
    {
      ParseLocation(AddressOf, node.result, node.operand);
    }

    method ParseAllocateNode(node: Node)
      requires Valid() && node.AllocationNode? && Allocatable(View(), node)
      modifies this, allocationMap, target
      ensures Valid() && View() == ParseChecked(old(View()), node)
    {
      var v := AllocateVirtual(node.register.index, node.register.width, AllocationClass.Allocation);
    }

    method ParseStoreNode(node: Node)
      requires Valid() && node.StoreNode?
      modifies this, allocationMap, target
      ensures Valid() && View() == ParseChecked(old(View()), node)
    {
      var found, vs := FindVirtuals([node.source, node.target]);
      if !found {
        Report();
        return;
      }
      DereferenceSSAs([node.source, node.target]);
      Push(Plain(Copy, [vs[1], vs[0]]));
      assert [vs[1], vs[0]] == Virtuals(old(View()), [node.target, node.source]);
    }

    method ParseIndirectStoreNode(node: Node)
      requires Valid() && node.IndirectStoreNode?
      modifies this, allocationMap, target
      ensures Valid() && View() == ParseChecked(old(View()), node)
    {
      var found, vs := FindVirtuals([node.target, node.source]);
      if !found {
        Report();
        return;
      }
      DereferenceSSAs([node.target, node.source]);
      Push(Plain(IndirectStore, vs));
    }

    method ParseStoreIntNode(node: Node)
      requires Valid() && node.StoreIntegerNode?
      modifies this
      ensures Valid() && View() == ParseChecked(old(View()), node)
    {
      var found, vs := FindVirtuals([node.target]);
      if !found {
        Report();
        return;
      }
      Push(Plain(CopyInteger, vs + [node.value]));
    }

    method ParseIntNode(node: Node)
      requires Valid() && node.ImmediateNode? && Allocatable(View(), node)
      modifies this, allocationMap, target
      ensures Valid() && View() == ParseChecked(old(View()), node)
    {
      var v := AllocateVirtual(node.result.index, node.result.width, AllocationClass.Temporary);
      Push(Plain(CopyInteger, [v, node.value]));
    }

    method ParseParameterStoreNode(node: Node)
      requires Valid() && node.ParameterNode?
      modifies this
      ensures Valid() && View() == ParseChecked(old(View()), node)
    {
      var found, vs := FindVirtuals([node.register.index]);
      if !found {
        Report();
        return;
      }
      var functionIndex := CallFunctionIndex(node.scope);
      Push(Plain(CopyParameter, [functionIndex] + vs + [node.index]));
    }

    /** One instruction for every argument, up to the first that is not found. */
    method PassAll(callIndex: nat, arguments: seq<nat>) returns (ok: bool)
      requires Valid()
      modifies this`instructions
      ensures Valid() && (View(), ok) == PassArguments(old(View()), callIndex, arguments, 0)
    {
      for next := 0 to |arguments|
        invariant Valid()
        invariant PassArguments(old(View()), callIndex, arguments, 0)
               == PassArguments(View(), callIndex, arguments[next..], next)
      {
        assert arguments[next..][1..] == arguments[next + 1..];
        var found, vs := FindVirtuals([arguments[next]]);
        if !found {
          return false;
        }
        Push(Plain(PassArgument, [callIndex] + vs + [next]));
      }
      ok := true;
    }

    method ParseCallNode(node: Node)
      requires Valid() && node.CallNode? && Allocatable(View(), node)
      modifies this, allocationMap, target
      ensures Valid() && View() == ParseChecked(old(View()), node)
    {
      var callIndex := CallFunctionIndex(node.callee);
      assert View() == UseFunction(old(View()), node.callee);
      var ok := PassAll(callIndex, node.arguments);
      if !ok {
        Report();
        return;
      }
      if node.callResult.Some? {
        var result := node.callResult.value;
        var v := AllocateVirtual(result.index, result.width, AllocationClass.Temporary);
        Push(Plain(CallWithResult, [v, callIndex]));
        return;
      }
      Push(Plain(Call, [callIndex]));
    }

    method ParseReturnNode(node: Node)
      requires Valid() && node.ReturnNode?
      modifies this, allocationMap, target
      ensures Valid() && View() == ParseChecked(old(View()), node)
    {
      if node.returned.None? {
        Push(Return([]));
        return;
      }
      var found, vs := FindVirtuals([node.returned.value]);
      if !found {
        Report();
        return;
      }
      DereferenceSSAs([node.returned.value]);
      Push(Return(vs));
    }

    method ParseCompareNode(node: Node)
      requires Valid() && node.CompareNode?
      modifies this
      ensures Valid() && View() == ParseChecked(old(View()), node)
    {
      var found, vs := FindVirtuals([node.left, node.right]);
      if !found {
        Report();
        return;
      }
      pendingCompare := Some(PendingCompare(node.result.index, node.left, node.right, vs[0], vs[1],
                                            ToConditionCode(node.comparison)));
    }

    method FindLabelId(name: string) returns (id: nat)
      requires Valid()
      modifies this`labelIds, this`nextLabelId
      ensures Valid() && View() == LabelId(old(View()), name)
      ensures id == View().labelIds[name]
    {
      if name !in labelIds {
        labelIds := labelIds[name := nextLabelId];
        nextLabelId := nextLabelId + 1;
      }
      id := labelIds[name];
    }

    method ParseBranchNode(node: Node)
      requires Valid() && node.BranchNode?
      modifies this, allocationMap, target
      ensures Valid() && View() == ParseChecked(old(View()), node)
    {
      if pendingCompare.None? || pendingCompare.value.resultSsa != node.condition {
        Report();
        pendingCompare := None;
        return;
      }
      var pending := pendingCompare.value;
      pendingCompare := None;
      var trueId := FindLabelId(node.trueLabel);
      var falseId := FindLabelId(node.falseLabel);
      DereferenceSSAs([pending.lhsSsa, pending.rhsSsa]);
      Push(CompareAndJump(pending.lhsVirtual, pending.rhsVirtual, Invert(pending.cc), falseId));
      Push(UnconditionalJump(trueId));
    }

    method ParseLabelNode(node: Node)
      requires Valid() && node.LabelNode?
      modifies this
      ensures Valid() && View() == ParseChecked(old(View()), node)
    {
      var id := FindLabelId(node.name);
      if id in definedLabels {
        Report();
        return;
      }
      definedLabels := definedLabels + {id};
      Push(Label(id));
    }

    method ParseGotoNode(node: Node)
      requires Valid() && node.GotoNode?
      modifies this
      ensures Valid() && View() == ParseChecked(old(View()), node)
    {
      var id := FindLabelId(node.name);
      gotoReferences := gotoReferences + {id};
      Push(UnconditionalJump(id));
    }

    method Dispatch(node: Node)
      requires Valid() && Allocatable(View(), node)
      modifies this, allocationMap, target
      ensures Valid() && View() == ParseChecked(old(View()), node)
    {
      match node
      case AllocationNode(_) => ParseAllocateNode(node);
      case ParameterNode(_, _, _) => ParseParameterStoreNode(node);
      case ImmediateNode(_, _) => ParseIntNode(node);
      case BinaryNode(_, _, _, _) => ParseBinaryNode(node);
      case UnaryNode(_, _, _) => ParseUnaryNode(node);
      case ConvertNode(_, _, _) => ParseConvertNode(node);
      case PointerConvertNode(_, _) => ParsePointerConvertNode(node);
      case DecayNode(_, _) => ParseDecayNode(node);
      case LoadNode(_, _) => ParseLoadNode(node);
      case DerefNode(_, _) => ParseDereferenceNode(node);
      case AddressOfNode(_, _) => ParseAddressOfNode(node);
      case StoreNode(_, _) => ParseStoreNode(node);
      case StoreIntegerNode(_, _) => ParseStoreIntNode(node);
      case IndirectStoreNode(_, _) => ParseIndirectStoreNode(node);
      case CallNode(_, _, _) => ParseCallNode(node);
      case CompareNode(_, _, _, _) => ParseCompareNode(node);
      case BranchNode(_, _, _) => ParseBranchNode(node);
      case LabelNode(_) => ParseLabelNode(node);
      case GotoNode(_) => ParseGotoNode(node);
      case ReturnNode(_) => ParseReturnNode(node);
    }

    method Parse(node: Node)
      requires Valid() && Allocatable(View(), node)
      modifies this, allocationMap, target
      ensures Valid() && View() == ParseNode(old(View()), node)
    {
      hide ParseChecked, Allocatable;
      StaysAllocatable(View(), node);
      if pendingCompare.Some? && !node.BranchNode? {
        Report();
        pendingCompare := None;
      }
      Dispatch(node);
    }

    /** Labels are placed once, and `definedLabels` are the placed ones. */
    ghost predicate LabelsRecorded()
      reads this
    {
      UniqueLabels(instructions) && forall id :: id in definedLabels <==> HasLabel(instructions, id)
    }

    /** The whole clean-up. With optimisation off it only deletes jumps to labels that are not
        placed. With optimisation on it runs passes, at most eight and each on code that is not
        tidy yet, and stops early exactly when the code is tidy. Either way nothing observable
        changes, and every goto to a label that is not placed is reported. */
    method FinaliseControlFlow(optimiseDeadJumps: bool) returns (ghost trail: seq<seq<VirtualInstruction>>)
      requires LabelsRecorded()
      modifies this`instructions, this`errors
      ensures SameBehaviour(old(instructions), instructions)
      ensures UniqueLabels(instructions) && Closed(instructions) && |instructions| <= |old(instructions)|
      ensures errors == old(errors) + |gotoReferences - definedLabels|
      ensures !optimiseDeadJumps ==> instructions == Remaining(old(instructions), Undefined(old(instructions)))
      ensures optimiseDeadJumps ==>
                && 0 < |trail| <= 9
                && trail[0] == old(instructions) && trail[|trail| - 1] == instructions
                && Progresses(trail)
                && (|trail| <= 8 ==> Tidy(instructions))
    {
      assert SameBehaviour(instructions, instructions);
      hide SameBehaviour, Tidy, Closed, UniqueLabels, Remaining, Progresses;
      ReportUndefined();
      trail := [instructions];
      ProgressesFrom(instructions);
      if !optimiseDeadJumps {
        EraseUndefined();
        return;
      }
      var code := instructions;
      var changed := true;
      var pass := 0;
      while changed && pass < MAX_PASSES
        invariant pass <= MAX_PASSES && UniqueLabels(code)
        invariant pass == 0 ==> changed
        invariant errors == old(errors) + |gotoReferences - definedLabels|
        invariant SameBehaviour(old(instructions), code) && |code| <= |old(instructions)|
        invariant pass > 0 ==> Closed(code)
        invariant |trail| == (if changed then pass + 1 else pass)
        invariant |trail| > 0 && trail[0] == old(instructions) && trail[|trail| - 1] == code
        invariant Progresses(trail)
        invariant !changed ==> Tidy(code)
        decreases MAX_PASSES - pass
      {
        var before := code;
        code, changed := Pass(before);
        SameBehaviourTransitive(old(instructions), before, code);
        if changed {
          ProgressesOn(trail, code);
          trail := trail + [code];
        }
        pass := pass + 1;
      }
      instructions := code;
    }

    method ReportUndefined()
      modifies this`errors
      ensures errors == old(errors) + |gotoReferences - definedLabels|
    {
      var left := gotoReferences;
      while left != {}
        invariant left <= gotoReferences
        invariant errors == old(errors) + |(gotoReferences - left) - definedLabels|
        decreases left
      {
        var id :| id in left;
        ghost var done := (gotoReferences - left) - definedLabels;
        left := left - {id};
        if id !in definedLabels {
          assert (gotoReferences - left) - definedLabels == done + {id};
          errors := errors + 1;
        } else {
          assert (gotoReferences - left) - definedLabels == done;
        }
      }
      assert gotoReferences - left == gotoReferences;
    }

    /** Deletes the jumps whose label is not placed. */
    method EraseUndefined()
      requires LabelsRecorded()
      modifies this`instructions
      ensures instructions == Remaining(old(instructions), Undefined(old(instructions)))
      ensures SameBehaviour(old(instructions), instructions)
      ensures UniqueLabels(instructions) && Closed(instructions) && |instructions| <= |old(instructions)|
    {
      var code := instructions;
      var kept := [];
      for i := 0 to |code|
        invariant kept == Survivors(code, Undefined(code), i)
      {
        if !code[i].IsJump() || code[i].id in definedLabels {
          kept := kept + [code[i]];
        }
      }
      instructions := kept;
      UndefinedDeletable(code);
      DeletePreserves(code, Undefined(code));
      RemainingLabels(code, Undefined(code));
      RemainingClosed(code, Undefined(code));
      SurvivorsPrefix(code, Undefined(code), 0, |code|);
    }
  }

  function Undefined(code: seq<VirtualInstruction>): seq<bool> {
    seq(|code|, i requires 0 <= i < |code| => code[i].IsJump() && !HasLabel(code, code[i].id))
  }

  lemma UndefinedDeletable(code: seq<VirtualInstruction>)
    requires UniqueLabels(code)
    ensures Deletable(code, Undefined(code))
  {
  }
}
