/** Compiling a routine body: count its uses, translate it node by node, clean the code up. The
    code that comes out halts exactly when the body does, with the same memory and result. */
module Routines {
  import opened Options
  import opened VirtualCode
  import opened AllocationMaps
  import opened Ssa
  import Cleanup = ControlFlowCleanup
  import opened PseudoAssembly
  import opened ReferenceCounts
  import opened BodyTranslation
  import opened CodeSimulation
  import opened BodyLayout
  import opened RegisterWidths

  /** Register indices stay below the value that marks an unused entry. */
  ghost predicate Fits(body: seq<Node>) {
    |body| < INVALID_INDEX
    && forall i :: 0 <= i < |body| && ResultOf(body[i]).Some? ==> ResultOf(body[i]).value.index < INVALID_INDEX
  }

  lemma {:induction false} TakenBound(body: seq<Node>, n: nat)
    requires n <= |body|
    ensures Taken(body, n) <= n
    decreases n
  {
    if n > 0 {
      TakenBound(body, n - 1);
    }
  }

  /** The checks before an allocation never fail on a well-formed body. */
  lemma AlwaysAllocatable(body: seq<Node>, n: nat, c: Context)
    requires WellFormed(body) && Fits(body) && n < |body| && Good(body, n, c)
    ensures Allocatable(c, body[n])
  {
    TakenBound(body, n);
    if ResultOf(body[n]).Some? {
      NewResult(body, n);
      assert Tracked(body, n, c, ResultOf(body[n]).value.index);
    }
  }

  lemma {:induction false} DereferencingKeeps(c: Context, rs: seq<nat>)
    ensures DereferenceAll(c, rs).gotoReferences == c.gotoReferences && DereferenceAll(c, rs).errors == c.errors
    decreases |rs|
  {
    if rs != [] {
      DereferencingKeeps(Dereference(c, rs[0]), rs[1..]);
    }
  }

  lemma {:induction false} PassingKeeps(c: Context, function_: nat, arguments: seq<nat>, next: nat)
    ensures PassArguments(c, function_, arguments, next).0.gotoReferences == c.gotoReferences
    ensures PassArguments(c, function_, arguments, next).0.errors == c.errors
    decreases |arguments|
  {
    if arguments != [] && Found(c, [arguments[0]]) {
      PassingKeeps(Emit(c, Plain(PassArgument, [function_] + Virtuals(c, [arguments[0]]) + [next])),
                        function_, arguments[1..], next + 1);
    }
  }

  lemma ComputingKeeps(c: Context, opcode: Opcode, result: nat, width: nat, operands: seq<nat>)
    ensures Compute(c, opcode, result, width, operands).gotoReferences == c.gotoReferences
    ensures Compute(c, opcode, result, width, operands).errors >= c.errors
  {
    DereferencingKeeps(Allocate(c, result, width, AllocationClass.Temporary), operands);
  }

  lemma ComputedKeeps(c: Context, node: Node)
    requires node.BinaryNode? || node.UnaryNode? || node.ConvertNode? || node.PointerConvertNode? || node.DecayNode?
             || node.LoadNode?
    ensures ParseChecked(c, node).gotoReferences == c.gotoReferences
    ensures ParseChecked(c, node).errors >= c.errors
  {
    hide Compute, DescribedWidth;
    match node
    case BinaryNode(op, result, left, right) =>
      if !op.Modulo? {
        ComputingKeeps(c, BinaryOpcode(op), result.index, DescribedWidth(c, left), [left, right]);
      }
    case UnaryNode(op, result, operand) =>
      ComputingKeeps(c, UnaryOpcode(op), result.index, DescribedWidth(c, operand), [operand]);
    case ConvertNode(conversion, result, operand) =>
      ComputingKeeps(c, ConversionOpcode(conversion), result.index, result.width, [operand]);
    case PointerConvertNode(result, operand) => ComputingKeeps(c, Copy, result.index, result.width, [operand]);
    case DecayNode(result, operand) => ComputingKeeps(c, AddressOf, result.index, result.width, [operand]);
    case LoadNode(result, operand) => ComputingKeeps(c, Copy, result.index, result.width, [operand]);
  }

  lemma BranchingKeeps(c: Context, node: Node)
    requires node.BranchNode?
    ensures ParseBranch(c, node).gotoReferences == c.gotoReferences
    ensures ParseBranch(c, node).errors >= c.errors
  {
    hide DereferenceAll;
    if c.pending.Some? {
      DereferencingKeeps(LabelId(LabelId(c.(pending := None), node.trueLabel), node.falseLabel),
                         [c.pending.value.lhsSsa, c.pending.value.rhsSsa]);
    }
  }

  lemma CallingKeeps(c: Context, node: Node)
    requires node.CallNode?
    ensures ParseCall(c, node).gotoReferences == c.gotoReferences
    ensures ParseCall(c, node).errors >= c.errors
  {
    hide PassArguments;
    PassingKeeps(UseFunction(c, node.callee), IndexIn(c.functionUsage, node.callee), node.arguments, 0);
  }

  /** Only a goto records a label it needs, and errors are never taken back. */
  lemma OnlyGotosAreRecorded(c: Context, node: Node)
    ensures !node.GotoNode? ==> ParseChecked(c, node).gotoReferences == c.gotoReferences
    ensures ParseChecked(c, node).errors >= c.errors
  {
    hide Compute, DereferenceAll, ParseBranch, ParseCall, Found, Virtuals, DescribedWidth;
    match node
    case StoreNode(target, source) => DereferencingKeeps(c, [source, target]);
    case IndirectStoreNode(target, source) => DereferencingKeeps(c, [target, source]);
    case ReturnNode(returned) =>
      if returned.Some? {
        DereferencingKeeps(c, [returned.value]);
      }
    case BranchNode(_, _, _) => BranchingKeeps(c, node);
    case CallNode(_, _, _) => CallingKeeps(c, node);
    case _ =>
      if node.BinaryNode? || node.UnaryNode? || node.ConvertNode? || node.PointerConvertNode? || node.DecayNode?
         || node.LoadNode? {
        ComputedKeeps(c, node);
      }
  }

  /** A comparison that no branch follows directly, as where its result is used as a value, is reported. */
  lemma LoneComparisonIsReported(c: Context, comparison: Node, next: Node)
    requires comparison.CompareNode? && c.pending.None? && Found(c, [comparison.left, comparison.right])
    requires !next.BranchNode? || next.condition != comparison.result.index
    ensures ParseNode(ParseNode(c, comparison), next).errors > c.errors
  {
    CompareForm(c, comparison);
    var waiting := ParseNode(c, comparison);
    if !next.BranchNode? {
      hide ParseChecked;
      OnlyGotosAreRecorded(Fail(waiting.(pending := None)), next);
    }
  }

  lemma ErrorsStay(c: Context, node: Node)
    ensures ParseNode(c, node).errors >= c.errors
    ensures node.BinaryNode? && node.binary.Modulo? ==> ParseNode(c, node).errors > c.errors
  {
    hide Compute, DereferenceAll, ParseBranch, ParseCall, Found, Virtuals;
    OnlyGotosAreRecorded(c, node);
    OnlyGotosAreRecorded(Fail(c.(pending := None)), node);
  }

  /** A modulo anywhere in a body is reported. */
  lemma {:induction false} ModuloIsReported(body: seq<Node>, i: nat, n: nat)
    requires i < n <= |body| && body[i].BinaryNode? && body[i].binary.Modulo?
    ensures Parsed(body, n).errors > 0
    decreases n
  {
    hide ParseNode;
    ErrorsStay(Parsed(body, n - 1), body[n - 1]);
    if i < n - 1 {
      ModuloIsReported(body, i, n - 1);
    }
  }

  lemma ComparisonWaits(c: Context, comparison: Node, next: Node)
    requires comparison.CompareNode? && !(next.BranchNode? && next.condition == comparison.result.index)
    ensures ParseNode(ParseNode(c, comparison), next).errors > c.errors
  {
    hide ParseBranch, ParseCall, Compute, Found, DereferenceAll;
    ErrorsStay(ParseNode(c, comparison), next);
    var open := if c.pending.Some? then Fail(c.(pending := None)) else c;
    if Found(open, [comparison.left, comparison.right]) {
      LoneComparisonIsReported(open, comparison, next);
    }
  }

  /** So is a comparison that the next node is no branch on. */
  lemma {:induction false} ComparisonIsReported(body: seq<Node>, i: nat, n: nat)
    requires i + 1 < n <= |body| && body[i].CompareNode? && !Compared(body, i + 1)
    ensures Parsed(body, n).errors > 0
    decreases n
  {
    hide ParseNode;
    ErrorsStay(Parsed(body, n - 1), body[n - 1]);
    if i + 1 < n - 1 {
      ComparisonIsReported(body, i, n - 1);
    } else {
      ComparisonWaits(Parsed(body, i), body[i], body[i + 1]);
      assert Parsed(body, n) == ParseNode(ParseNode(Parsed(body, i), body[i]), body[i + 1]);
    }
  }

  lemma NodeRecords(c: Context, node: Node)
    requires c.nextLabelId == |c.labelIds|
    ensures ParseNode(c, node).gotoReferences
         <= c.gotoReferences + (if node.GotoNode? then {At(Intern(c.labelIds, [node.name]), node.name)} else {})
  {
    if node.GotoNode? {
      InternsOne(c, node.name);
    } else {
      OnlyGotosAreRecorded(if c.pending.Some? && !node.BranchNode? then Fail(c.(pending := None)) else c, node);
    }
  }

  /** The numbers of the labels a body places. */
  function PlacedIds(body: seq<Node>): set<nat> {
    set i | 0 <= i < |body| && body[i].LabelNode? :: At(Labels(body), body[i].name)
  }

  lemma NameIsPlaced(body: seq<Node>, name: string)
    requires HasName(body, name)
    ensures At(Labels(body), name) in PlacedIds(body)
  {
    var p := Place(body, name);
    assert body[p].LabelNode? && body[p].name == name;
  }

  lemma GotoIsPlaced(body: seq<Node>, i: nat)
    requires Runnable(body) && i < |body| && body[i].GotoNode?
    ensures At(Intern(LabelNumbers(body, i), [body[i].name]), body[i].name) in PlacedIds(body)
  {
    assert NamesOf(body[i]) == [body[i].name] && NamesOf(body[i])[0] == body[i].name;
    NameIsPlaced(body, body[i].name);
    NameKnown(body, i, i + 1);
    LabelNumbersGrow(body, i + 1, |body|);
  }

  /** Gotos to labels the body places are never reported. */
  lemma GotosArePlaced(body: seq<Node>, i: nat, c: Context)
    requires Runnable(body) && i < |body|
    requires c.labelIds == LabelNumbers(body, i) && c.nextLabelId == |c.labelIds|
    requires c.gotoReferences <= PlacedIds(body)
    ensures ParseNode(c, body[i]).gotoReferences <= PlacedIds(body)
  {
    NodeRecords(c, body[i]);
    if body[i].GotoNode? {
      GotoIsPlaced(body, i);
    }
  }

  /** The labels the parsing context recorded are those of the code. */
  lemma LabelsAreRecorded(body: seq<Node>, id: nat)
    requires WellFormed(body)
    ensures Placed(body, |body|, id) <==> HasLabel(Translation(body), id)
    ensures Placed(body, |body|, id) <==> id in PlacedIds(body)
  {
    if Placed(body, |body|, id) {
      var i :| 0 <= i < |body| && body[i].LabelNode? && At(LabelNumbers(body, |body|), body[i].name) == id;
      assert body[i] == LabelNode(body[i].name);
      LabelPlace(body, body[i].name);
    }
    if HasLabel(Translation(body), id) {
      var i := LabelOrigin(body, |body|, Position(Translation(body), id));
      assert Placed(body, |body|, At(LabelNumbers(body, |body|), body[i].name));
    }
  }

  lemma SameBehaviourEnds(I: Interpretation, regs: map<nat, nat>, p: seq<VirtualInstruction>,
                          q: seq<VirtualInstruction>, v: State, value: Option<int>, memory: map<int, int>)
    requires SameBehaviour(p, q) && Injective(regs)
    ensures CodeEnds(I, regs, p, v, value, memory) <==> CodeEnds(I, regs, q, v, value, memory)
  {
    var m := MachineOf(Renamed(I, regs));
    forall o
      ensures Reaches(m, p, v, o) <==> Reaches(m, q, v, o)
    {
    }
  }

  /** Code that does what the body says, whatever its operators mean and wherever it starts. */
  ghost predicate Implements(code: seq<VirtualInstruction>, body: seq<Node>) {
    Injective(Registers(body))
    && forall I: Interpretation, s: State, v: State, value: Option<int>, memory: map<int, int> ::
         CellsWithin(I, body) && Matches(I, Registers(body), s, v) ==>
           (BodyEnds(I, body, s, value, memory) <==> CodeEnds(I, Registers(body), code, v, value, memory))
  }

  lemma TranslationImplements(body: seq<Node>, code: seq<VirtualInstruction>)
    requires Runnable(body) && SameBehaviour(Translation(body), code)
    ensures Implements(code, body)
  {
    RegistersInjective(body);
    forall I: Interpretation, s: State, v: State, value: Option<int>, memory: map<int, int>
      | CellsWithin(I, body) && Matches(I, Registers(body), s, v)
      ensures BodyEnds(I, body, s, value, memory) <==> CodeEnds(I, Registers(body), code, v, value, memory)
    {
      TranslationSimulates(I, body, s, v, value, memory);
      SameBehaviourEnds(I, Registers(body), Translation(body), code, v, value, memory);
    }
  }

  /** One node: it is translated without error, and its goto is to a label of the body. */
  method TranslateNode(context: ParsingContext, body: seq<Node>, n: nat)
    requires WellFormed(body) && Fits(body) && n < |body|
    requires context.Valid() && Good(body, n, context.View()) && Described(body, n, context.View())
    modifies context, context.allocationMap, context.target
    ensures context.Valid() && Good(body, n + 1, context.View()) && Described(body, n + 1, context.View())
    ensures Runnable(body) && old(context.gotoReferences) <= PlacedIds(body) ==>
              context.gotoReferences <= PlacedIds(body)
  {
    ghost var c := context.View();
    AlwaysAllocatable(body, n, c);
    StepsNode(body, n, c);
    KeepsGood(body, n, c, ParseNode(c, body[n]));
    KeepsDescribed(body, n, c, ParseNode(c, body[n]));
    if Runnable(body) && c.gotoReferences <= PlacedIds(body) {
      GotosArePlaced(body, n, c);
    }
    context.Parse(body[n]);
  }

  lemma GoodAtEnd(body: seq<Node>, c: Context)
    requires WellFormed(body) && Good(body, |body|, c)
    ensures c.errors == 0 && c.instructions == Translation(body) && c.functionUsage == FunctionsUsed(body, |body|)
    ensures c.definedLabels == PlacedIds(body)
    ensures forall id :: id in c.definedLabels <==> HasLabel(c.instructions, id)
  {
    forall id
      ensures id in c.definedLabels <==> HasLabel(Translation(body), id)
      ensures id in c.definedLabels <==> id in PlacedIds(body)
    {
      LabelsAreRecorded(body, id);
    }
  }

  method TranslateBody(context: ParsingContext, body: seq<Node>)
    requires WellFormed(body) && Fits(body) && context.Valid() && Good(body, 0, context.View())
    requires context.gotoReferences == {} && Described(body, 0, context.View())
    modifies context, context.allocationMap, context.target
    ensures context.errors == 0 && context.instructions == Translation(body) && context.LabelsRecorded()
    ensures context.functionUsageTable == FunctionsUsed(body, |body|) && Described(body, |body|, context.View())
    ensures Runnable(body) ==> context.gotoReferences - context.definedLabels == {}
  {
    hide Good, Translation, Fits, PlacedIds, Described, FunctionsUsed;
    for n := 0 to |body|
      invariant context.Valid() && Good(body, n, context.View()) && Described(body, n, context.View())
      invariant Runnable(body) ==> context.gotoReferences <= PlacedIds(body)
    {
      TranslateNode(context, body, n);
    }
    GoodAtEnd(body, context.View());
    TranslationLabels(body);
  }

  /** The registers of a body are described as they are laid out. */
  ghost predicate DescribedIn(registers: map<nat, RegisterData>, body: seq<Node>) {
    forall r :: r in Registers(body) ==>
      r in Layouts(body, |body|)
      && Data(registers, Registers(body)[r]).width == Layouts(body, |body|)[r].width
      && Data(registers, Registers(body)[r]).allocationClass == Layouts(body, |body|)[r].class_
  }

  lemma AreDescribed(body: seq<Node>, c: Context)
    requires Described(body, |body|, c)
    ensures DescribedIn(c.registers, body)
  {
  }

  lemma StartsDescribed(body: seq<Node>, c: Context)
    requires c == Start(body)
    ensures Described(body, 0, c)
  {
  }

  /** The whole routine, from nodes to cleaned-up code, with the table of the functions it names. */
  method CompileRoutine(target: VirtualRegisterMap, body: seq<Node>, optimiseJumps: bool)
    returns (code: seq<VirtualInstruction>, errors: nat, functions: seq<nat>)
    requires WellFormed(body) && Fits(body)
    modifies target
    ensures SameBehaviour(Translation(body), code) && UniqueLabels(code) && Cleanup.Closed(code)
    ensures Runnable(body) ==> errors == 0 && Implements(code, body)
    ensures functions == FunctionsUsed(body, |body|) && DescribedIn(target.registers, body)
  {
    target.Reset();
    CountReferences(target, body);
    var context := new ParsingContext(target);
    StartsGood(body, 0, context.View());
    StartsDescribed(body, context.View());
    TranslateBody(context, body);
    AreDescribed(body, context.View());
    functions := context.functionUsageTable;
    ghost var trail := context.FinaliseControlFlow(optimiseJumps);
    code, errors := context.instructions, context.errors;
    if Runnable(body) {
      TranslationImplements(body, code);
    }
  }
}
