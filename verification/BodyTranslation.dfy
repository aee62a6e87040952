/** Translating a well-formed body: what every step keeps, and the result. */
module BodyTranslation {
  import opened Options
  import opened VirtualCode
  import opened AllocationMaps
  import opened Ssa
  import opened PseudoAssembly
  import opened ReferenceCounts

  /** Every counted use of the register before `n` is over, and there was one. */
  predicate Released(body: seq<Node>, n: nat, r: nat)
    requires n <= |body|
  {
    Ended(body, n, r) > 0 && Ended(body, n, r) == Counted(body, |body|, r)
  }

  /** The comparison waiting for its branch after `n` nodes. */
  function Waiting(body: seq<Node>, n: nat): Option<PendingCompare>
    requires n <= |body|
  {
    if n > 0 && body[n - 1].CompareNode? then
      var node := body[n - 1];
      var regs := Renaming(body, n - 1);
      Some(PendingCompare(node.result.index, node.left, node.right, At(regs, node.left), At(regs, node.right),
                          ToConditionCode(node.comparison)))
    else None
  }

  ghost predicate Placed(body: seq<Node>, n: nat, id: nat)
    requires n <= |body|
  {
    exists i :: 0 <= i < n && body[i].LabelNode? && At(LabelNumbers(body, n), body[i].name) == id
  }

  /** One register between two nodes: it is live if it is introduced and not released, under its
      one virtual register, and its count is the number of uses still to end. */
  ghost predicate Tracked(body: seq<Node>, n: nat, c: Context, r: nat)
    requires n <= |body|
  {
    && (r in c.allocations.live <==> r in Renaming(body, n) && !Released(body, n, r))
    && (r in c.allocations.live ==> c.allocations.live[r] == Renaming(body, n)[r])
    && UseCount(c, r) == Counted(body, |body|, r) - Ended(body, n, r)
    && (Ended(body, n, r) > 0 ==> r in Renaming(body, n))
  }

  ghost predicate Orderly(body: seq<Node>, n: nat, c: Context)
    requires n <= |body|
  {
    && |c.allocations.descriptors| == Taken(body, n)
    && c.pending == Waiting(body, n)
    && c.labelIds == LabelNumbers(body, n) && c.nextLabelId == |c.labelIds|
    && c.functionUsage == FunctionsUsed(body, n)
  }

  /** What holds between any two nodes. */
  ghost predicate Good(body: seq<Node>, n: nat, c: Context)
    requires n <= |body|
  {
    && c.errors == 0 && Orderly(body, n, c)
    && (forall r :: Tracked(body, n, c, r))
    && (forall id :: id in c.definedLabels <==> Placed(body, n, id))
    && c.instructions == Chunks(body, n, Renaming(body, |body|), LabelNumbers(body, |body|))
  }

  // ----- ending uses -----

  /** Ending uses touches counts and live registers only, and what it does to them depends on
      nothing else. */
  lemma {:induction false} DereferenceAllFrame(c: Context, d: Context, rs: seq<nat>)
    requires c.registers == d.registers && c.allocations == d.allocations
    ensures DereferenceAll(c, rs) == c.(registers := DereferenceAll(d, rs).registers,
                                        allocations := DereferenceAll(d, rs).allocations)
    decreases |rs|
  {
    if rs != [] {
      DereferenceAllFrame(Dereference(c, rs[0]), Dereference(d, rs[0]), rs[1..]);
    }
  }

  lemma {:induction false} OccurrencesFirst(rs: seq<nat>, r: nat)
    requires rs != []
    ensures Occurrences(rs, r) == Occurrences(rs[1..], r) + if rs[0] == r then 1 else 0
    decreases |rs|
  {
    if |rs| == 1 {
      OccurrencesOfOne(rs[0], r);
      assert rs == [rs[0]];
    } else {
      OccurrencesFirst(rs[..|rs| - 1], r);
      assert rs[1..][..|rs| - 2] == rs[..|rs| - 1][1..];
    }
  }

  /** Where there are enough counted uses, a register goes exactly when its last use ends. */
  lemma {:induction false} DereferenceAllEffect(c: Context, rs: seq<nat>, r: nat)
    requires UseCount(c, r) >= Occurrences(rs, r)
    ensures var d := DereferenceAll(c, rs);
            && UseCount(d, r) == UseCount(c, r) - Occurrences(rs, r)
            && d.allocations.descriptors == c.allocations.descriptors
            && (r in d.allocations.live <==>
                  r in c.allocations.live && !(Occurrences(rs, r) > 0 && UseCount(d, r) == 0))
            && (r in d.allocations.live ==> d.allocations.live[r] == c.allocations.live[r])
    decreases |rs|
  {
    if rs != [] {
      OccurrencesFirst(rs, r);
      DereferenceAllEffect(Dereference(c, rs[0]), rs[1..], r);
    }
  }

  // ----- one step in normal form -----

  function Allocated(c: Context, node: Node): Context {
    match ResultOf(node)
    case None => c
    case Some(register) =>
      Allocate(c, register.index,
               (match node { case BinaryNode(_, _, left, _) => DescribedWidth(c, left)
                             case UnaryNode(_, _, operand) => DescribedWidth(c, operand)
                             case _ => register.width }),
               if node.AllocationNode? then AllocationClass.Allocation else AllocationClass.Temporary)
  }

  /** A step without failure: allocate the result, end the uses, intern the names, emit. */
  ghost predicate Stepped(body: seq<Node>, n: nat, c: Context, d: Context)
    requires n < |body|
  {
    var ended := DereferenceAll(Allocated(c, body[n]), Dereferences(body, n));
    && d.errors == c.errors
    && d.registers == ended.registers && d.allocations == ended.allocations
    && d.labelIds == Intern(c.labelIds, NamesOf(body[n])) && d.nextLabelId == |d.labelIds|
    && d.functionUsage == FunctionsUsed(body, n + 1)
    && d.pending == Waiting(body, n + 1)
    && d.definedLabels == c.definedLabels + (if body[n].LabelNode? then {At(d.labelIds, body[n].name)} else {})
    && d.instructions == c.instructions + Chunk(body, n, Renaming(body, n + 1), LabelNumbers(body, n + 1))
  }

  lemma {:induction false} OccursIn(rs: seq<nat>, r: nat)
    ensures r in rs <==> Occurrences(rs, r) > 0
    decreases |rs|
  {
    if rs != [] {
      OccursIn(rs[..|rs| - 1], r);
      assert rs == rs[..|rs| - 1] + [rs[|rs| - 1]];
    }
  }

  lemma LookupsAreCounted(node: Node, k: nat)
    requires k < |Lookups(node)| && !node.ParameterNode?
    ensures Lookups(node)[k] in References(node)
  {
    if node.AddressOfNode? {
      assert References(node)[1] == Lookups(node)[k];
    } else {
      assert Lookups(node) == References(node);
    }
  }

  /** No lookup fails: a register still to be used is live. */
  lemma LookupSucceeds(body: seq<Node>, n: nat, c: Context, k: nat)
    requires n < |body| && WellFormedAt(body, n) && k < |Lookups(body[n])|
    requires Tracked(body, n, c, Lookups(body[n])[k])
    ensures Lookups(body[n])[k] in c.allocations.live
    ensures c.allocations.live[Lookups(body[n])[k]] == At(Renaming(body, n), Lookups(body[n])[k])
  {
    var r := Lookups(body[n])[k];
    if body[n].ParameterNode? {
      assert r == body[n].register.index;
    } else {
      LookupsAreCounted(body[n], k);
      OccursIn(References(body[n]), r);
      CountedGrows(body, n + 1, |body|, r);
      EndedWithinCounted(body, n, r);
    }
  }

  /** The operands of node `n` are found, under their virtual registers. */
  ghost predicate Resolved(body: seq<Node>, n: nat, c: Context)
    requires n < |body|
  {
    Found(c, Lookups(body[n]))
    && Virtuals(c, Lookups(body[n])) == AtAll(Renaming(body, n + 1), Lookups(body[n]))
  }

  lemma AllFound(body: seq<Node>, n: nat, c: Context)
    requires SingleAssignment(body) && n < |body| && WellFormedAt(body, n)
    requires forall r :: Tracked(body, n, c, r)
    ensures Resolved(body, n, c)
  {
    var rs := Lookups(body[n]);
    forall k | 0 <= k < |rs|
      ensures rs[k] in c.allocations.live && c.allocations.live[rs[k]] == At(Renaming(body, n + 1), rs[k])
    {
      assert Tracked(body, n, c, rs[k]);
      LookupSucceeds(body, n, c, k);
      RenamingGrows(body, n, n + 1);
    }
  }

  /** The parts of a step that concern neither labels nor pending comparisons. */
  ghost predicate Quiet(node: Node) {
    !node.LabelNode? && !node.GotoNode? && !node.BranchNode? && !node.CompareNode?
    && !node.ParameterNode? && !node.CallNode?
  }

  lemma QuietStep(body: seq<Node>, n: nat, c: Context, ended: Context, d: Context)
    requires n < |body| && Quiet(body[n])
    requires c.labelIds == LabelNumbers(body, n) && c.nextLabelId == |c.labelIds|
    requires c.functionUsage == FunctionsUsed(body, n) && c.pending.None?
    requires ended == DereferenceAll(Allocated(c, body[n]), Dereferences(body, n))
    requires d == ended.(instructions := c.instructions + Chunk(body, n, Renaming(body, n + 1), LabelNumbers(body, n + 1)))
    ensures Stepped(body, n, c, d)
  {
    DereferenceAllFrame(Allocated(c, body[n]), Allocated(c, body[n]), Dereferences(body, n));
    assert NamesOf(body[n]) == [];
  }

  lemma ComputeSteps(body: seq<Node>, n: nat, c: Context, opcode: Opcode, result: nat, width: nat, operands: seq<nat>)
    requires n < |body| && Found(c, operands) && |c.allocations.descriptors| == Taken(body, n)
    requires Allocated(c, body[n]) == Allocate(c, result, width, AllocationClass.Temporary)
    requires Dereferences(body, n) == operands
    requires Chunk(body, n, Renaming(body, n + 1), LabelNumbers(body, n + 1))
          == [Plain(opcode, [Taken(body, n)] + Virtuals(c, operands))]
    ensures Compute(c, opcode, result, width, operands)
         == DereferenceAll(Allocated(c, body[n]), Dereferences(body, n))
            .(instructions := c.instructions + Chunk(body, n, Renaming(body, n + 1), LabelNumbers(body, n + 1)))
  {
    DereferenceAllFrame(Allocated(c, body[n]), Allocated(c, body[n]), operands);
  }

  lemma StepsBinary(body: seq<Node>, n: nat, c: Context)
    requires n < |body| && body[n].BinaryNode? && WellFormedAt(body, n)
    requires Orderly(body, n, c) && Resolved(body, n, c) && c.pending.None?
    ensures Stepped(body, n, c, ParseNode(c, body[n]))
  {
    var node := body[n];
    assert [node.left, node.right] == Lookups(node);
    var vs := Virtuals(c, [node.left, node.right]);
    assert [Taken(body, n)] + vs == [Taken(body, n), vs[0], vs[1]];
    ComputeSteps(body, n, c, BinaryOpcode(node.binary), node.result.index, DescribedWidth(c, node.left),
                 [node.left, node.right]);
    QuietStep(body, n, c, DereferenceAll(Allocated(c, node), Dereferences(body, n)), ParseNode(c, node));
  }

  lemma OneOperandSteps(body: seq<Node>, n: nat, c: Context, opcode: Opcode, result: Register, width: nat, operand: nat)
    requires n < |body| && Quiet(body[n]) && WellFormedAt(body, n)
    requires Orderly(body, n, c) && Resolved(body, n, c) && c.pending.None?
    requires Lookups(body[n]) == [operand] == Dereferences(body, n) && ResultOf(body[n]) == Some(result)
    requires ParseNode(c, body[n]) == Compute(c, opcode, result.index, width, [operand])
    requires Allocated(c, body[n]) == Allocate(c, result.index, width, AllocationClass.Temporary)
    requires var regs := Renaming(body, n + 1);
             Chunk(body, n, regs, LabelNumbers(body, n + 1)) == [Plain(opcode, [At(regs, result.index), At(regs, operand)])]
    ensures Stepped(body, n, c, ParseNode(c, body[n]))
  {
    var vs := Virtuals(c, [operand]);
    assert vs[0] == At(Renaming(body, n + 1), operand);
    assert [Taken(body, n)] + vs == [Taken(body, n), vs[0]];
    ComputeSteps(body, n, c, opcode, result.index, width, [operand]);
    QuietStep(body, n, c, DereferenceAll(Allocated(c, body[n]), Dereferences(body, n)), ParseNode(c, body[n]));
  }

  lemma StepsOneOperand(body: seq<Node>, n: nat, c: Context)
    requires n < |body| && WellFormedAt(body, n)
    requires body[n].UnaryNode? || body[n].ConvertNode? || body[n].PointerConvertNode? || body[n].DecayNode?
             || body[n].LoadNode?
    requires Orderly(body, n, c) && Resolved(body, n, c) && c.pending.None?
    ensures Stepped(body, n, c, ParseNode(c, body[n]))
  {
    hide Stepped, Renaming, LabelNumbers;
    match body[n]
    case UnaryNode(op, result, operand) =>
      OneOperandSteps(body, n, c, UnaryOpcode(op), result, DescribedWidth(c, operand), operand);
    case ConvertNode(conversion, result, operand) =>
      OneOperandSteps(body, n, c, ConversionOpcode(conversion), result, result.width, operand);
    case PointerConvertNode(result, operand) =>
      OneOperandSteps(body, n, c, Copy, result, result.width, operand);
    case DecayNode(result, operand) =>
      OneOperandSteps(body, n, c, AddressOf, result, result.width, operand);
    case LoadNode(result, operand) =>
      OneOperandSteps(body, n, c, Copy, result, result.width, operand);
  }

  lemma StepsLocating(body: seq<Node>, n: nat, c: Context)
    requires n < |body| && WellFormedAt(body, n)
    requires SingleAssignment(body) && (body[n].DerefNode? || body[n].AddressOfNode?)
    requires Orderly(body, n, c) && Resolved(body, n, c) && c.pending.None?
    ensures Stepped(body, n, c, ParseNode(c, body[n]))
  {
    hide Stepped, LabelNumbers, FunctionsUsed;
    var operand := body[n].operand;
    assert Lookups(body[n]) == [operand];
    assert Virtuals(c, [operand])[0] == At(Renaming(body, n + 1), operand);
    NewResult(body, n);
    assert operand in Renaming(body, n);
    var holding := Allocated(c, body[n]);
    var vs := Virtuals(holding, [operand]);
    assert [Taken(body, n)] + vs == [Taken(body, n), vs[0]];
    QuietStep(body, n, c, holding, ParseNode(c, body[n]));
  }

  lemma StepsStore(body: seq<Node>, n: nat, c: Context)
    requires n < |body| && WellFormedAt(body, n) && body[n].StoreNode?
    requires Orderly(body, n, c) && Resolved(body, n, c) && c.pending.None?
    ensures Stepped(body, n, c, ParseNode(c, body[n]))
  {
    var target, source := body[n].target, body[n].source;
    var regs := Renaming(body, n + 1);
    assert Lookups(body[n]) == [target, source];
    assert Lookups(body[n])[0] == target && Lookups(body[n])[1] == source;
    assert Virtuals(c, [target, source]) == [At(regs, target), At(regs, source)];
    DereferenceAllFrame(c, c, [source, target]);
    QuietStep(body, n, c, DereferenceAll(c, [source, target]), ParseNode(c, body[n]));
  }

  lemma StepsStoreInteger(body: seq<Node>, n: nat, c: Context)
    requires n < |body| && WellFormedAt(body, n) && body[n].StoreIntegerNode?
    requires Orderly(body, n, c) && Resolved(body, n, c) && c.pending.None?
    ensures Stepped(body, n, c, ParseNode(c, body[n]))
  {
    assert Lookups(body[n]) == [body[n].target];
    assert Virtuals(c, [body[n].target])[0] == At(Renaming(body, n + 1), body[n].target);
    assert Virtuals(c, [body[n].target]) + [body[n].value]
        == [At(Renaming(body, n + 1), body[n].target), body[n].value];
    QuietStep(body, n, c, c, ParseNode(c, body[n]));
  }

  lemma StepsIndirectStore(body: seq<Node>, n: nat, c: Context)
    requires n < |body| && WellFormedAt(body, n) && body[n].IndirectStoreNode?
    requires Orderly(body, n, c) && Resolved(body, n, c) && c.pending.None?
    ensures Stepped(body, n, c, ParseNode(c, body[n]))
  {
    var target, source := body[n].target, body[n].source;
    var regs := Renaming(body, n + 1);
    assert Lookups(body[n]) == [target, source];
    assert Virtuals(c, [target, source]) == [At(regs, target), At(regs, source)];
    DereferenceAllFrame(c, c, [target, source]);
    QuietStep(body, n, c, DereferenceAll(c, [target, source]), ParseNode(c, body[n]));
  }

  lemma StepsSimple(body: seq<Node>, n: nat, c: Context)
    requires n < |body| && WellFormedAt(body, n)
    requires body[n].AllocationNode? || body[n].ImmediateNode? || body[n].ReturnNode?
    requires Orderly(body, n, c) && Resolved(body, n, c) && c.pending.None?
    ensures Stepped(body, n, c, ParseNode(c, body[n]))
  {
    var node := body[n];
    DereferenceAllFrame(Allocated(c, node), Allocated(c, node), Dereferences(body, n));
    if node.ReturnNode? && node.returned.Some? {
        assert Lookups(node) == [node.returned.value];
      assert Virtuals(c, [node.returned.value]) == [At(Renaming(body, n + 1), node.returned.value)];
    }
    QuietStep(body, n, c, DereferenceAll(Allocated(c, node), Dereferences(body, n)), ParseNode(c, node));
  }

  // ----- labels, jumps, comparisons, parameters and calls -----

  lemma InternsOne(c: Context, name: string)
    requires c.nextLabelId == |c.labelIds|
    ensures LabelId(c, name).labelIds == Intern(c.labelIds, [name])
    ensures LabelId(c, name).nextLabelId == |LabelId(c, name).labelIds|
  {
    assert [name][1..] == [];
  }

  lemma InternsTwo(c: Context, a: string, b: string)
    requires c.nextLabelId == |c.labelIds|
    ensures LabelId(LabelId(c, a), b).labelIds == Intern(c.labelIds, [a, b])
    ensures LabelId(LabelId(c, a), b).nextLabelId == |Intern(c.labelIds, [a, b])|
  {
    InternsOne(c, a);
    InternsOne(LabelId(c, a), b);
    assert [a, b][1..] == [b] && [a][1..] == [] && [b][1..] == [];
  }

  /** A label not placed before has a number not placed before. */
  lemma NewLabel(body: seq<Node>, n: nat)
    requires UniqueNames(body) && n < |body| && body[n].LabelNode?
    ensures !Placed(body, n, At(LabelNumbers(body, n + 1), body[n].name))
  {
    hide Intern, LabelNumbers;
    LabelNumbersDistinct(body, n + 1);
    NameKnown(body, n, n + 1);
    forall i | 0 <= i < n && body[i].LabelNode?
      ensures At(LabelNumbers(body, n), body[i].name) != At(LabelNumbers(body, n + 1), body[n].name)
    {
      NameKnown(body, i, n);
      LabelNumbersGrow(body, n, n + 1);
      assert body[i].name != body[n].name;
    }
  }

  lemma NameKnown(body: seq<Node>, i: nat, n: nat)
    requires i < n <= |body|
    ensures forall k :: 0 <= k < |NamesOf(body[i])| ==> NamesOf(body[i])[k] in LabelNumbers(body, n)
    ensures body[i].LabelNode? ==> body[i].name in LabelNumbers(body, n)
  {
    hide Intern;
    assert LabelNumbers(body, i + 1) == Intern(LabelNumbers(body, i), NamesOf(body[i]));
    InternGrows(LabelNumbers(body, i), NamesOf(body[i]));
    LabelNumbersGrow(body, i + 1, n);
    if body[i].LabelNode? {
      assert NamesOf(body[i])[0] == body[i].name;
    }
  }

  lemma StepsLabel(body: seq<Node>, n: nat, c: Context)
    requires n < |body| && body[n].LabelNode? && Orderly(body, n, c) && c.pending.None?
    requires At(LabelNumbers(body, n + 1), body[n].name) !in c.definedLabels
    ensures Stepped(body, n, c, ParseNode(c, body[n]))
  {
    InternsOne(c, body[n].name);
    InternGrows(c.labelIds, [body[n].name]);
    assert NamesOf(body[n]) == [body[n].name];
  }

  lemma GotoForm(c: Context, node: Node)
    requires node.GotoNode? && c.pending.None? && c.nextLabelId == |c.labelIds|
    ensures var labels := Intern(c.labelIds, [node.name]);
            ParseNode(c, node)
            == c.(labelIds := labels, nextLabelId := |labels|, gotoReferences := c.gotoReferences + {At(labels, node.name)},
                  instructions := c.instructions + [UnconditionalJump(At(labels, node.name))])
  {
    InternsOne(c, node.name);
    hide Intern;
  }

  lemma GotoAddsItsName(body: seq<Node>, n: nat, c: Context)
    requires n < |body| && body[n].GotoNode?
    ensures NamesOf(body[n]) == [body[n].name] && Dereferences(body, n) == [] && Allocated(c, body[n]) == c
    ensures LabelNumbers(body, n + 1) == Intern(LabelNumbers(body, n), NamesOf(body[n]))
    ensures FunctionsUsed(body, n + 1) == FunctionsUsed(body, n) && Waiting(body, n + 1).None?
    ensures forall regs, labels :: Chunk(body, n, regs, labels) == [UnconditionalJump(At(labels, body[n].name))]
  {
    hide Intern;
  }

  lemma StepsGoto(body: seq<Node>, n: nat, c: Context)
    requires n < |body| && body[n].GotoNode? && Orderly(body, n, c) && c.pending.None?
    ensures Stepped(body, n, c, ParseNode(c, body[n]))
  {
    hide Renaming, LabelNumbers, FunctionsUsed, Chunk, Waiting, Intern, ParseNode, Allocated, NamesOf, Dereferences, Taken;
    GotoForm(c, body[n]);
    GotoAddsItsName(body, n, c);
  }

  /** A comparison that is waiting for its branch. */
  function PendingFor(c: Context, node: Node): PendingCompare
    requires node.CompareNode? && Found(c, [node.left, node.right])
  {
    var vs := Virtuals(c, [node.left, node.right]);
    PendingCompare(node.result.index, node.left, node.right, vs[0], vs[1], ToConditionCode(node.comparison))
  }

  lemma CompareForm(c: Context, node: Node)
    requires node.CompareNode? && c.pending.None? && Found(c, [node.left, node.right])
    ensures ParseNode(c, node) == c.(pending := Some(PendingFor(c, node)))
  {
    hide Found, Virtuals;
  }

  /** A comparison adds no name, no register, no function and no instruction, and ends no use. */
  lemma CompareAddsNothing(body: seq<Node>, n: nat, c: Context)
    requires n < |body| && body[n].CompareNode?
    ensures NamesOf(body[n]) == [] && Dereferences(body, n) == [] && Allocated(c, body[n]) == c
    ensures Renaming(body, n + 1) == Renaming(body, n) && LabelNumbers(body, n + 1) == LabelNumbers(body, n)
    ensures FunctionsUsed(body, n + 1) == FunctionsUsed(body, n)
    ensures forall regs, labels :: Chunk(body, n, regs, labels) == []
  {
  }

  lemma CompareWaits(body: seq<Node>, n: nat, c: Context)
    requires n < |body| && body[n].CompareNode? && WellFormedAt(body, n) && Resolved(body, n, c)
    ensures Found(c, [body[n].left, body[n].right]) && Waiting(body, n + 1) == Some(PendingFor(c, body[n]))
  {
    var node := body[n];
    assert Lookups(node) == [node.left, node.right];
    assert Renaming(body, n + 1) == Renaming(body, n);
    hide Renaming;
    assert Virtuals(c, [node.left, node.right])[0] == At(Renaming(body, n), node.left);
    assert Virtuals(c, [node.left, node.right])[1] == At(Renaming(body, n), node.right);
  }

  lemma StepsCompare(body: seq<Node>, n: nat, c: Context)
    requires n < |body| && WellFormedAt(body, n) && body[n].CompareNode?
    requires Orderly(body, n, c) && Resolved(body, n, c) && c.pending.None?
    ensures Stepped(body, n, c, ParseNode(c, body[n]))
  {
    hide Renaming, LabelNumbers, FunctionsUsed, Chunk, Waiting, Resolved, Found, PendingFor, ParseNode, Allocated;
    hide NamesOf, Dereferences, WellFormedAt, Taken;
    CompareWaits(body, n, c);
    CompareForm(c, body[n]);
    CompareAddsNothing(body, n, c);
  }

  lemma BranchForm(c: Context, node: Node, p: PendingCompare)
    requires node.BranchNode? && c.pending == Some(p) && p.resultSsa == node.condition
    requires c.nextLabelId == |c.labelIds|
    ensures var labels := Intern(c.labelIds, [node.trueLabel, node.falseLabel]);
            var ended := DereferenceAll(c, [p.lhsSsa, p.rhsSsa]);
            ParseBranch(c, node)
            == c.(pending := None, labelIds := labels, nextLabelId := |labels|,
                  registers := ended.registers, allocations := ended.allocations,
                  instructions := c.instructions
                    + [CompareAndJump(p.lhsVirtual, p.rhsVirtual, Invert(p.cc), At(labels, node.falseLabel)),
                       UnconditionalJump(At(labels, node.trueLabel))])
  {
    hide Intern, DereferenceAll;
    var idle := c.(pending := None);
    InternsTwo(idle, node.trueLabel, node.falseLabel);
    var named := LabelId(LabelId(idle, node.trueLabel), node.falseLabel);
    DereferenceAllFrame(named, c, [p.lhsSsa, p.rhsSsa]);
    var first := CompareAndJump(p.lhsVirtual, p.rhsVirtual, Invert(p.cc), named.labelIds[node.falseLabel]);
    var second := UnconditionalJump(named.labelIds[node.trueLabel]);
    assert c.instructions + [first] + [second] == c.instructions + [first, second];
  }

  lemma StepsBranch(body: seq<Node>, n: nat, c: Context)
    requires n < |body| && Compared(body, n) && Orderly(body, n, c)
    requires body[n - 1].left in Renaming(body, n - 1) && body[n - 1].right in Renaming(body, n - 1)
    ensures Stepped(body, n, c, ParseNode(c, body[n]))
  {
    hide ParseBranch, DereferenceAll, Intern, Chunks, LabelId, ToConditionCode, Invert, Found, Virtuals;
    var node := body[n];
    assert ResultOf(node).None? && ResultOf(body[n - 1]).None?;
    assert Renaming(body, n + 1) == Renaming(body, n) == Renaming(body, n - 1);
    assert NamesOf(node) == [node.trueLabel, node.falseLabel];
    BranchForm(c, node, c.pending.value);
  }

  lemma ParameterForm(c: Context, node: Node, v: nat)
    requires node.ParameterNode? && Found(c, [node.register.index]) && Virtuals(c, [node.register.index]) == [v]
    ensures ParseChecked(c, node)
         == Emit(UseFunction(c, node.scope),
                 Plain(CopyParameter, [IndexIn(c.functionUsage, node.scope), v, node.index]))
  {
    var index := IndexIn(c.functionUsage, node.scope);
    assert [index] + [v] + [node.index] == [index, v, node.index];
  }

  lemma PassesOn(body: seq<Node>, n: nat, c: Context, d: Context)
    requires n < |body| && body[n].ParameterNode? && Orderly(body, n, c) && c.pending.None?
    requires d == c.(functionUsage := FunctionsUsed(body, n + 1),
                     instructions := c.instructions + Chunk(body, n, Renaming(body, n + 1), LabelNumbers(body, n + 1)))
    ensures Stepped(body, n, c, d)
  {
    hide Renaming, Chunk, FunctionsUsed;
    assert NamesOf(body[n]) == [] && Dereferences(body, n) == [];
  }

  lemma StepsParameter(body: seq<Node>, n: nat, c: Context)
    requires n < |body| && WellFormedAt(body, n) && body[n].ParameterNode?
    requires Orderly(body, n, c) && Resolved(body, n, c) && c.pending.None?
    ensures Stepped(body, n, c, ParseNode(c, body[n]))
  {
    hide Renaming, LabelNumbers, ParseChecked, Stepped;
    var node := body[n];
    assert Lookups(node) == [node.register.index];
    assert Virtuals(c, [node.register.index]) == [At(Renaming(body, n + 1), node.register.index)];
    ParameterForm(c, node, At(Renaming(body, n + 1), node.register.index));
    PassesOn(body, n, c, ParseNode(c, node));
  }

  lemma {:induction false} PassesArguments(c: Context, index: nat, arguments: seq<nat>, next: nat, regs: map<nat, nat>)
    requires Found(c, arguments)
    requires forall k :: 0 <= k < |arguments| ==> c.allocations.live[arguments[k]] == At(regs, arguments[k])
    ensures PassArguments(c, index, arguments, next)
         == (c.(instructions := c.instructions + Passing(index, arguments, next, regs)), true)
    decreases |arguments|
  {
    if arguments == [] {
      assert c.instructions + [] == c.instructions;
    } else {
      var v := Virtuals(c, [arguments[0]]);
      assert arguments[0] in c.allocations.live && v == [At(regs, arguments[0])];
      var first := Plain(PassArgument, [index] + v + [next]);
      assert [index] + v + [next] == [index, At(regs, arguments[0]), next];
      PassesArguments(Emit(c, first), index, arguments[1..], next + 1, regs);
      assert c.instructions + [first] + Passing(index, arguments[1..], next + 1, regs)
          == c.instructions + ([first] + Passing(index, arguments[1..], next + 1, regs));
    }
  }

  lemma ArgumentsPassed(body: seq<Node>, n: nat, c: Context)
    requires n < |body| && body[n].CallNode? && Resolved(body, n, c)
    ensures var used, index := UseFunction(c, body[n].callee), IndexIn(c.functionUsage, body[n].callee);
            PassArguments(used, index, body[n].arguments, 0)
            == (used.(instructions := used.instructions + Passing(index, body[n].arguments, 0, Renaming(body, n + 1))), true)
  {
    hide Passing, PassArguments, Renaming;
    var node := body[n];
    var regs := Renaming(body, n + 1);
    assert Lookups(node) == node.arguments;
    forall k | 0 <= k < |node.arguments|
      ensures c.allocations.live[node.arguments[k]] == At(regs, node.arguments[k])
    {
      assert Virtuals(c, node.arguments)[k] == At(regs, node.arguments[k]);
    }
    PassesArguments(UseFunction(c, node.callee), IndexIn(c.functionUsage, node.callee), node.arguments, 0, regs);
  }

  lemma CallChunk(body: seq<Node>, n: nat, c: Context)
    requires n < |body| && body[n].CallNode? && Orderly(body, n, c)
    ensures var node, index := body[n], IndexIn(c.functionUsage, body[n].callee);
            Chunk(body, n, Renaming(body, n + 1), LabelNumbers(body, n + 1))
            == Passing(index, node.arguments, 0, Renaming(body, n + 1))
               + if node.callResult.None? then [Plain(Call, [index])]
                 else [Plain(CallWithResult, [|c.allocations.descriptors|, index])]
  {
    hide Passing, LabelNumbers;
  }

  lemma CallAddsNoName(body: seq<Node>, n: nat, c: Context)
    requires n < |body| && body[n].CallNode? && Orderly(body, n, c)
    ensures NamesOf(body[n]) == [] && Dereferences(body, n) == []
    ensures LabelNumbers(body, n + 1) == LabelNumbers(body, n) && Waiting(body, n + 1).None?
    ensures FunctionsUsed(body, n + 1) == UseFunction(c, body[n].callee).functionUsage
  {
  }

  /** Allocating a result concerns registers and allocations only. */
  lemma AllocationKeeps(c: Context, node: Node)
    ensures var d := Allocated(c, node);
            d == c.(registers := d.registers, allocations := d.allocations)
  {
  }

  lemma ParsesCall(c: Context, node: Node)
    requires node.CallNode? && c.pending.None?
    ensures ParseNode(c, node) == ParseCall(c, node)
  {
    hide ParseCall;
  }

  lemma StepsCall(body: seq<Node>, n: nat, c: Context)
    requires n < |body| && body[n].CallNode?
    requires Orderly(body, n, c) && Resolved(body, n, c) && c.pending.None?
    ensures Stepped(body, n, c, ParseNode(c, body[n]))
  {
    hide Resolved, Passing, PassArguments, Lookups, LabelNumbers, References, ParseNode, FunctionsUsed, Waiting, Renaming;
    hide NamesOf, Dereferences, Allocated;
    var node := body[n];
    ParsesCall(c, node);
    CallAddsNoName(body, n, c);
    var index := IndexIn(c.functionUsage, node.callee);
    ArgumentsPassed(body, n, c);
    CallForm(c, node, index, Passing(index, node.arguments, 0, Renaming(body, n + 1)));
    CallChunk(body, n, c);
    hide Chunk;
    AllocationKeeps(c, node);
  }

  lemma CallForm(c: Context, node: Node, index: nat, passing: seq<VirtualInstruction>)
    requires node.CallNode? && index == IndexIn(c.functionUsage, node.callee)
    requires var used := UseFunction(c, node.callee);
             PassArguments(used, index, node.arguments, 0) == (used.(instructions := used.instructions + passing), true)
    ensures ParseCall(c, node)
         == Allocated(c, node).(
              functionUsage := UseFunction(c, node.callee).functionUsage,
              instructions := c.instructions
                + (passing + if node.callResult.None? then [Plain(Call, [index])]
                             else [Plain(CallWithResult, [|c.allocations.descriptors|, index])]))
  {
    var last := if node.callResult.None? then [Plain(Call, [index])]
                else [Plain(CallWithResult, [|c.allocations.descriptors|, index])];
    assert c.instructions + passing + last == c.instructions + (passing + last);
  }

  // ----- every step -----

  lemma StepsNode(body: seq<Node>, n: nat, c: Context)
    requires WellFormed(body) && n < |body| && Good(body, n, c)
    ensures Stepped(body, n, c, ParseNode(c, body[n]))
  {
    assert WellFormedAt(body, n);
    if n > 0 {
      assert WellFormedAt(body, n - 1);
    }
    var node := body[n];
    if node.BranchNode? {
      assert Lookups(body[n - 1])[0] == body[n - 1].left && Lookups(body[n - 1])[1] == body[n - 1].right;
      StepsBranch(body, n, c);
    } else {
      AllFound(body, n, c);
      assert c.pending.None?;
      match node
      case BinaryNode(_, _, _, _) => StepsBinary(body, n, c);
      case DerefNode(_, _) => StepsLocating(body, n, c);
      case AddressOfNode(_, _) => StepsLocating(body, n, c);
      case StoreNode(_, _) => StepsStore(body, n, c);
      case StoreIntegerNode(_, _) => StepsStoreInteger(body, n, c);
      case IndirectStoreNode(_, _) => StepsIndirectStore(body, n, c);
      case AllocationNode(_) => StepsSimple(body, n, c);
      case ImmediateNode(_, _) => StepsSimple(body, n, c);
      case ReturnNode(_) => StepsSimple(body, n, c);
      case LabelNode(_) =>
        NewLabel(body, n);
        StepsLabel(body, n, c);
      case GotoNode(_) => StepsGoto(body, n, c);
      case CompareNode(_, _, _, _) => StepsCompare(body, n, c);
      case ParameterNode(_, _, _) => StepsParameter(body, n, c);
      case CallNode(_, _, _) => StepsCall(body, n, c);
      case _ => StepsOneOperand(body, n, c);
    }
  }

  /** Two renamings agree on everything a node mentions. */
  ghost predicate SameMeaning(node: Node, a: map<nat, nat>, b: map<nat, nat>, la: map<string, nat>, lb: map<string, nat>)
  {
    && (forall k :: 0 <= k < |Lookups(node)| ==> At(a, Lookups(node)[k]) == At(b, Lookups(node)[k]))
    && (ResultOf(node).Some? ==> At(a, ResultOf(node).value.index) == At(b, ResultOf(node).value.index))
    && (forall k :: 0 <= k < |NamesOf(node)| ==> At(la, NamesOf(node)[k]) == At(lb, NamesOf(node)[k]))
  }

  lemma ChunkOfTwoOperands(body: seq<Node>, n: nat, a: map<nat, nat>, b: map<nat, nat>, la: map<string, nat>,
                           lb: map<string, nat>)
    requires n < |body| && SameMeaning(body[n], a, b, la, lb)
    requires body[n].BinaryNode? || body[n].StoreNode? || body[n].IndirectStoreNode?
    ensures Chunk(body, n, a, la) == Chunk(body, n, b, lb)
  {
    var node := body[n];
    if node.BinaryNode? {
      assert Lookups(node)[0] == node.left && Lookups(node)[1] == node.right;
    } else {
      assert Lookups(node)[0] == node.target && Lookups(node)[1] == node.source;
    }
  }

  lemma ChunkOfOneOperand(body: seq<Node>, n: nat, a: map<nat, nat>, b: map<nat, nat>, la: map<string, nat>,
                          lb: map<string, nat>)
    requires n < |body| && SameMeaning(body[n], a, b, la, lb)
    requires body[n].UnaryNode? || body[n].ConvertNode? || body[n].PointerConvertNode? || body[n].DecayNode?
             || body[n].LoadNode? || body[n].DerefNode? || body[n].AddressOfNode?
    ensures Chunk(body, n, a, la) == Chunk(body, n, b, lb)
  {
    assert Lookups(body[n])[0] == body[n].operand;
  }

  lemma ChunkOfOthers(body: seq<Node>, n: nat, a: map<nat, nat>, b: map<nat, nat>, la: map<string, nat>,
                      lb: map<string, nat>)
    requires n < |body| && SameMeaning(body[n], a, b, la, lb)
    requires body[n].StoreIntegerNode? || body[n].ParameterNode? || body[n].ReturnNode? || body[n].LabelNode?
             || body[n].GotoNode? || body[n].AllocationNode? || body[n].ImmediateNode? || body[n].CompareNode?
             || body[n].CallNode?
    ensures Chunk(body, n, a, la) == Chunk(body, n, b, lb)
  {
    var node := body[n];
    match node
    case CallNode(_, callee, arguments) =>
      assert Lookups(node) == arguments;
      PassingStable(IndexIn(FunctionsUsed(body, n), callee), arguments, 0, a, b);
    case LabelNode(name) => assert NamesOf(node)[0] == name;
    case GotoNode(name) => assert NamesOf(node)[0] == name;
    case ReturnNode(returned) => assert returned.Some? ==> Lookups(node)[0] == returned.value;
    case ParameterNode(_, register, _) => assert Lookups(node)[0] == register.index;
    case StoreIntegerNode(target, _) => assert Lookups(node)[0] == target;
    case _ =>
  }

  lemma ChunkOfBranch(body: seq<Node>, n: nat, a: map<nat, nat>, b: map<nat, nat>, la: map<string, nat>,
                      lb: map<string, nat>)
    requires n < |body| && SameMeaning(body[n], a, b, la, lb) && Compared(body, n)
    requires SameMeaning(body[n - 1], a, b, la, lb)
    ensures Chunk(body, n, a, la) == Chunk(body, n, b, lb)
  {
    assert NamesOf(body[n])[0] == body[n].trueLabel && NamesOf(body[n])[1] == body[n].falseLabel;
    assert Lookups(body[n - 1])[0] == body[n - 1].left && Lookups(body[n - 1])[1] == body[n - 1].right;
  }

  /** What a node mentions means the same once it is translated as at the end. */
  lemma MeaningStable(body: seq<Node>, n: nat, m: nat)
    requires n < m <= |body| && SingleAssignment(body) && WellFormedAt(body, n)
    ensures SameMeaning(body[n], Renaming(body, m), Renaming(body, |body|), LabelNumbers(body, m),
                        LabelNumbers(body, |body|))
  {
    hide Renaming, LabelNumbers, At;
    OperandsStable(body, n, m);
    if ResultOf(body[n]).Some? {
      ResultStable(body, n, m);
    }
    NamesStable(body, n, m);
  }

  lemma OperandsStable(body: seq<Node>, n: nat, m: nat)
    requires n < m <= |body| && SingleAssignment(body) && WellFormedAt(body, n)
    ensures forall k :: 0 <= k < |Lookups(body[n])| ==>
              At(Renaming(body, m), Lookups(body[n])[k]) == At(Renaming(body, |body|), Lookups(body[n])[k])
  {
    hide Renaming, SingleAssignment, Compared, Ended;
    RenamingGrows(body, n, m);
    RenamingGrows(body, m, |body|);
  }

  lemma ResultStable(body: seq<Node>, n: nat, m: nat)
    requires n < m <= |body| && SingleAssignment(body) && ResultOf(body[n]).Some?
    ensures var r := ResultOf(body[n]).value.index; At(Renaming(body, m), r) == At(Renaming(body, |body|), r)
  {
    var r := ResultOf(body[n]).value.index;
    assert r in Renaming(body, n + 1);
    hide Renaming, SingleAssignment;
    RenamingGrows(body, n + 1, m);
    RenamingGrows(body, m, |body|);
  }

  lemma NamesStable(body: seq<Node>, n: nat, m: nat)
    requires n < m <= |body|
    ensures forall k :: 0 <= k < |NamesOf(body[n])| ==>
              At(LabelNumbers(body, m), NamesOf(body[n])[k]) == At(LabelNumbers(body, |body|), NamesOf(body[n])[k])
  {
    hide LabelNumbers;
    NameKnown(body, n, m);
    LabelNumbersGrow(body, m, |body|);
  }

  lemma ChunkStable(body: seq<Node>, n: nat)
    requires n < |body| && SingleAssignment(body) && WellFormedAt(body, n) && (n > 0 ==> WellFormedAt(body, n - 1))
    ensures Chunk(body, n, Renaming(body, n + 1), LabelNumbers(body, n + 1))
         == Chunk(body, n, Renaming(body, |body|), LabelNumbers(body, |body|))
  {
    hide Renaming, LabelNumbers, Chunk, Counted, Ended;
    var a, b := Renaming(body, n + 1), Renaming(body, |body|);
    var la, lb := LabelNumbers(body, n + 1), LabelNumbers(body, |body|);
    MeaningStable(body, n, n + 1);
    match body[n]
    case BinaryNode(_, _, _, _) => ChunkOfTwoOperands(body, n, a, b, la, lb);
    case StoreNode(_, _) => ChunkOfTwoOperands(body, n, a, b, la, lb);
    case IndirectStoreNode(_, _) => ChunkOfTwoOperands(body, n, a, b, la, lb);
    case BranchNode(_, _, _) =>
      MeaningStable(body, n - 1, n + 1);
      ChunkOfBranch(body, n, a, b, la, lb);
    case UnaryNode(_, _, _) => ChunkOfOneOperand(body, n, a, b, la, lb);
    case ConvertNode(_, _, _) => ChunkOfOneOperand(body, n, a, b, la, lb);
    case PointerConvertNode(_, _) => ChunkOfOneOperand(body, n, a, b, la, lb);
    case DecayNode(_, _) => ChunkOfOneOperand(body, n, a, b, la, lb);
    case LoadNode(_, _) => ChunkOfOneOperand(body, n, a, b, la, lb);
    case DerefNode(_, _) => ChunkOfOneOperand(body, n, a, b, la, lb);
    case AddressOfNode(_, _) => ChunkOfOneOperand(body, n, a, b, la, lb);
    case _ => ChunkOfOthers(body, n, a, b, la, lb);
  }

  lemma {:induction false} PassingStable(index: nat, arguments: seq<nat>, next: nat, a: map<nat, nat>, b: map<nat, nat>)
    requires forall k :: 0 <= k < |arguments| ==> At(a, arguments[k]) == At(b, arguments[k])
    ensures Passing(index, arguments, next, a) == Passing(index, arguments, next, b)
    decreases |arguments|
  {
    if arguments != [] {
      PassingStable(index, arguments[1..], next + 1, a, b);
    }
  }

  lemma DereferencesAreKnown(body: seq<Node>, n: nat, r: nat)
    requires n < |body| && SingleAssignment(body) && WellFormedAt(body, n) && (n > 0 ==> WellFormedAt(body, n - 1))
    requires Occurrences(Dereferences(body, n), r) > 0
    ensures r in Renaming(body, n)
  {
    OccursIn(Dereferences(body, n), r);
    if Compared(body, n) {
      assert Lookups(body[n - 1])[0] == body[n - 1].left && Lookups(body[n - 1])[1] == body[n - 1].right;
      RenamingGrows(body, n - 1, n);
    } else if body[n].StoreNode? {
      assert Lookups(body[n])[0] == body[n].target && Lookups(body[n])[1] == body[n].source;
    } else {
      assert Dereferences(body, n) == Lookups(body[n]);
    }
  }

  /** Allocating the result leaves every count alone and makes only the result live. */
  lemma AllocatedTracks(body: seq<Node>, n: nat, c: Context, r: nat)
    requires n < |body| && |c.allocations.descriptors| == Taken(body, n)
    ensures var a := Allocated(c, body[n]);
            && UseCount(a, r) == UseCount(c, r)
            && |a.allocations.descriptors| == Taken(body, n + 1)
            && (r in a.allocations.live <==>
                  r in c.allocations.live
                  || (ResultOf(body[n]).Some? && ResultOf(body[n]).value.index == r))
            && (r in a.allocations.live ==>
                  a.allocations.live[r]
                  == if ResultOf(body[n]).Some? && ResultOf(body[n]).value.index == r then Taken(body, n)
                     else c.allocations.live[r])
  {
  }

  lemma KeepsTracked(body: seq<Node>, n: nat, c: Context, d: Context, r: nat)
    requires n < |body| && SingleAssignment(body) && WellFormedAt(body, n) && (n > 0 ==> WellFormedAt(body, n - 1))
    requires Tracked(body, n, c, r) && |c.allocations.descriptors| == Taken(body, n)
    requires var ended := DereferenceAll(Allocated(c, body[n]), Dereferences(body, n));
             d.registers == ended.registers && d.allocations == ended.allocations
    ensures Tracked(body, n + 1, d, r)
    ensures |d.allocations.descriptors| == Taken(body, n + 1)
  {
    var a := Allocated(c, body[n]);
    var rs := Dereferences(body, n);
    AllocatedTracks(body, n, c, r);
    EnoughUses(body, n, r);
    DereferenceAllEffect(a, rs, r);
    if Occurrences(rs, r) > 0 {
      DereferencesAreKnown(body, n, r);
      ReleasedUses(body, n, r);
      RenamingGrows(body, n, n + 1);
    } else if ResultOf(body[n]).Some? {
      NewResult(body, n);
    }
  }

  lemma EnoughUses(body: seq<Node>, n: nat, r: nat)
    requires n < |body|
    ensures Counted(body, |body|, r) - Ended(body, n, r) >= Occurrences(Dereferences(body, n), r)
    ensures Ended(body, n + 1, r) == Ended(body, n, r) + Occurrences(Dereferences(body, n), r)
  {
    EndedWithinCounted(body, n + 1, r);
    CountedGrows(body, n + 1, |body|, r);
  }

  /** A register whose use ends now is not released yet. */
  lemma ReleasedUses(body: seq<Node>, n: nat, r: nat)
    requires n < |body| && Occurrences(Dereferences(body, n), r) > 0
    ensures !Released(body, n, r)
  {
    EndedWithinCounted(body, n + 1, r);
    CountedGrows(body, n + 1, |body|, r);
  }

  lemma SteppedLabels(body: seq<Node>, n: nat, c: Context, d: Context)
    requires n < |body| && Stepped(body, n, c, d) && c.labelIds == LabelNumbers(body, n)
    ensures d.definedLabels
         == c.definedLabels + if body[n].LabelNode? then {At(LabelNumbers(body, n + 1), body[n].name)} else {}
  {
    hide Chunk, Renaming, DereferenceAll, Allocated, FunctionsUsed, Waiting, Dereferences, Intern;
  }

  lemma KeepsPlaced(body: seq<Node>, n: nat, c: Context, d: Context, id: nat)
    requires n < |body| && (id in c.definedLabels <==> Placed(body, n, id))
    requires Stepped(body, n, c, d) && c.labelIds == LabelNumbers(body, n)
    ensures id in d.definedLabels <==> Placed(body, n + 1, id)
  {
    hide Stepped, LabelNumbers, Intern;
    SteppedLabels(body, n, c, d);
    if id in c.definedLabels {
      var i :| 0 <= i < n && body[i].LabelNode? && At(LabelNumbers(body, n), body[i].name) == id;
      NameKnown(body, i, n);
      LabelNumbersGrow(body, n, n + 1);
    }
    if Placed(body, n + 1, id) {
      var i :| 0 <= i < n + 1 && body[i].LabelNode? && At(LabelNumbers(body, n + 1), body[i].name) == id;
      if i < n {
        NameKnown(body, i, n);
        LabelNumbersGrow(body, n, n + 1);
      }
    }
  }

  lemma KeepsAllTracked(body: seq<Node>, n: nat, c: Context, d: Context, next: nat)
    requires n < |body| && SingleAssignment(body) && WellFormedAt(body, n) && (n > 0 ==> WellFormedAt(body, n - 1))
    requires Good(body, n, c) && Stepped(body, n, c, d) && next == n + 1
    ensures forall r :: Tracked(body, next, d, r)
    ensures |d.allocations.descriptors| == Taken(body, next)
  {
    forall r
      ensures Tracked(body, next, d, r)
    {
      assert Tracked(body, n, c, r);
      KeepsTracked(body, n, c, d, r);
    }
    KeepsTracked(body, n, c, d, 0);
  }

  lemma KeepsAllPlaced(body: seq<Node>, n: nat, c: Context, d: Context)
    requires n < |body| && Good(body, n, c) && Stepped(body, n, c, d)
    ensures forall id :: id in d.definedLabels <==> Placed(body, n + 1, id)
  {
    forall id
      ensures id in d.definedLabels <==> Placed(body, n + 1, id)
    {
      KeepsPlaced(body, n, c, d, id);
    }
  }

  lemma KeepsGood(body: seq<Node>, n: nat, c: Context, d: Context)
    requires WellFormed(body) && n < |body| && Good(body, n, c) && Stepped(body, n, c, d)
    ensures Good(body, n + 1, d)
  {
    hide Tracked, Placed, Chunk, Renaming;
    assert WellFormedAt(body, n);
    assert n > 0 ==> WellFormedAt(body, n - 1);
    KeepsAllTracked(body, n, c, d, n + 1);
    KeepsAllPlaced(body, n, c, d);
    ChunkStable(body, n);
  }

  lemma StartTracked(body: seq<Node>, r: nat)
    ensures Tracked(body, 0, Start(body), r)
  {
    ReferenceMapCounts(body, r);
  }

  lemma StartsGood(body: seq<Node>, n: nat, c: Context)
    requires n == 0 && c == Start(body)
    ensures Good(body, n, c)
  {
    forall r
      ensures Tracked(body, n, c, r)
    {
      StartTracked(body, r);
    }
  }

  /** Between any two nodes of a well-formed body, no lookup has failed, no pending comparison
      was lost, and every register still to be used is live. */
  lemma {:induction false} AlwaysGood(body: seq<Node>, n: nat)
    requires WellFormed(body) && n <= |body|
    ensures Good(body, n, Parsed(body, n))
    decreases n
  {
    hide Good, Stepped, WellFormed, ParseNode;
    if n == 0 {
      StartsGood(body, 0, Start(body));
    } else {
      AlwaysGood(body, n - 1);
      StepsNode(body, n - 1, Parsed(body, n - 1));
      KeepsGood(body, n - 1, Parsed(body, n - 1), Parsed(body, n));
    }
  }

  // ----- what the whole translation gives -----

  /** A well-formed body is translated without any error, into itself renamed. */
  lemma TranslatesWhole(body: seq<Node>)
    requires WellFormed(body)
    ensures Parsed(body, |body|).errors == 0
    ensures Parsed(body, |body|).instructions == Translation(body)
  {
    AlwaysGood(body, |body|);
  }

  /** No node ever looks up a released register. */
  lemma NeverLooksUpReleased(body: seq<Node>, n: nat)
    requires WellFormed(body) && n < |body|
    ensures Found(Parsed(body, n), Lookups(body[n]))
  {
    AlwaysGood(body, n);
    assert WellFormedAt(body, n);
    AllFound(body, n, Parsed(body, n));
  }

  /** No count ever drops below zero. */
  lemma CountsStayNonNegative(body: seq<Node>, n: nat, r: nat)
    requires WellFormed(body) && n <= |body|
    ensures UseCount(Parsed(body, n), r) >= 0
  {
    AlwaysGood(body, n);
    assert Tracked(body, n, Parsed(body, n), r);
    EndedWithinCounted(body, n, r);
    CountedGrows(body, n, |body|, r);
  }

  lemma AlwaysTracked(body: seq<Node>, n: nat, r: nat)
    requires WellFormed(body) && n <= |body|
    ensures Tracked(body, n, Parsed(body, n), r)
  {
    hide Tracked, Orderly, Parsed, WellFormed;
    AlwaysGood(body, n);
  }

  /** A register is released only when no later node is counted as using it. */
  lemma ReleasedMeansUnused(body: seq<Node>, n: nat, r: nat, j: nat)
    requires WellFormed(body) && n <= j < |body|
    requires r in Renaming(body, n) && r !in Parsed(body, n).allocations.live
    ensures r !in References(body[j])
  {
    hide Good, Renaming, WellFormed, Occurrences, References, Ended;
    AlwaysTracked(body, n, r);
    EndedWithinCounted(body, n, r);
    CountedGrows(body, n, j, r);
    CountedGrows(body, j + 1, |body|, r);
    OccursIn(References(body[j]), r);
  }

  // ----- which registers are released -----

  /** The counted uses of these nodes never end. */
  predicate KeepsUses(node: Node) {
    node.AddressOfNode? || node.DerefNode? || node.StoreIntegerNode? || node.CallNode?
  }

  /** An address is counted as using its own register too; the arguments of a call are its uses. */
  lemma KeptUses(node: Node)
    ensures node.AddressOfNode? ==> References(node) == [node.result.index, node.operand]
    ensures node.DerefNode? ==> References(node) == [node.operand]
    ensures node.StoreIntegerNode? ==> References(node) == [node.target]
    ensures node.CallNode? ==> References(node) == node.arguments
    ensures node.BranchNode? ==> References(node) == [node.condition]
  {
  }

  ghost predicate StaysUsed(body: seq<Node>, n: nat, r: nat)
    requires n <= |body|
  {
    exists i :: 0 <= i < n && KeepsUses(body[i]) && r in References(body[i])
  }

  lemma StaysUsedGrows(body: seq<Node>, n: nat, r: nat)
    requires n < |body|
    ensures StaysUsed(body, n + 1, r) <==> StaysUsed(body, n, r) || (KeepsUses(body[n]) && r in References(body[n]))
  {
  }

  lemma NodeBalances(body: seq<Node>, i: nat, r: nat)
    requires i < |body| && WellFormed(body) && r in Renaming(body, |body|)
    ensures var counted := Occurrences(References(body[i]), r);
            var ended := Occurrences(Dereferences(body, i), r) + OpenAt(body, i + 1, r) - OpenAt(body, i, r);
            if KeepsUses(body[i]) then ended == 0 else ended == counted
  {
    hide Renaming;
    assert WellFormedAt(body, i);
    if i > 0 {
      assert WellFormedAt(body, i - 1);
    }
    NodeEndsItsOwn(body, i, r);
    if body[i].StoreNode? {
      OccurrencesOfTwo(body[i].target, body[i].source, r);
      OccurrencesOfTwo(body[i].source, body[i].target, r);
    } else if body[i].BranchNode? {
      OccurrencesOfOne(body[i].condition, r);
    }
  }

  lemma {:induction false} UsesBalance(body: seq<Node>, n: nat, r: nat)
    requires n <= |body| && WellFormed(body) && r in Renaming(body, |body|)
    ensures Ended(body, n, r) + OpenAt(body, n, r) == Counted(body, n, r) <==> !StaysUsed(body, n, r)
    decreases n
  {
    hide WellFormed, Renaming, Occurrences, References, Dereferences, OpenAt, KeepsUses, StaysUsed;
    if n == 0 {
      NoneUsedYet(body, r);
    } else {
      UsesBalance(body, n - 1, r);
      NodeBalances(body, n - 1, r);
      EndedWithinCounted(body, n - 1, r);
      StaysUsedGrows(body, n - 1, r);
      OccursIn(References(body[n - 1]), r);
    }
  }

  lemma NoneUsedYet(body: seq<Node>, r: nat)
    ensures OpenAt(body, 0, r) == 0 && !StaysUsed(body, 0, r)
  {
  }

  lemma {:induction false} CountedIfUsed(body: seq<Node>, n: nat, r: nat)
    requires n <= |body|
    ensures Counted(body, n, r) == 0 <==> forall i :: 0 <= i < n ==> r !in References(body[i])
    decreases n
  {
    hide References, Occurrences;
    if n > 0 {
      CountedIfUsed(body, n - 1, r);
      OccursIn(References(body[n - 1]), r);
    }
  }

  /** A register that the body introduces is live at its end exactly if a use of it never ends, or there is none. */
  lemma LiveAtTheEnd(body: seq<Node>, r: nat)
    requires WellFormed(body) && r in Renaming(body, |body|)
    ensures r in Parsed(body, |body|).allocations.live
       <==> StaysUsed(body, |body|, r) || forall i :: 0 <= i < |body| ==> r !in References(body[i])
  {
    AlwaysTracked(body, |body|, r);
    NothingOpen(body, r);
    UsesBalance(body, |body|, r);
    EndedWithinCounted(body, |body|, r);
    CountedIfUsed(body, |body|, r);
    hide WellFormed, Renaming, References, Parsed, StaysUsed, Ended, Counted;
  }

  lemma NothingOpen(body: seq<Node>, r: nat)
    requires WellFormed(body)
    ensures OpenAt(body, |body|, r) == 0
  {
    if body != [] {
      assert WellFormedAt(body, |body| - 1);
    }
  }

  lemma OneUseCounted(body: seq<Node>, i: nat, r: nat)
    requires i < |body| && body[i].AddressOfNode? && body[i].operand == r
    ensures Counted(body, i, r) < Counted(body, i + 1, r)
  {
    assert References(body[i])[1] == r;
    OccursIn(References(body[i]), r);
  }

  lemma OneUseBegins(body: seq<Node>, i: nat, r: nat)
    requires i < |body| && body[i].AddressOfNode? && body[i].operand == r
    ensures Ended(body, i + 1, r) + OpenAt(body, i + 1, r) < Counted(body, i + 1, r)
  {
    EndedWithinCounted(body, i, r);
    assert References(body[i])[1] == r;
    OccursIn(References(body[i]), r);
    assert Dereferences(body, i) == [];
    hide References;
  }

  lemma {:induction false} OneUseNeverEnds(body: seq<Node>, i: nat, n: nat, r: nat)
    requires i < n <= |body| && body[i].AddressOfNode? && body[i].operand == r
    ensures Ended(body, n, r) + OpenAt(body, n, r) < Counted(body, n, r)
    decreases n
  {
    hide Occurrences, References, Dereferences, OpenAt;
    if n == i + 1 {
      hide Ended, Counted;
      OneUseBegins(body, i, r);
    } else {
      OneUseNeverEnds(body, i, n - 1, r);
      UseStaysOpen(body, n - 1, r);
    }
  }

  /** A node adds no more to the ended uses than to the counted ones, those still open included. */
  lemma UseStaysOpen(body: seq<Node>, i: nat, r: nat)
    requires i < |body|
    ensures Ended(body, i + 1, r) + OpenAt(body, i + 1, r) - Ended(body, i, r) - OpenAt(body, i, r)
            <= Counted(body, i + 1, r) - Counted(body, i, r)
  {
    NodeEndsItsOwn(body, i, r);
    hide References, Lookups;
  }

  lemma OneUseRemains(body: seq<Node>, i: nat, n: nat, r: nat)
    requires i < |body| && n <= |body| && body[i].AddressOfNode? && body[i].operand == r
    ensures Ended(body, n, r) < Counted(body, |body|, r)
  {
    hide References, Occurrences, Dereferences, OpenAt, Ended, Counted;
    if n <= i {
      EndedWithinCounted(body, n, r);
      CountedGrows(body, n, i, r);
      CountedGrows(body, i + 1, |body|, r);
      OneUseCounted(body, i, r);
    } else {
      OneUseNeverEnds(body, i, n, r);
      CountedGrows(body, n, |body|, r);
    }
  }

  /** A register whose address is taken anywhere in the body is never released. */
  lemma AddressTakenStaysLive(body: seq<Node>, i: nat, n: nat, r: nat)
    requires WellFormed(body) && i < |body| && n <= |body|
    requires body[i].AddressOfNode? && body[i].operand == r && r in Renaming(body, n)
    ensures r in Parsed(body, n).allocations.live
  {
    AlwaysGood(body, n);
    assert Tracked(body, n, Parsed(body, n), r);
    OneUseRemains(body, i, n, r);
  }
}
