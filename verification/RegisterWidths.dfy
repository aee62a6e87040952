/** The widths and classes that virtual registers get from a body. */
module RegisterWidths {
  import opened Options
  import opened VirtualCode
  import opened AllocationMaps
  import opened Ssa
  import opened PseudoAssembly
  import opened ReferenceCounts
  import opened BodyTranslation

  /** How each register is laid out: a cell as it is declared, an operator at the width of its first operand,
      anything else at its own width. */
  function LayOut(before: map<nat, Descriptor>, node: Node): map<nat, Descriptor> {
    match node
    case AllocationNode(register) => before[register.index := Descriptor(register.width, AllocationClass.Allocation)]
    case BinaryNode(op, result, left, _) =>
      if op.Modulo? then before
      else before[result.index := Descriptor(WidthAt(before, left), AllocationClass.Temporary)]
    case UnaryNode(_, result, operand) =>
      before[result.index := Descriptor(WidthAt(before, operand), AllocationClass.Temporary)]
    case _ =>
      if ResultOf(node).None? then before
      else before[ResultOf(node).value.index := Descriptor(ResultOf(node).value.width, AllocationClass.Temporary)]
  }

  function Layouts(body: seq<Node>, n: nat): map<nat, Descriptor>
    requires n <= |body|
  {
    if n == 0 then map[] else LayOut(Layouts(body, n - 1), body[n - 1])
  }

  function WidthAt(layouts: map<nat, Descriptor>, r: nat): nat {
    if r in layouts then layouts[r].width else 0
  }

  lemma {:induction false} LayoutStays(body: seq<Node>, i: nat, n: nat, r: nat)
    requires SingleAssignment(body) && i < n <= |body| && ResultOf(body[i]).Some? && ResultOf(body[i]).value.index == r
    ensures r in Layouts(body, i + 1) && r in Layouts(body, n) && Layouts(body, n)[r] == Layouts(body, i + 1)[r]
    decreases n
  {
    if i < n - 1 {
      LayoutStays(body, i, n - 1, r);
    }
  }

  /** Cells of allocations and no others are laid out as such, and registers at their own width, except for those of
      operators, which have the width of their first operand. */
  lemma LaidOutAs(body: seq<Node>, i: nat)
    requires SingleAssignment(body) && i < |body| && ResultOf(body[i]).Some?
    ensures var register, layouts := ResultOf(body[i]).value, Layouts(body, |body|);
            register.index in layouts
            && (layouts[register.index].class_ == AllocationClass.Allocation <==> body[i].AllocationNode?)
            && (layouts[register.index].class_ == AllocationClass.Temporary <==> !body[i].AllocationNode?)
            && (!body[i].BinaryNode? && !body[i].UnaryNode? ==> layouts[register.index].width == register.width)
            && (body[i].UnaryNode? && body[i].operand in Layouts(body, i) ==>
                  layouts[register.index].width == Layouts(body, i)[body[i].operand].width)
            && (body[i].BinaryNode? && body[i].left in Layouts(body, i) ==>
                  layouts[register.index].width == Layouts(body, i)[body[i].left].width)
  {
    LayoutStays(body, i, |body|, ResultOf(body[i]).value.index);
  }

  /** Every virtual register is described as the register it stands for is laid out, in both places. */
  ghost predicate Described(body: seq<Node>, n: nat, c: Context)
    requires n <= |body|
  {
    Renaming(body, n).Keys == Layouts(body, n).Keys
    && (forall r :: r in Renaming(body, n) ==>
          Renaming(body, n)[r] < |c.allocations.descriptors|
          && c.allocations.descriptors[Renaming(body, n)[r]] == Layouts(body, n)[r])
    && Agreeing(c)
  }

  ghost predicate Agreeing(c: Context) {
    forall v :: 0 <= v < |c.allocations.descriptors| ==>
      Data(c.registers, v).width == c.allocations.descriptors[v].width
      && Data(c.registers, v).allocationClass == c.allocations.descriptors[v].class_
  }

  lemma {:induction false} EndingKeepsAgreeing(c: Context, rs: seq<nat>)
    requires Agreeing(c)
    ensures Agreeing(DereferenceAll(c, rs))
    ensures DereferenceAll(c, rs).allocations.descriptors == c.allocations.descriptors
    decreases |rs|
  {
    if rs != [] {
      EndingKeepsAgreeing(Dereference(c, rs[0]), rs[1..]);
    }
  }

  lemma OperandWidth(body: seq<Node>, n: nat, c: Context, r: nat)
    requires n <= |body| && Described(body, n, c) && r in Renaming(body, n)
    requires r in c.allocations.live && c.allocations.live[r] == Renaming(body, n)[r]
    ensures DescribedWidth(c, r) == WidthAt(Layouts(body, n), r)
  {
  }

  /** What the result of a node is allocated as. */
  lemma AllocatedAs(body: seq<Node>, n: nat, c: Context)
    requires WellFormed(body) && n < |body| && Good(body, n, c) && Described(body, n, c) && ResultOf(body[n]).Some?
    ensures ResultOf(body[n]).value.index in Layouts(body, n + 1)
    ensures Allocated(c, body[n]).allocations
         == var layout := Layouts(body, n + 1)[ResultOf(body[n]).value.index];
            c.allocations.Emplace(ResultOf(body[n]).value.index, layout.width, layout.class_)
  {
    hide Described, Renaming;
    assert WellFormedAt(body, n);
    AllFound(body, n, c);
    if body[n].BinaryNode? || body[n].UnaryNode? {
      var operand := if body[n].BinaryNode? then body[n].left else body[n].operand;
      assert Lookups(body[n])[0] == operand;
      assert Tracked(body, n, c, operand);
      OperandWidth(body, n, c, operand);
    }
  }

  lemma AllocatingAgrees(c: Context, node: Node)
    requires Agreeing(c)
    ensures Agreeing(Allocated(c, node))
  {
  }

  lemma NothingLaidOut(body: seq<Node>, n: nat)
    requires n < |body| && ResultOf(body[n]).None?
    ensures Renaming(body, n + 1) == Renaming(body, n) && Layouts(body, n + 1) == Layouts(body, n)
  {
  }

  lemma OneLaidOut(body: seq<Node>, n: nat)
    requires n < |body| && ResultOf(body[n]).Some?
    ensures var r := ResultOf(body[n]).value.index;
            Renaming(body, n + 1) == Renaming(body, n)[r := Taken(body, n)]
            && r in Layouts(body, n + 1) && Layouts(body, n + 1) == Layouts(body, n)[r := Layouts(body, n + 1)[r]]
  {
  }

  lemma DescriptorsAfter(body: seq<Node>, n: nat, c: Context, d: Context)
    requires n < |body| && Described(body, n, c) && Stepped(body, n, c, d)
    ensures Agreeing(d) && d.allocations.descriptors == Allocated(c, body[n]).allocations.descriptors
  {
    hide Agreeing, Allocated, Renaming, Layouts, Chunk, Intern, FunctionsUsed, Waiting;
    AllocatingAgrees(c, body[n]);
    EndingKeepsAgreeing(Allocated(c, body[n]), Dereferences(body, n));
    SameRegisters(DereferenceAll(Allocated(c, body[n]), Dereferences(body, n)), d);
  }

  lemma SameRegisters(c: Context, d: Context)
    requires Agreeing(c) && c.registers == d.registers && c.allocations == d.allocations
    ensures Agreeing(d)
  {
  }

  lemma KeepsDescribed(body: seq<Node>, n: nat, c: Context, d: Context)
    requires WellFormed(body) && n < |body| && Good(body, n, c) && Described(body, n, c) && Stepped(body, n, c, d)
    ensures Described(body, n + 1, d)
  {
    hide Agreeing, Allocated, Renaming, Layouts, Stepped, WellFormed, Tracked, Placed;
    DescriptorsAfter(body, n, c, d);
    if ResultOf(body[n]).Some? {
      AllocatedAs(body, n, c);
      OneLaidOut(body, n);
    } else {
      NothingLaidOut(body, n);
      NothingAllocated(c, body[n]);
    }
  }

  lemma NothingAllocated(c: Context, node: Node)
    requires ResultOf(node).None?
    ensures Allocated(c, node) == c
  {
  }

  /** At any point of the translation of a well-formed body, every virtual register has the width and the class
      that its register was laid out with. */
  lemma {:induction false} WidthsAreDescribed(body: seq<Node>, n: nat)
    requires WellFormed(body) && n <= |body|
    ensures Described(body, n, Parsed(body, n))
    decreases n
  {
    hide Described, Good, WellFormed, ParseNode, Stepped;
    if n == 0 {
      NothingDescribedYet(body);
    } else {
      WidthsAreDescribed(body, n - 1);
      AlwaysGood(body, n - 1);
      StepsNode(body, n - 1, Parsed(body, n - 1));
      KeepsDescribed(body, n - 1, Parsed(body, n - 1), Parsed(body, n));
    }
  }

  lemma NothingDescribedYet(body: seq<Node>)
    ensures Described(body, 0, Parsed(body, 0))
  {
  }
}
