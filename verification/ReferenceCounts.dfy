/** Reference counts and translation of a whole body. A body that defines every register once,
    before its uses, is translated without a single failed lookup: a register is released only
    when no counted use of it remains. What comes out is the body itself with registers and
    labels renamed. */
module ReferenceCounts {
  import opened Options
  import opened VirtualCode
  import opened AllocationMaps
  import opened Ssa
  import opened PseudoAssembly

  // ----- the bodies that lowering builds -----

  /** The registers looked up when a node is translated. */
  function Lookups(node: Node): seq<nat> {
    match node
    case AddressOfNode(_, operand) => [operand]
    case ParameterNode(_, register, _) => [register.index]
    case BranchNode(_, _, _) => []
    case _ => References(node)
  }

  /** The counted uses that translating node `i` ends. Those of a comparison end with its branch;
      those of an address-of, a dereference, an integer store and a call never do. */
  function Dereferences(body: seq<Node>, i: nat): seq<nat>
    requires i < |body|
  {
    match body[i]
    case BinaryNode(_, _, left, right) => [left, right]
    case UnaryNode(_, _, operand) => [operand]
    case ConvertNode(_, _, operand) => [operand]
    case PointerConvertNode(_, operand) => [operand]
    case DecayNode(_, operand) => [operand]
    case LoadNode(_, operand) => [operand]
    case StoreNode(target, source) => [source, target]
    case IndirectStoreNode(target, source) => [target, source]
    case BranchNode(_, _, _) => if Compared(body, i) then [body[i - 1].left, body[i - 1].right] else []
    case ReturnNode(Some(operand)) => [operand]
    case _ => []
  }

  /** Node `i` branches on the comparison directly before it. */
  predicate Compared(body: seq<Node>, i: nat)
    requires i < |body|
  {
    i > 0 && body[i].BranchNode? && body[i - 1].CompareNode? && body[i - 1].result.index == body[i].condition
  }

  function Occurrences(rs: seq<nat>, r: nat): nat {
    if rs == [] then 0 else Occurrences(rs[..|rs| - 1], r) + if rs[|rs| - 1] == r then 1 else 0
  }

  lemma OccurrencesOfOne(a: nat, r: nat)
    ensures Occurrences([a], r) == if a == r then 1 else 0
  {
    assert [a][..0] == [];
  }

  lemma OccurrencesOfTwo(a: nat, b: nat, r: nat)
    ensures Occurrences([a, b], r) == (if a == r then 1 else 0) + if b == r then 1 else 0
  {
    OccurrencesOfOne(a, r);
    assert [a, b][..1] == [a];
  }

  function Counted(body: seq<Node>, n: nat, r: nat): nat
    requires n <= |body|
  {
    if n == 0 then 0 else Counted(body, n - 1, r) + Occurrences(References(body[n - 1]), r)
  }

  function Ended(body: seq<Node>, n: nat, r: nat): nat
    requires n <= |body|
  {
    if n == 0 then 0 else Ended(body, n - 1, r) + Occurrences(Dereferences(body, n - 1), r)
  }

  /** How many virtual registers the first `n` nodes take. */
  function Taken(body: seq<Node>, n: nat): nat
    requires n <= |body|
  {
    if n == 0 then 0 else Taken(body, n - 1) + if ResultOf(body[n - 1]).Some? then 1 else 0
  }

  /** The virtual register of every SSA register the first `n` nodes introduce. */
  function Renaming(body: seq<Node>, n: nat): map<nat, nat>
    requires n <= |body|
  {
    if n == 0 then map[]
    else
      var before := Renaming(body, n - 1);
      match ResultOf(body[n - 1])
      case None => before
      case Some(register) => before[register.index := Taken(body, n - 1)]
  }

  /** Every register has one definition. */
  ghost predicate SingleAssignment(body: seq<Node>) {
    forall i, j :: 0 <= i < j < |body| && ResultOf(body[i]).Some? && ResultOf(body[j]).Some? ==>
      ResultOf(body[i]).value.index != ResultOf(body[j]).value.index
  }

  /** Registers are introduced before they are looked up; no modulo, which is not translated; a
      comparison and its branch are neighbours, and its result is no other node's; a parameter is
      stored before any counted use of its register ends. */
  ghost predicate WellFormedAt(body: seq<Node>, i: nat)
    requires i < |body|
  {
    && (forall k :: 0 <= k < |Lookups(body[i])| ==> Lookups(body[i])[k] in Renaming(body, i))
    && (body[i].BinaryNode? ==> !body[i].binary.Modulo?)
    && (body[i].BranchNode? ==> Compared(body, i))
    && (body[i].CompareNode? ==>
          i + 1 < |body| && Compared(body, i + 1) && body[i].result.index !in Renaming(body, |body|))
    && (body[i].ParameterNode? ==> Ended(body, i, body[i].register.index) == 0)
  }

  ghost predicate WellFormed(body: seq<Node>) {
    SingleAssignment(body) && UniqueNames(body) && forall i :: 0 <= i < |body| ==> WellFormedAt(body, i)
  }

  // ----- what the translation comes to -----

  function NamesOf(node: Node): seq<string> {
    match node
    case LabelNode(name) => [name]
    case GotoNode(name) => [name]
    case BranchNode(_, trueLabel, falseLabel) => [trueLabel, falseLabel]
    case _ => []
  }

  function Intern(ids: map<string, nat>, names: seq<string>): map<string, nat>
    decreases |names|
  {
    if names == [] then ids
    else Intern(if names[0] in ids then ids else ids[names[0] := |ids|], names[1..])
  }

  /** Label numbers, in order of first mention. */
  function LabelNumbers(body: seq<Node>, n: nat): map<string, nat>
    requires n <= |body|
  {
    if n == 0 then map[] else Intern(LabelNumbers(body, n - 1), NamesOf(body[n - 1]))
  }

  function FunctionsUsed(body: seq<Node>, n: nat): seq<nat>
    requires n <= |body|
  {
    if n == 0 then []
    else
      var before := FunctionsUsed(body, n - 1);
      var used := match body[n - 1] { case ParameterNode(scope, _, _) => [scope] case CallNode(_, callee, _) => [callee]
                                      case _ => [] };
      if used == [] || used[0] in before then before else before + used
  }

  function At<K>(m: map<K, nat>, k: K): nat {
    if k in m then m[k] else 0
  }

  function AtAll(m: map<nat, nat>, ks: seq<nat>): seq<nat> {
    seq(|ks|, i requires 0 <= i < |ks| => At(m, ks[i]))
  }

  function Passing(index: nat, arguments: seq<nat>, next: nat, regs: map<nat, nat>): seq<VirtualInstruction>
    decreases |arguments|
  {
    if arguments == [] then []
    else [Plain(PassArgument, [index, At(regs, arguments[0]), next])] + Passing(index, arguments[1..], next + 1, regs)
  }

  /** Node `i` under a renaming of registers and a numbering of labels. */
  function Chunk(body: seq<Node>, i: nat, regs: map<nat, nat>, labels: map<string, nat>): seq<VirtualInstruction>
    requires i < |body|
  {
    match body[i]
    case AllocationNode(_) => []
    case ParameterNode(scope, register, index) =>
      [Plain(CopyParameter, [IndexIn(FunctionsUsed(body, i), scope), At(regs, register.index), index])]
    case ImmediateNode(result, value) => [Plain(CopyInteger, [At(regs, result.index), value])]
    case BinaryNode(op, result, left, right) =>
      if op.Modulo? then [] else [Plain(BinaryOpcode(op), [At(regs, result.index), At(regs, left), At(regs, right)])]
    case UnaryNode(op, result, operand) => [Plain(UnaryOpcode(op), [At(regs, result.index), At(regs, operand)])]
    case ConvertNode(c, result, operand) => [Plain(ConversionOpcode(c), [At(regs, result.index), At(regs, operand)])]
    case PointerConvertNode(result, operand) => [Plain(Copy, [At(regs, result.index), At(regs, operand)])]
    case DecayNode(result, operand) => [Plain(AddressOf, [At(regs, result.index), At(regs, operand)])]
    case LoadNode(result, operand) => [Plain(Copy, [At(regs, result.index), At(regs, operand)])]
    case DerefNode(result, operand) => [Plain(Indirection, [At(regs, result.index), At(regs, operand)])]
    case AddressOfNode(result, operand) => [Plain(AddressOf, [At(regs, result.index), At(regs, operand)])]
    case StoreNode(target, source) => [Plain(Copy, [At(regs, target), At(regs, source)])]
    case StoreIntegerNode(target, value) => [Plain(CopyInteger, [At(regs, target), value])]
    case IndirectStoreNode(target, source) => [Plain(IndirectStore, [At(regs, target), At(regs, source)])]
    case CallNode(result, callee, arguments) =>
      var index := IndexIn(FunctionsUsed(body, i), callee);
      Passing(index, arguments, 0, regs)
      + if result.None? then [Plain(Call, [index])] else [Plain(CallWithResult, [At(regs, result.value.index), index])]
    case CompareNode(_, _, _, _) => []
    case BranchNode(_, trueLabel, falseLabel) =>
      if !Compared(body, i) then []
      else
        [CompareAndJump(At(regs, body[i - 1].left), At(regs, body[i - 1].right),
                        Invert(ToConditionCode(body[i - 1].comparison)), At(labels, falseLabel)),
         UnconditionalJump(At(labels, trueLabel))]
    case LabelNode(name) => [Label(At(labels, name))]
    case GotoNode(name) => [UnconditionalJump(At(labels, name))]
    case ReturnNode(None) => [Return([])]
    case ReturnNode(Some(operand)) => [Return([At(regs, operand)])]
  }

  function Chunks(body: seq<Node>, n: nat, regs: map<nat, nat>, labels: map<string, nat>): seq<VirtualInstruction>
    requires n <= |body|
  {
    if n == 0 then [] else Chunks(body, n - 1, regs, labels) + Chunk(body, n - 1, regs, labels)
  }

  function Translation(body: seq<Node>): seq<VirtualInstruction> {
    Chunks(body, |body|, Renaming(body, |body|), LabelNumbers(body, |body|))
  }

  function Start(body: seq<Node>): Context {
    Context([], NO_ALLOCATIONS, CreateReferenceMap(map[], body), map[], 0, {}, {}, [], None, 0)
  }

  /** The parsing context after the first `n` nodes. */
  function Parsed(body: seq<Node>, n: nat): Context
    requires n <= |body|
  {
    if n == 0 then Start(body) else ParseNode(Parsed(body, n - 1), body[n - 1])
  }

  // ----- counting -----

  lemma {:induction false} ReferenceAllCounts(registers: map<nat, RegisterData>, rs: seq<nat>, r: nat)
    ensures Data(ReferenceAll(registers, rs), r).useCount == Data(registers, r).useCount + Occurrences(rs, r)
    decreases |rs|
  {
    if rs != [] {
      ReferenceAllCounts(registers, rs[..|rs| - 1], r);
    }
  }

  lemma {:induction false} CountedPrefix(body: seq<Node>, n: nat, r: nat)
    requires n < |body|
    ensures Counted(body[..|body| - 1], n, r) == Counted(body, n, r)
    decreases n
  {
    if n > 0 {
      CountedPrefix(body, n - 1, r);
      assert body[..|body| - 1][n - 1] == body[n - 1];
    }
  }

  /** The map made in advance holds, for every register, the number of its counted uses. */
  lemma {:induction false} ReferenceMapCounts(body: seq<Node>, r: nat)
    ensures Data(CreateReferenceMap(map[], body), r).useCount == Counted(body, |body|, r)
    decreases |body|
  {
    if body != [] {
      var shorter := body[..|body| - 1];
      ReferenceMapCounts(shorter, r);
      CountedPrefix(body, |body| - 1, r);
      ReferenceAllCounts(CreateReferenceMap(map[], shorter), References(body[|body| - 1]), r);
    }
  }

  lemma {:induction false} CountedGrows(body: seq<Node>, i: nat, n: nat, r: nat)
    requires i <= n <= |body|
    ensures Counted(body, i, r) <= Counted(body, n, r)
    decreases n
  {
    if i < n {
      CountedGrows(body, i, n - 1, r);
    }
  }

  /** A node ends at most the uses it was counted for, and a branch those of its comparison. */
  lemma NodeEndsItsOwn(body: seq<Node>, i: nat, r: nat)
    requires i < |body|
    ensures Compared(body, i) ==> Dereferences(body, i) == References(body[i - 1])
    ensures !Compared(body, i) ==>
              Occurrences(Dereferences(body, i), r) <= Occurrences(References(body[i]), r)
    ensures body[i].CompareNode? ==> Dereferences(body, i) == []
  {
    if body[i].StoreNode? {
      OccurrencesOfTwo(body[i].target, body[i].source, r);
      OccurrencesOfTwo(body[i].source, body[i].target, r);
    } else if !Compared(body, i) {
      assert Dereferences(body, i) == References(body[i]) || Dereferences(body, i) == [];
    }
  }

  function OpenAt(body: seq<Node>, n: nat, r: nat): nat
    requires n <= |body|
  {
    if n > 0 && body[n - 1].CompareNode? then Occurrences(References(body[n - 1]), r) else 0
  }

  /** Uses end no faster than they were counted; a comparison's are still open at its branch. */
  lemma {:induction false} EndedWithinCounted(body: seq<Node>, n: nat, r: nat)
    requires n <= |body|
    ensures Ended(body, n, r) + OpenAt(body, n, r) <= Counted(body, n, r)
    decreases n
  {
    hide References, Dereferences;
    if n > 0 {
      EndedWithinCounted(body, n - 1, r);
      NodeEndsItsOwn(body, n - 1, r);
    }
  }

  // ----- renaming -----

  lemma {:induction false} RenamingBounds(body: seq<Node>, n: nat)
    requires n <= |body|
    ensures forall r :: r in Renaming(body, n) ==> Renaming(body, n)[r] < Taken(body, n)
    ensures Injective(Renaming(body, n)) || !SingleAssignment(body)
    ensures forall r :: r in Renaming(body, n) ==>
              exists j :: 0 <= j < n && ResultOf(body[j]).Some? && ResultOf(body[j]).value.index == r
    decreases n
  {
    if n > 0 {
      RenamingBounds(body, n - 1);
    }
  }

  lemma {:induction false} RenamingGrows(body: seq<Node>, i: nat, n: nat)
    requires SingleAssignment(body) && i <= n <= |body|
    ensures forall r :: r in Renaming(body, i) ==>
              r in Renaming(body, n) && Renaming(body, n)[r] == Renaming(body, i)[r]
    decreases n
  {
    if i < n {
      RenamingGrows(body, i, n - 1);
      RenamingBounds(body, n - 1);
    }
  }

  lemma NewResult(body: seq<Node>, n: nat)
    requires SingleAssignment(body) && n < |body| && ResultOf(body[n]).Some?
    ensures ResultOf(body[n]).value.index !in Renaming(body, n)
  {
    RenamingBounds(body, n);
  }

  lemma {:induction false} InternGrows(ids: map<string, nat>, names: seq<string>)
    ensures forall name :: name in ids ==> name in Intern(ids, names) && Intern(ids, names)[name] == ids[name]
    ensures forall k :: 0 <= k < |names| ==> names[k] in Intern(ids, names)
    decreases |names|
  {
    if names != [] {
      InternGrows(if names[0] in ids then ids else ids[names[0] := |ids|], names[1..]);
    }
  }

  lemma {:induction false} LabelNumbersGrow(body: seq<Node>, i: nat, n: nat)
    requires i <= n <= |body|
    ensures forall name :: name in LabelNumbers(body, i) ==>
              name in LabelNumbers(body, n) && LabelNumbers(body, n)[name] == LabelNumbers(body, i)[name]
    decreases n
  {
    if i < n {
      LabelNumbersGrow(body, i, n - 1);
      InternGrows(LabelNumbers(body, n - 1), NamesOf(body[n - 1]));
    }
  }

  ghost predicate Numbering(ids: map<string, nat>) {
    (forall a :: a in ids ==> ids[a] < |ids|)
    && (forall a, b :: a in ids && b in ids && ids[a] == ids[b] ==> a == b)
  }

  lemma {:induction false} InternNumbers(ids: map<string, nat>, names: seq<string>)
    requires Numbering(ids)
    ensures Numbering(Intern(ids, names))
    decreases |names|
  {
    if names != [] {
      InternNumbers(if names[0] in ids then ids else ids[names[0] := |ids|], names[1..]);
    }
  }

  /** Different labels have different numbers. */
  lemma {:induction false} LabelNumbersDistinct(body: seq<Node>, n: nat)
    requires n <= |body|
    ensures Numbering(LabelNumbers(body, n))
    decreases n
  {
    if n > 0 {
      LabelNumbersDistinct(body, n - 1);
      InternNumbers(LabelNumbers(body, n - 1), NamesOf(body[n - 1]));
    }
  }
}
