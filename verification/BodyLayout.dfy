/** The translation of a well-formed body is laid out for it, so body and translation halt together,
    with the same memory and the same returned value. */
module BodyLayout {
  import opened Options
  import opened VirtualCode
  import opened AllocationMaps
  import opened Ssa
  import opened PseudoAssembly
  import opened ReferenceCounts
  import opened BodyTranslation
  import opened CodeSimulation

  // ----- where nodes and labels end up -----

  function Registers(body: seq<Node>): map<nat, nat> {
    Renaming(body, |body|)
  }

  function Labels(body: seq<Node>): map<string, nat> {
    LabelNumbers(body, |body|)
  }

  function Offset(body: seq<Node>, i: nat): nat
    requires i <= |body|
  {
    |Chunks(body, i, Registers(body), Labels(body))|
  }

  lemma {:induction false} ChunksGrow(body: seq<Node>, i: nat, n: nat, regs: map<nat, nat>, labels: map<string, nat>)
    requires i <= n <= |body|
    ensures Chunks(body, i, regs, labels) <= Chunks(body, n, regs, labels)
    decreases n
  {
    if i < n {
      ChunksGrow(body, i, n - 1, regs, labels);
    }
  }

  lemma PartInPlace<T>(whole: seq<T>, front: seq<T>, part: seq<T>)
    requires front + part <= whole
    ensures |front| + |part| <= |whole|
    ensures forall k :: 0 <= k < |part| ==> whole[|front| + k] == part[k]
  {
    forall k | 0 <= k < |part| ensures whole[|front| + k] == part[k] {
      assert (front + part)[|front| + k] == part[k];
    }
  }

  lemma OneMoreChunk(body: seq<Node>, i: nat)
    requires i < |body|
    ensures Chunks(body, i + 1, Registers(body), Labels(body))
         == Chunks(body, i, Registers(body), Labels(body)) + Chunk(body, i, Registers(body), Labels(body))
    ensures Chunks(body, i + 1, Registers(body), Labels(body)) <= Translation(body)
  {
    hide Chunk, Renaming, LabelNumbers;
    ChunksGrow(body, i + 1, |body|, Registers(body), Labels(body));
  }

  lemma ChunkInPlace(body: seq<Node>, i: nat)
    requires i < |body|
    ensures Offset(body, i + 1) == Offset(body, i) + |Chunk(body, i, Registers(body), Labels(body))|
    ensures Offset(body, i + 1) <= |Translation(body)|
    ensures forall k :: 0 <= k < |Chunk(body, i, Registers(body), Labels(body))| ==>
              Translation(body)[Offset(body, i) + k] == Chunk(body, i, Registers(body), Labels(body))[k]
  {
    hide Chunk, Chunks, Renaming, LabelNumbers, Translation, Registers, Labels;
    OneMoreChunk(body, i);
    var front, part := Chunks(body, i, Registers(body), Labels(body)), Chunk(body, i, Registers(body), Labels(body));
    assert Offset(body, i) == |front| && Offset(body, i + 1) == |front + part|;
    PartInPlace(Translation(body), front, part);
  }

  lemma PassingHasNoLabel(index: nat, arguments: seq<nat>, next: nat, regs: map<nat, nat>)
    ensures forall k :: 0 <= k < |Passing(index, arguments, next, regs)| ==>
              Passing(index, arguments, next, regs)[k].Plain?
  {
  }

  lemma LabelsComeFromLabels(body: seq<Node>, i: nat, regs: map<nat, nat>, labels: map<string, nat>, k: nat)
    requires i < |body| && k < |Chunk(body, i, regs, labels)| && Chunk(body, i, regs, labels)[k].Label?
    ensures body[i].LabelNode? && k == 0 && Chunk(body, i, regs, labels)[k].id == At(labels, body[i].name)
  {
    if body[i].CallNode? {
      PassingHasNoLabel(IndexIn(FunctionsUsed(body, i), body[i].callee), body[i].arguments, 0, regs);
    }
  }

  lemma {:induction false} LabelOrigin(body: seq<Node>, n: nat, q: nat) returns (i: nat)
    requires n <= |body| && q < Offset(body, n)
    requires Chunks(body, n, Registers(body), Labels(body))[q].Label?
    ensures i < n && body[i].LabelNode? && Offset(body, i) == q
    ensures Chunks(body, n, Registers(body), Labels(body))[q].id == At(Labels(body), body[i].name)
    decreases n
  {
    hide Chunk, Registers, Labels, At;
    if q < Offset(body, n - 1) {
      i := LabelOrigin(body, n - 1, q);
    } else {
      i := n - 1;
      LabelsComeFromLabels(body, i, Registers(body), Labels(body), q - Offset(body, i));
    }
  }

  /** Labels are placed once in the translation. */
  lemma TranslationLabels(body: seq<Node>)
    requires UniqueNames(body)
    ensures UniqueLabels(Translation(body))
  {
    var code := Translation(body);
    LabelNumbersDistinct(body, |body|);
    forall a, b | 0 <= a < b < |code| && code[a].Label? && code[b].Label?
      ensures code[a].id != code[b].id
    {
      var i := LabelOrigin(body, |body|, a);
      var j := LabelOrigin(body, |body|, b);
      NameKnown(body, i, |body|);
      NameKnown(body, j, |body|);
      assert i != j;
    }
  }

  lemma LabelPlace(body: seq<Node>, name: string)
    requires UniqueNames(body) && HasName(body, name)
    ensures HasLabel(Translation(body), At(Labels(body), name))
    ensures Position(Translation(body), At(Labels(body), name)) == Offset(body, Place(body, name))
  {
    var i := Place(body, name);
    ChunkInPlace(body, i);
    TranslationLabels(body);
    assert Translation(body)[Offset(body, i)] == Chunk(body, i, Registers(body), Labels(body))[0];
    PositionUnique(Translation(body), Offset(body, i));
  }


  // ----- the layout -----

  /** Bodies whose behaviour is modelled to the end: well-formed, without calls, and every label
      mentioned is placed. */
  ghost predicate Runnable(body: seq<Node>) {
    WellFormed(body)
    && (forall i :: 0 <= i < |body| ==> !body[i].CallNode?)
    && (forall i, k :: 0 <= i < |body| && 0 <= k < |NamesOf(body[i])| ==> HasName(body, NamesOf(body[i])[k]))
  }

  ghost function LayoutOf(body: seq<Node>): Layout {
    Layout(Registers(body), Labels(body), Translation(body),
           seq(|body| + 1, i requires 0 <= i < |body| + 1 => Offset(body, i)))
  }

  lemma RegistersInjective(body: seq<Node>)
    requires WellFormed(body)
    ensures Injective(Registers(body))
  {
    RenamingBounds(body, |body|);
  }

  lemma KnownAt(body: seq<Node>, i: nat)
    requires SingleAssignment(body) && i < |body| && WellFormedAt(body, i)
    ensures Known(body[i], Registers(body))
  {
    RenamingGrows(body, i, |body|);
    RenamingGrows(body, i + 1, |body|);
  }

  lemma StraightDoes(body: seq<Node>, i: nat, regs: map<nat, nat>, labels: map<string, nat>)
    requires i < |body| && Straight(body[i]) && Known(body[i], regs) && Injective(regs)
    ensures |Chunk(body, i, regs, labels)| == 1 && DoesSame(body[i], Chunk(body, i, regs, labels)[0], regs)
  {
    forall I: Interpretation, s: State, v: State | Matches(I, regs, s, v)
      ensures Matches(I, regs, Effect(I, body[i], s),
                      VirtualEffect(Renamed(I, regs), Chunk(body, i, regs, labels)[0], v))
    {
      StraightMatches(I, body, i, regs, labels, s, v);
    }
    ChunkIsPlain(body, i, regs, labels);
  }

  lemma ChunkIsPlain(body: seq<Node>, i: nat, regs: map<nat, nat>, labels: map<string, nat>)
    requires i < |body| && Straight(body[i])
    ensures |Chunk(body, i, regs, labels)| == 1 && Chunk(body, i, regs, labels)[0].Plain?
  {
  }

  lemma EncodesStraight(body: seq<Node>, i: nat)
    requires WellFormed(body) && i < |body| && Straight(body[i]) && Injective(Registers(body))
    ensures Encodes(body, LayoutOf(body), i)
  {
    assert WellFormedAt(body, i);
    KnownAt(body, i);
    ChunkInPlace(body, i);
    StraightDoes(body, i, Registers(body), Labels(body));
  }

  lemma SilentChunk(body: seq<Node>, i: nat)
    requires i < |body| && (body[i].AllocationNode? || body[i].CompareNode?)
    ensures Offset(body, i + 1) == Offset(body, i)
  {
    hide Renaming, LabelNumbers, Registers, Labels, Translation, Chunks;
    assert Chunk(body, i, Registers(body), Labels(body)) == [];
    ChunkInPlace(body, i);
  }

  lemma CompareIsKnown(body: seq<Node>, i: nat)
    requires SingleAssignment(body) && i < |body| && body[i].CompareNode? && WellFormedAt(body, i)
    ensures body[i].left in Registers(body) && body[i].right in Registers(body)
    ensures body[i].result.index !in Registers(body)
  {
    KnownAt(body, i);
    assert Lookups(body[i])[0] == body[i].left && Lookups(body[i])[1] == body[i].right;
  }

  lemma EncodesSilent(body: seq<Node>, i: nat)
    requires WellFormed(body) && i < |body| && Injective(Registers(body))
    requires body[i].AllocationNode? || body[i].CompareNode?
    ensures Encodes(body, LayoutOf(body), i)
  {
    SilentChunk(body, i);
    if body[i].CompareNode? {
      assert WellFormedAt(body, i);
      CompareIsKnown(body, i);
    }
  }

  lemma EncodesJump(body: seq<Node>, i: nat)
    requires Runnable(body) && i < |body| && Injective(Registers(body))
    requires body[i].LabelNode? || body[i].GotoNode?
    ensures Encodes(body, LayoutOf(body), i)
  {
    hide Chunks, Renaming, LabelNumbers, UniqueNames, Position, DoesSame, Compared, Injective;
    ChunkInPlace(body, i);
    assert NamesOf(body[i])[0] == body[i].name;
    var chunk := Chunk(body, i, Registers(body), Labels(body));
    assert Translation(body)[Offset(body, i)] == chunk[0];
  }

  lemma EncodesReturn(body: seq<Node>, i: nat)
    requires WellFormed(body) && i < |body| && Injective(Registers(body)) && body[i].ReturnNode?
    ensures Encodes(body, LayoutOf(body), i)
  {
    assert WellFormedAt(body, i);
    KnownAt(body, i);
    ChunkInPlace(body, i);
    assert body[i].returned.Some? ==> Lookups(body[i])[0] == body[i].returned.value;
    var chunk := Chunk(body, i, Registers(body), Labels(body));
    assert Translation(body)[Offset(body, i)] == chunk[0];
  }

  lemma EncodesBranch(body: seq<Node>, i: nat)
    requires Runnable(body) && i < |body| && Injective(Registers(body)) && body[i].BranchNode?
    ensures Encodes(body, LayoutOf(body), i)
  {
    assert WellFormedAt(body, i) && WellFormedAt(body, i - 1);
    KnownAt(body, i - 1);
    ChunkInPlace(body, i);
    assert Lookups(body[i - 1])[0] == body[i - 1].left && Lookups(body[i - 1])[1] == body[i - 1].right;
    assert NamesOf(body[i])[0] == body[i].trueLabel && NamesOf(body[i])[1] == body[i].falseLabel;
    var chunk := Chunk(body, i, Registers(body), Labels(body));
    assert chunk[0].CompareAndJump? && chunk[1].UnconditionalJump?;
    assert Translation(body)[Offset(body, i)] == chunk[0] && Translation(body)[Offset(body, i) + 1] == chunk[1];
  }

  lemma IsLaidOut(body: seq<Node>)
    requires Runnable(body)
    ensures LaidOut(body, LayoutOf(body))
  {
    var L := LayoutOf(body);
    RegistersInjective(body);
    forall i | 0 <= i < |body|
      ensures Encodes(body, L, i)
    {
      assert WellFormedAt(body, i);
      if Straight(body[i]) {
        EncodesStraight(body, i);
      } else if body[i].BranchNode? {
        EncodesBranch(body, i);
      } else if body[i].ReturnNode? {
        EncodesReturn(body, i);
      } else if body[i].LabelNode? || body[i].GotoNode? {
        EncodesJump(body, i);
      } else {
        EncodesSilent(body, i);
      }
    }
    forall name
      ensures LandsOn(body, L, name)
    {
      if HasName(body, name) {
        LabelPlace(body, name);
      }
    }
  }

  // ----- the theorem -----

  /** How a body ends from the start. */
  ghost predicate BodyEnds(I: Interpretation, body: seq<Node>, s: State, value: Option<int>, memory: map<int, int>) {
    exists k: nat :: Steps(I, body, Running(0, s), k) == Halted(value, memory)
  }

  /** How code ends from the start, on the machine that means by it what the body's
      interpretation says. */
  ghost predicate CodeEnds(I: Interpretation, regs: map<nat, nat>, code: seq<VirtualInstruction>, v: State,
                           value: Option<int>, memory: map<int, int>)
    requires Injective(regs)
  {
    exists o :: Reaches(MachineOf(Renamed(I, regs)), code, v, o) && Ends(Renamed(I, regs), o, value, memory)
  }

  /** Registers whose cells the interpretation gives are registers of the body. */
  ghost predicate CellsWithin(I: Interpretation, body: seq<Node>) {
    forall r :: r in I.cells ==> r in Registers(body)
  }

  lemma StartAligned(I: Interpretation, body: seq<Node>, L: Layout, s: State, v: State)
    requires Matches(I, L.regs, s, v)
    ensures Aligned(I, body, L, 0, s, v)
  {
  }

  lemma IsNoModulo(body: seq<Node>)
    requires WellFormed(body)
    ensures NoModulo(body)
  {
    forall i | 0 <= i < |body| && body[i].BinaryNode?
      ensures !body[i].binary.Modulo?
    {
      assert WellFormedAt(body, i);
    }
  }

  /** The translation ends exactly as the body does. */
  lemma TranslationSimulates(I: Interpretation, body: seq<Node>, s: State, v: State, value: Option<int>,
                             memory: map<int, int>)
    requires Runnable(body) && CellsWithin(I, body)
    requires Matches(I, Registers(body), s, v)
    ensures Injective(Registers(body))
    ensures BodyEnds(I, body, s, value, memory)
       <==> CodeEnds(I, Registers(body), Translation(body), v, value, memory)
  {
    RegistersInjective(body);
    IsLaidOut(body);
    IsNoModulo(body);
    var L := LayoutOf(body);
    StartAligned(I, body, L, s, v);
    if BodyEnds(I, body, s, value, memory) {
      var k: nat :| Steps(I, body, Running(0, s), k) == Halted(value, memory);
      var fuel := BodyThenCode(I, body, L, 0, s, v, k, value, memory);
      assert Reaches(MachineFor(I, L), L.code, v, Run(MachineFor(I, L), L.code, 0, v, fuel));
    }
    if CodeEnds(I, Registers(body), Translation(body), v, value, memory) {
      CodeEndsBack(I, body, L, s, v, value, memory);
    }
  }

  lemma CodeEndsBack(I: Interpretation, body: seq<Node>, L: Layout, s: State, v: State, value: Option<int>,
                     memory: map<int, int>)
    requires LaidOut(body, L) && CellsFit(I, L) && Aligned(I, body, L, 0, s, v) && NoModulo(body)
    requires CodeEnds(I, L.regs, L.code, v, value, memory)
    ensures BodyEnds(I, body, s, value, memory)
  {
    var m := MachineFor(I, L);
    var o :| Reaches(m, L.code, v, o) && Ends(Renamed(I, L.regs), o, value, memory);
    var fuel: nat :| Run(m, L.code, 0, v, fuel) == o;
    var k := CodeThenBody(I, body, L, 0, s, v, fuel);
    var c := Steps(I, body, Running(0, s), k);
    var fuel' := BodyThenCode(I, body, L, 0, s, v, k, c.value, c.memory);
    RunHaltsLater(m, L.code, 0, v, fuel, fuel');
    RunHaltsLater(m, L.code, 0, v, fuel', fuel);
    assert fuel + fuel' == fuel' + fuel;
  }
}
