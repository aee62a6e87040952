/** Running the nodes of a statement does what the statement means: it falls through, jumps to its
    innermost loop's labels, returns, or runs for ever, exactly as the structured meaning says. */
module StatementSimulation {
  import opened Options
  import opened VirtualCode
  import opened Ssa
  import opened PseudoAssembly
  import opened ReferenceCounts
  import opened Expressions
  import opened ExpressionLowering
  import opened ExpressionShapes
  import opened Statements
  import opened StatementShapes

  // ----- where nodes are -----

  /** These nodes stand at `pc` in the body. */
  ghost predicate Located(B: seq<Node>, pc: nat, nodes: seq<Node>) {
    pc + |nodes| <= |B| && B[pc..pc + |nodes|] == nodes
  }

  lemma LocatedConcat(B: seq<Node>, pc: nat, a: seq<Node>, b: seq<Node>)
    requires Located(B, pc, a + b)
    ensures Located(B, pc, a) && Located(B, pc + |a|, b)
  {
    assert B[pc..pc + |a|] == (a + b)[..|a|];
    assert B[pc + |a|..pc + |a| + |b|] == (a + b)[|a|..];
  }

  lemma LocatedOne(B: seq<Node>, pc: nat, node: Node)
    requires Located(B, pc, [node])
    ensures pc < |B| && B[pc] == node
  {
    assert B[pc..pc + 1][0] == B[pc];
  }

  lemma LabelAt(B: seq<Node>, pc: nat, label_: string)
    requires UniqueNames(B) && Located(B, pc, [LabelNode(label_)])
    ensures HasName(B, label_) && Place(B, label_) == pc
  {
    LocatedOne(B, pc, LabelNode(label_));
    PlaceUnique(B, pc);
  }

  // ----- which registers are cells -----

  function Allocs(nodes: seq<Node>): set<nat> {
    if nodes == [] then {}
    else
      Allocs(nodes[..|nodes| - 1])
      + if nodes[|nodes| - 1].AllocationNode? then {nodes[|nodes| - 1].register.index} else {}
  }

  lemma {:induction false} AllocsConcat(a: seq<Node>, b: seq<Node>)
    ensures Allocs(a + b) == Allocs(a) + Allocs(b)
    decreases |b|
  {
    if b == [] {
      assert a + b == a;
    } else {
      assert (a + b)[..|a + b| - 1] == a + b[..|b| - 1];
      AllocsConcat(a, b[..|b| - 1]);
    }
  }

  lemma {:induction false} RegistersWithin(nodes: seq<Node>, known: set<nat>, lo: nat, hi: nat)
    requires Flows(nodes, known, lo, hi)
    ensures lo <= hi
    ensures forall r :: r in Allocs(nodes) || r in Defs(nodes) ==> lo <= r < hi
    decreases |nodes|
  {
    if nodes != [] {
      var before, node := nodes[..|nodes| - 1], nodes[|nodes| - 1];
      var below := if Introduces(node).Some? then Introduces(node).value else hi;
      assert Flows(before, known, lo, below) && below <= hi;
      RegistersWithin(before, known, lo, below);
      forall r | r in Allocs(nodes) || r in Defs(nodes)
        ensures lo <= r < hi
      {
        assert r in Allocs(before) || r in Defs(before) || Introduces(node) == Some(r);
      }
    }
  }

  lemma {:induction false} ComputingHasNoAllocs(nodes: seq<Node>)
    requires AllComputing(nodes)
    ensures Allocs(nodes) == {}
    decreases |nodes|
  {
    if nodes != [] {
      ComputingHasNoAllocs(nodes[..|nodes| - 1]);
    }
  }

  /** Among the registers from `lo` up to `hi`, only what these nodes allocate are cells. */
  ghost predicate CellsApart(I: Interpretation, lo: nat, nodes: seq<Node>, hi: nat) {
    forall r :: r in I.cells ==> r < lo || hi <= r || r in Allocs(nodes)
  }

  lemma CellsApartConcat(I: Interpretation, a: seq<Node>, b: seq<Node>, ka: set<nat>, kb: set<nat>, lo: nat, mid: nat,
                         hi: nat)
    requires CellsApart(I, lo, a + b, hi) && Flows(a, ka, lo, mid) && Flows(b, kb, mid, hi)
    ensures CellsApart(I, lo, a, mid) && CellsApart(I, mid, b, hi)
  {
    AllocsConcat(a, b);
    RegistersWithin(a, ka, lo, mid);
    RegistersWithin(b, kb, mid, hi);
  }

  // ----- how a run goes on -----

  /** After `k` steps from `pc`, control is where the ending says, with its memory; a run that is
      out of fuel is still going after as many steps. */
  ghost predicate EndsAs(I: Interpretation, B: seq<Node>, w: Surroundings, pc: nat, s: State, k: nat, fuel: nat,
                         after: nat, ending: Ending) {
    var c := Steps(I, B, Running(pc, s), k);
    match ending
    case Timeout => c.Running? && fuel <= k
    case Normal(m) => c.Running? && c.pc == after && c.state.memory == m
    case Broke(m) => w.jumps != [] && AtLabel(I, B, c, w.jumps[|w.jumps| - 1].breakLabel, m)
    case Continued(m) => ContinueTarget(w.jumps).Some? && AtLabel(I, B, c, ContinueTarget(w.jumps).value, m)
    case Returned(value, m) => c == Halted(value, m)
  }

  ghost predicate AtLabel(I: Interpretation, B: seq<Node>, c: Configuration, label_: string, m: Memory) {
    HasName(B, label_) && c.Running? && c.pc == Place(B, label_) && c.state.memory == m
  }

  /** Some steps, then the rest. */
  lemma Onward(I: Interpretation, B: seq<Node>, w: Surroundings, pc: nat, s: State, j: nat, mid: nat, t: State, k: nat,
               fuel: nat, left: nat, after: nat, ending: Ending)
    requires Steps(I, B, Running(pc, s), j) == Running(mid, t) && EndsAs(I, B, w, mid, t, k, left, after, ending)
    requires fuel <= j + left
    ensures EndsAs(I, B, w, pc, s, j + k, fuel, after, ending)
  {
    StepsCompose(I, B, Running(pc, s), j, k);
  }

  lemma OneStep(I: Interpretation, B: seq<Node>, pc: nat, s: State)
    ensures Steps(I, B, Running(pc, s), 1) == Step(I, B, Running(pc, s))
  {
    assert Steps(I, B, Step(I, B, Running(pc, s)), 0) == Step(I, B, Running(pc, s));
  }

  lemma LabelRuns(I: Interpretation, B: seq<Node>, pc: nat, s: State, label_: string)
    requires Located(B, pc, [LabelNode(label_)])
    ensures Steps(I, B, Running(pc, s), 1) == Running(pc + 1, s)
  {
    LocatedOne(B, pc, LabelNode(label_));
    OneStep(I, B, pc, s);
  }

  lemma GotoRuns(I: Interpretation, B: seq<Node>, pc: nat, s: State, label_: string)
    requires Located(B, pc, [GotoNode(label_)]) && HasName(B, label_)
    ensures Steps(I, B, Running(pc, s), 1) == Running(Place(B, label_), s)
  {
    LocatedOne(B, pc, GotoNode(label_));
    OneStep(I, B, pc, s);
  }

  lemma StraightRuns(I: Interpretation, B: seq<Node>, pc: nat, nodes: seq<Node>, s: State)
    requires Located(B, pc, nodes) && AllComputing(nodes)
    ensures Steps(I, B, Running(pc, s), |nodes|) == Running(pc + |nodes|, Effects(I, nodes, s))
  {
    StepsStraight(I, B, pc, nodes, s);
  }

  // ----- expressions in place -----

  lemma ClearOfCells(I: Interpretation, lo: nat, nodes: seq<Node>, hi: nat)
    requires CellsApart(I, lo, nodes, hi) && Allocs(nodes) == {}
    ensures Clear(I, lo, hi)
  {
  }

  /** A value is computed, and control is behind its nodes. */
  lemma ValueRuns(I: Interpretation, env: map<string, int>, B: seq<Node>, c: Cursor, e: Expression, pc: nat, s: State)
    returns (t: State)
    requires Fine(c.names.Keys, e) && Environment(I, c.names, env, c.next)
    requires var l := Loaded(c.names, e, c.next);
             Located(B, pc, l.nodes) && CellsApart(I, c.next, l.nodes, l.next)
    ensures var l := Loaded(c.names, e, c.next);
            && l.result.Some? && Steps(I, B, Running(pc, s), |l.nodes|) == Running(pc + |l.nodes|, t)
            && t.memory == Rvalue(I, env, e, s.memory).1 && Holds(I, t, l.result.value, Rvalue(I, env, e, s.memory).0)
  {
    hide Lower, Environment, Resolved, Sound, Translatable, Effects, Steps, Located, Loaded, Evaluate, Rvalue;
    var l := Loaded(c.names, e, c.next);
    LoadedShape(c.names, e, c.next);
    ComputingHasNoAllocs(l.nodes);
    ClearOfCells(I, c.next, l.nodes, l.next);
    LoweredComputes(I, c.names, env, e, c.next, s);
    StraightRuns(I, B, pc, l.nodes, s);
    t := Effects(I, l.nodes, s);
  }

  lemma EvaluationRuns(I: Interpretation, env: map<string, int>, B: seq<Node>, c: Cursor, e: Expression, pc: nat, s: State)
    returns (t: State)
    requires Fine(c.names.Keys, e) && Environment(I, c.names, env, c.next)
    requires var l := Lower(c.names, e, c.next);
             Located(B, pc, l.nodes) && CellsApart(I, c.next, l.nodes, l.next)
    ensures var l := Lower(c.names, e, c.next);
            Steps(I, B, Running(pc, s), |l.nodes|) == Running(pc + |l.nodes|, t)
            && t.memory == Evaluate(I, env, e, s.memory).1
  {
    hide Lower, Environment, Resolved, Sound, Translatable, Effects, Steps, Located, Loaded, Evaluate;
    var l := Lower(c.names, e, c.next);
    LoweredShape(c.names, e, c.next);
    ComputingHasNoAllocs(l.nodes);
    ClearOfCells(I, c.next, l.nodes, l.next);
    LoweredMeans(I, c.names, env, e, c.next, s);
    assert Rvalue(I, env, e, s.memory).1 == Evaluate(I, env, e, s.memory).1;
    StraightRuns(I, B, pc, l.nodes, s);
    t := Effects(I, l.nodes, s);
  }

  // ----- tests in place -----

  lemma TestNodes(names: map<string, nat>, condition: Expression, next: nat)
    requires FineTest(names.Keys, Some(condition))
    ensures var l := Loaded(names, Test(condition), next);
            l.result.Some? && Allocs(l.nodes) == {} && forall i :: 0 <= i < |l.nodes| ==> !IsTransfer(l.nodes[i])
  {
    hide Loaded, Test, Flows, Defs;
    var a, b := TestShape(names, condition, next);
    var l := Loaded(names, Test(condition), next);
    ComputingHasNoAllocs(b.After(a).nodes);
    assert l.nodes[..|l.nodes| - 1] == b.After(a).nodes;
  }

  lemma TestIsThere(known: set<string>, condition: Expression)
    requires FineTest(known, Some(condition))
    ensures !condition.Missing?
  {
  }

  /** What is branched on is a comparison that holds exactly when the condition is not zero. */
  lemma TestIsTruth(I: Interpretation, env: map<string, int>, condition: Expression, m: Memory)
    requires Test(condition).Compare?
    ensures var (v, m1) := Rvalue(I, env, condition, m);
            Rvalue(I, env, Test(condition), m) == (if v != 0 then 1 else 0, m1)
  {
    if !condition.Compare? {
      var (v, m1) := Rvalue(I, env, condition, m);
      assert Rvalue(I, env, Literal(0, condition.TypeOf()), m1) == (0, m1);
      assert Evaluate(I, env, Test(condition), m) == (Value(if v != 0 then 1 else 0), m1);
    }
  }

  /** The test is computed and its branch taken. */
  lemma ConditionRuns(I: Interpretation, env: map<string, int>, B: seq<Node>, c: Cursor, condition: Expression,
                      trueLabel: string, falseLabel: string, pc: nat, s: State)
    returns (t: State)
    requires FineTest(c.names.Keys, Some(condition)) && Environment(I, c.names, env, c.next)
    requires HasName(B, trueLabel) && HasName(B, falseLabel)
    requires var l := Loaded(c.names, Test(condition), c.next);
             l.result.Some? && Located(B, pc, l.nodes + [BranchNode(l.result.value, trueLabel, falseLabel)])
             && Clear(I, c.next, l.next)
    ensures var (v, m1) := Rvalue(I, env, condition, s.memory);
            var k := |Loaded(c.names, Test(condition), c.next).nodes| + 1;
            Steps(I, B, Running(pc, s), k) == Running(Place(B, if v != 0 then trueLabel else falseLabel), t)
            && t.memory == m1
  {
    hide Located, Rvalue, Effects, Steps, Loaded, Test, HasName, Evaluate, Lower, Resolved, Sound, Translatable;
    hide FineTest;
    var l := Loaded(c.names, Test(condition), c.next);
    var branch := BranchNode(l.result.value, trueLabel, falseLabel);
    TestNodes(c.names, condition, c.next);
    LocatedConcat(B, pc, l.nodes, [branch]);
    LocatedOne(B, pc + |l.nodes|, branch);
    TestIsFine(c.names.Keys, condition);
    LoweredComputes(I, c.names, env, Test(condition), c.next, s);
    StepsStraight(I, B, pc, l.nodes, s);
    t := Effects(I, l.nodes, s);
    OneStep(I, B, pc + |l.nodes|, t);
    StepsCompose(I, B, Running(pc, s), |l.nodes|, 1);
    TestIsTruth(I, env, condition, s.memory);
  }

  lemma TestRuns(I: Interpretation, env: map<string, int>, B: seq<Node>, c: Cursor, test: Option<Expression>,
                 trueLabel: string, falseLabel: string, pc: nat, s: State)
    returns (k: nat, t: State)
    requires FineTest(c.names.Keys, test) && Environment(I, c.names, env, c.next)
    requires HasName(B, trueLabel) && HasName(B, falseLabel)
    requires var first := LowerBranch(c, test, trueLabel, falseLabel).0;
             Located(B, pc, first.nodes) && CellsApart(I, c.next, first.nodes, first.cursor.next)
    ensures var (go, m1) := Passes(I, env, test, s.memory);
            k > 0 && Steps(I, B, Running(pc, s), k) == Running(Place(B, if go then trueLabel else falseLabel), t)
            && t.memory == m1
  {
    hide Evaluate, Rvalue, Lower, Loaded, Test, Located, Steps, Environment, FineTest, HasName, Effects;
    if test.None? {
      assert Nothing(c).Then([GotoNode(trueLabel)]).nodes == [GotoNode(trueLabel)];
      GotoRuns(I, B, pc, s, trueLabel);
      k, t := 1, s;
    } else {
      var l := Loaded(c.names, Test(test.value), c.next);
      TestNodes(c.names, test.value, c.next);
      TestIsThere(c.names.Keys, test.value);
      var nodes := l.nodes + [BranchNode(l.result.value, trueLabel, falseLabel)];
      assert nodes[..|nodes| - 1] == l.nodes;
      t := ConditionRuns(I, env, B, c, test.value, trueLabel, falseLabel, pc, s);
      k := |l.nodes| + 1;
    }
  }

  // ----- declarations and returns in place -----

  /** A value is computed, and control is at the node that uses it. */
  lemma OperandRuns(I: Interpretation, env: map<string, int>, B: seq<Node>, c: Cursor, e: Expression, l: Lowered,
                    node: Node, pc: nat, s: State)
    returns (t: State)
    requires Fine(c.names.Keys, e) && Environment(I, c.names, env, c.next) && !node.AllocationNode?
    requires l == Loaded(c.names, e, c.next) && Located(B, pc, l.nodes + [node])
    requires CellsApart(I, c.next, l.nodes + [node], l.next)
    ensures l.result.Some? && pc + |l.nodes| < |B| && B[pc + |l.nodes|] == node
    ensures Steps(I, B, Running(pc, s), |l.nodes|) == Running(pc + |l.nodes|, t)
    ensures t.memory == Rvalue(I, env, e, s.memory).1 && Holds(I, t, l.result.value, Rvalue(I, env, e, s.memory).0)
  {
    hide Evaluate, Rvalue, Lower, Loaded, Environment, Fine, Effects, Steps;
    LocatedConcat(B, pc, l.nodes, [node]);
    LocatedOne(B, pc + |l.nodes|, node);
    AllocsConcat(l.nodes, [node]);
    assert [node][..0] == [];
    t := ValueRuns(I, env, B, c, e, pc, s);
  }

  lemma OneMoreStep(I: Interpretation, B: seq<Node>, pc: nat, s: State, j: nat, mid: nat, t: State)
    requires Steps(I, B, Running(pc, s), j) == Running(mid, t)
    ensures Steps(I, B, Running(pc, s), j + 1) == Step(I, B, Running(mid, t))
  {
    StepsCompose(I, B, Running(pc, s), j, 1);
    OneStep(I, B, mid, t);
  }

  lemma StoreRuns(I: Interpretation, B: seq<Node>, pc: nat, s: State, target: nat, source: nat, value: int)
    requires pc < |B| && B[pc] == StoreNode(target, source) && target in I.cells && Holds(I, s, source, value)
    ensures Step(I, B, Running(pc, s)) == Running(pc + 1, s.(memory := s.memory[I.cells[target] := value]))
  {
  }

  lemma CellOf(I: Interpretation, c: Cursor, env: map<string, int>, name: string)
    requires name in c.names && Environment(I, c.names, env, c.next)
    ensures c.names[name] in I.cells && name in env && I.cells[c.names[name]] == env[name]
  {
  }

  lemma LiteralRuns(I: Interpretation, B: seq<Node>, register: nat, value: nat, pc: nat, s: State)
    requires Located(B, pc, [StoreIntegerNode(register, value)]) && register in I.cells
    ensures Steps(I, B, Running(pc, s), 1) == Running(pc + 1, s.(memory := s.memory[I.cells[register] := value]))
  {
    LocatedOne(B, pc, StoreIntegerNode(register, value));
    OneStep(I, B, pc, s);
  }

  lemma LoadedRuns(I: Interpretation, env: map<string, int>, B: seq<Node>, c: Cursor, name: string, e: Expression,
                   pc: nat, s: State)
    returns (t: State)
    requires name in c.names && Fine(c.names.Keys, e) && Environment(I, c.names, env, c.next)
    requires var l := Loaded(c.names, e, c.next);
             l.result.Some? && Located(B, pc, l.nodes + [StoreNode(c.names[name], l.result.value)])
             && CellsApart(I, c.next, l.nodes + [StoreNode(c.names[name], l.result.value)], l.next)
    ensures var k := |Loaded(c.names, e, c.next).nodes| + 1;
            Steps(I, B, Running(pc, s), k) == Running(pc + k, t)
    ensures t.memory == Initialised(I, env, name, Some(e), s.memory)
  {
    hide Located, CellsApart, Environment, Fine, Loaded, Rvalue, Steps, Step;
    var l := Loaded(c.names, e, c.next);
    CellOf(I, c, env, name);
    var loaded := OperandRuns(I, env, B, c, e, l, StoreNode(c.names[name], l.result.value), pc, s);
    var (v, m1) := Rvalue(I, env, e, s.memory);
    StoreRuns(I, B, pc + |l.nodes|, loaded, c.names[name], l.result.value, v);
    OneMoreStep(I, B, pc, s, |l.nodes|, pc + |l.nodes|, loaded);
    t := loaded.(memory := m1[env[name] := v]);
  }

  lemma InitialiserForm(c: Cursor, register: nat, e: Expression)
    requires Fine(c.names.Keys, e) && !e.Literal?
    ensures var l := Loaded(c.names, e, c.next);
            l.result.Some?
            && LowerInitialiser(c, register, e).nodes == l.nodes + [StoreNode(register, l.result.value)]
            && LowerInitialiser(c, register, e).cursor.next == l.next
  {
    LowersIfResolved(c.names, e, c.next);
    hide Loaded;
  }

  lemma InitialiserRuns(I: Interpretation, env: map<string, int>, B: seq<Node>, c: Cursor, name: string, e: Expression,
                        pc: nat, s: State)
    returns (k: nat, t: State)
    requires name in c.names && Fine(c.names.Keys, e) && Environment(I, c.names, env, c.next)
    requires var l := LowerInitialiser(c, c.names[name], e);
             Located(B, pc, l.nodes) && CellsApart(I, c.next, l.nodes, l.cursor.next)
    ensures k == |LowerInitialiser(c, c.names[name], e).nodes| && Steps(I, B, Running(pc, s), k) == Running(pc + k, t)
    ensures t.memory == Initialised(I, env, name, Some(e), s.memory)
  {
    hide Located, CellsApart, Environment, Fine, Loaded, Steps, Step;
    CellOf(I, c, env, name);
    if e.Literal? {
      assert LowerInitialiser(c, c.names[name], e).nodes == [StoreIntegerNode(c.names[name], e.value)];
      LiteralRuns(I, B, c.names[name], e.value, pc, s);
      assert Rvalue(I, env, e, s.memory) == (e.value, s.memory);
      k, t := 1, s.(memory := s.memory[env[name] := e.value]);
    } else {
      hide Initialised, LowerInitialiser;
      InitialiserForm(c, c.names[name], e);
      t := LoadedRuns(I, env, B, c, name, e, pc, s);
      k := |Loaded(c.names, e, c.next).nodes| + 1;
    }
  }

  lemma AllocationRuns(I: Interpretation, B: seq<Node>, register: Register, pc: nat, s: State)
    requires Located(B, pc, [AllocationNode(register)])
    ensures Steps(I, B, Running(pc, s), 1) == Running(pc + 1, s)
  {
    LocatedOne(B, pc, AllocationNode(register));
    OneStep(I, B, pc, s);
  }

  lemma DeclarationForm(c: Cursor, name: string, width: nat, e: Expression)
    requires name !in c.names && Fine(c.names.Keys + {name}, e)
    ensures var declared := Cursor(c.names[name := c.next], c.next + 1, c.nextLabel);
            var l := LowerInitialiser(declared, c.next, e);
            Fine(declared.names.Keys, e)
            && LowerDeclaration(c, name, width, Some(e)).nodes == [AllocationNode(Register(c.next, width))] + l.nodes
            && LowerDeclaration(c, name, width, Some(e)).cursor == l.cursor
  {
    hide LowerInitialiser;
    assert c.names[name := c.next].Keys == c.names.Keys + {name};
  }

  lemma BehindAllocation(I: Interpretation, c: Cursor, register: Register, nodes: seq<Node>, end: nat)
    requires CellsApart(I, c.next, [AllocationNode(register)] + nodes, end) && register.index == c.next
    ensures CellsApart(I, c.next + 1, nodes, end)
  {
    AllocsConcat([AllocationNode(register)], nodes);
    assert [AllocationNode(register)][..0] == [];
  }

  lemma DeclarationRuns(I: Interpretation, env: map<string, int>, B: seq<Node>, c: Cursor, name: string, width: nat,
                        initialiser: Option<Expression>, pc: nat, s: State)
    returns (k: nat, t: State)
    requires name !in c.names && (initialiser.Some? ==> Fine(c.names.Keys + {name}, initialiser.value))
    requires Environment(I, c.names[name := c.next], env, c.next + 1)
    requires var l := LowerDeclaration(c, name, width, initialiser);
             Located(B, pc, l.nodes) && CellsApart(I, c.next, l.nodes, l.cursor.next)
    ensures k == |LowerDeclaration(c, name, width, initialiser).nodes|
    ensures Steps(I, B, Running(pc, s), k) == Running(pc + k, t)
    ensures t.memory == Initialised(I, env, name, initialiser, s.memory)
  {
    hide Located, CellsApart, Environment, Fine, Steps, Step;
    var register := Register(c.next, width);
    if initialiser.None? {
      assert LowerDeclaration(c, name, width, initialiser).nodes == [AllocationNode(register)];
      AllocationRuns(I, B, register, pc, s);
      k, t := 1, s;
    } else {
      hide LowerDeclaration, LowerInitialiser, Initialised;
      var declared := Cursor(c.names[name := c.next], c.next + 1, c.nextLabel);
      var l := LowerInitialiser(declared, c.next, initialiser.value);
      DeclarationForm(c, name, width, initialiser.value);
      LocatedConcat(B, pc, [AllocationNode(register)], l.nodes);
      AllocationRuns(I, B, register, pc, s);
      BehindAllocation(I, c, register, l.nodes, l.cursor.next);
      k, t := InitialiserRuns(I, env, B, declared, name, initialiser.value, pc + 1, s);
      StepsCompose(I, B, Running(pc, s), 1, k);
      k := k + 1;
    }
  }

  lemma ReturnRuns(I: Interpretation, env: map<string, int>, B: seq<Node>, c: Cursor, isVoid: bool,
                   returned: Option<Expression>, pc: nat, s: State)
    returns (k: nat)
    requires (returned.Some? ==> Fine(c.names.Keys, returned.value)) && Environment(I, c.names, env, c.next)
    requires var l := LowerReturn(c, isVoid, returned);
             Located(B, pc, l.nodes) && CellsApart(I, c.next, l.nodes, l.cursor.next)
    ensures var m1 := if returned.None? then s.memory else Rvalue(I, env, returned.value, s.memory).1;
            var value := if returned.None? then None else Some(Rvalue(I, env, returned.value, s.memory).0);
            Steps(I, B, Running(pc, s), k) == Halted(value, m1)
  {
    hide Loaded, Rvalue, Environment, Steps;
    if returned.None? {
      LocatedOne(B, pc, ReturnNode(None));
      OneStep(I, B, pc, s);
      k := 1;
    } else {
      var e := returned.value;
      LowersIfResolved(c.names, e, c.next);
      var l := Loaded(c.names, e, c.next);
      var t := OperandRuns(I, env, B, c, e, l, ReturnNode(l.result), pc, s);
      OneMoreStep(I, B, pc, s, |l.nodes|, pc + |l.nodes|, t);
      k := |l.nodes| + 1;
    }
  }
}
