/** A lowered function returns what its structured meaning returns, and runs for ever when that does. */
module FunctionSimulation {
  import opened Options
  import opened VirtualCode
  import opened Ssa
  import opened ReferenceCounts
  import opened BodyLayout
  import opened Expressions
  import opened ExpressionLowering
  import opened ExpressionShapes
  import opened Statements
  import opened StatementShapes
  import opened StatementSimulation
  import opened ControlSimulation
  import opened Functions
  import opened FunctionShapes

  /** Variables live in memory where `env` says, and nothing else does. */
  ghost predicate Stored(I: Interpretation, env: map<string, int>, f: Function) {
    Environment(I, LowerFunction(f).cursor.names, env, LowerFunction(f).cursor.next)
    && forall r :: r in I.cells ==> r in Allocs(LowerFunction(f).nodes)
  }

  // ----- parameters -----

  lemma ParameterRuns(I: Interpretation, B: seq<Node>, scope: nat, register: Register, index: nat, pc: nat, s: State,
                      address: int)
    requires Located(B, pc, [AllocationNode(register), ParameterNode(scope, register, index)])
    requires register.index in I.cells && I.cells[register.index] == address
    ensures Steps(I, B, Running(pc, s), 2) == Running(pc + 2, s.(memory := s.memory[address := I.argument(index)]))
  {
    var nodes := [AllocationNode(register), ParameterNode(scope, register, index)];
    assert B[pc] == nodes[0] && B[pc + 1] == nodes[1] by {
      assert B[pc..pc + 2][0] == B[pc] && B[pc..pc + 2][1] == B[pc + 1];
    }
    OneStep(I, B, pc, s);
    OneStep(I, B, pc + 1, s);
    StepsCompose(I, B, Running(pc, s), 1, 1);
  }

  lemma {:induction false} ParametersRun(I: Interpretation, env: map<string, int>, B: seq<Node>, c: Cursor, scope: nat,
                                         parameters: seq<Parameter>, index: nat, pc: nat, s: State)
    returns (k: nat, t: State)
    requires Distinct(parameters) && NewNames(c, parameters)
    requires Ready(I, env, B, c, LowerParameters(c, scope, parameters, index), pc)
    ensures k == |LowerParameters(c, scope, parameters, index).nodes|
    ensures Steps(I, B, Running(pc, s), k) == Running(pc + k, t)
    ensures t.memory == Arguments(I, env, parameters, index, s.memory)
    decreases |parameters|
  {
    if parameters == [] {
      k, t := 0, s;
    } else {
      var name := parameters[0].name;
      var first := LowerParameter(c, scope, parameters[0], index);
      SplitParameters(I, env, B, c, scope, parameters, index, pc);
      ParameterRuns(I, B, scope, Register(c.next, parameters[0].width), index, pc, s, env[name]);
      var u := s.(memory := s.memory[env[name] := I.argument(index)]);
      k, t := ParametersRun(I, env, B, first.cursor, scope, parameters[1..], index + 1, pc + 2, u);
      StepsCompose(I, B, Running(pc, s), 2, k);
      k := 2 + k;
    }
  }

  lemma SplitParameters(I: Interpretation, env: map<string, int>, B: seq<Node>, c: Cursor, scope: nat,
                        parameters: seq<Parameter>, index: nat, pc: nat)
    requires parameters != [] && Distinct(parameters) && NewNames(c, parameters)
    requires Ready(I, env, B, c, LowerParameters(c, scope, parameters, index), pc)
    ensures var name := parameters[0].name;
            var register := Register(c.next, parameters[0].width);
            var first := LowerParameter(c, scope, parameters[0], index);
            && Located(B, pc, [AllocationNode(register), ParameterNode(scope, register, index)])
            && name in env && c.next in I.cells && I.cells[c.next] == env[name]
            && Distinct(parameters[1..]) && NewNames(first.cursor, parameters[1..])
            && Ready(I, env, B, first.cursor, LowerParameters(first.cursor, scope, parameters[1..], index + 1), pc + 2)
  {
    var name := parameters[0].name;
    var first := LowerParameter(c, scope, parameters[0], index);
    OneParameter(c, scope, parameters[0], index);
    assert Distinct(parameters[1..]) && NewNames(first.cursor, parameters[1..]);
    ParametersShape(first.cursor, scope, parameters[1..], index + 1);
    ReadyAfter(I, env, B, c, first, LowerParameters(first.cursor, scope, parameters[1..], index + 1), {name},
               ParameterNames(parameters[1..]), pc);
    assert first.cursor.names[name] == c.next;
  }

  // ----- the whole function -----

  lemma LastReady(I: Interpretation, env: map<string, int>, B: seq<Node>, c: Cursor, front: Emitted, end: Emitted,
                  declared: set<string>, pc: nat)
    requires Grows(c, front, declared) && Grows(front.cursor, end, {}) && Ready(I, env, B, c, end.After(front), pc)
    ensures Ready(I, env, B, c, front, pc) && Ready(I, env, B, front.cursor, end, pc + |front.nodes|)
  {
    ReadyAfter(I, env, B, c, front, end, declared, {}, pc);
  }

  lemma ThreeReady(I: Interpretation, env: map<string, int>, B: seq<Node>, c: Cursor, begin: Emitted, body: Emitted,
                   end: Emitted, da: set<string>, db: set<string>, pc: nat)
    requires Grows(c, begin, da) && Grows(begin.cursor, body, db) && Grows(body.cursor, end, {})
    requires Ready(I, env, B, c, end.After(body.After(begin)), pc)
    ensures Ready(I, env, B, c, begin, pc) && Ready(I, env, B, begin.cursor, body, pc + |begin.nodes|)
    ensures Ready(I, env, B, body.cursor, end, pc + |begin.nodes| + |body.nodes|)
  {
    var front := body.After(begin);
    assert Ready(I, env, B, c, front, pc) && Ready(I, env, B, front.cursor, end, pc + |front.nodes|) by {
      GrowsAfter(c, begin, body, da, db);
      LastReady(I, env, B, c, front, end, da + db, pc);
    }
    ReadyAfter(I, env, B, c, begin, body, da, db, pc);
  }

  lemma WholeReady(I: Interpretation, env: map<string, int>, l: Emitted)
    requires Environment(I, l.cursor.names, env, l.cursor.next) && forall r :: r in I.cells ==> r in Allocs(l.nodes)
    ensures Ready(I, env, l.nodes, START, l, 0)
  {
    assert l.nodes[0..|l.nodes|] == l.nodes;
  }

  lemma PartsReady(I: Interpretation, env: map<string, int>, whole: Emitted, begin: Emitted, body: Emitted, end: Emitted,
                   da: set<string>, db: set<string>)
    requires whole == end.After(body.After(begin))
    requires Grows(START, begin, da) && Grows(begin.cursor, body, db) && Grows(body.cursor, end, {})
    requires Environment(I, whole.cursor.names, env, whole.cursor.next)
    requires forall r :: r in I.cells ==> r in Allocs(whole.nodes)
    ensures Ready(I, env, whole.nodes, START, begin, 0)
    ensures Ready(I, env, whole.nodes, begin.cursor, body, |begin.nodes|)
    ensures Ready(I, env, whole.nodes, body.cursor, end, |begin.nodes| + |body.nodes|)
  {
    WholeReady(I, env, whole);
    ThreeReady(I, env, whole.nodes, START, begin, body, end, da, db, 0);
  }

  lemma FunctionGrows(f: Function)
    requires AcceptedFunction(f)
    ensures Grows(START, LowerBegin(f), ParameterNames(f.parameters))
    ensures Grows(LowerBegin(f).cursor, LowerBody(f), DeclaredAll(f.body)) && Grows(LowerBody(f).cursor, End(f), {})
  {
    FunctionIsShaped(f);
    EndShape(f, LowerBody(f).cursor, LowerBegin(f).nodes + LowerBody(f).nodes);
  }

  lemma FunctionReady(I: Interpretation, env: map<string, int>, f: Function)
    requires AcceptedFunction(f) && Stored(I, env, f)
    ensures var B := LowerFunction(f).nodes;
            Ready(I, env, B, START, LowerBegin(f), 0)
            && Ready(I, env, B, LowerBegin(f).cursor, LowerBody(f), |LowerBegin(f).nodes|)
  {
    FunctionGrows(f);
    FunctionParts(f);
    PartsReady(I, env, LowerFunction(f), LowerBegin(f), LowerBody(f), End(f), ParameterNames(f.parameters),
               DeclaredAll(f.body));
  }

  lemma FrontGrows(f: Function)
    requires AcceptedFunction(f)
    ensures Grows(START, LowerBody(f).After(LowerBegin(f)), ParameterNames(f.parameters) + DeclaredAll(f.body))
    ensures Grows(LowerBody(f).cursor, End(f), {})
  {
    FunctionGrows(f);
    GrowsAfter(START, LowerBegin(f), LowerBody(f), ParameterNames(f.parameters), DeclaredAll(f.body));
  }

  lemma LastPlaced(I: Interpretation, env: map<string, int>, front: Emitted, end: Emitted, declared: set<string>)
    requires Grows(START, front, declared) && Grows(front.cursor, end, {})
    requires Environment(I, end.cursor.names, env, end.cursor.next)
    requires forall r :: r in I.cells ==> r in Allocs(front.nodes + end.nodes)
    ensures Located(front.nodes + end.nodes, |front.nodes|, end.nodes)
    ensures CellsApart(I, front.cursor.next, end.nodes, end.cursor.next)
  {
    WholeReady(I, env, end.After(front));
    ReadyAfter(I, env, front.nodes + end.nodes, START, front, end, declared, {}, 0);
  }

  /** Behind the body nothing but the end is left to run, and its registers are no cells. */
  lemma EndReady(I: Interpretation, env: map<string, int>, f: Function)
    requires AcceptedFunction(f) && Stored(I, env, f)
    ensures var q := |LowerBegin(f).nodes| + |LowerBody(f).nodes|;
            Located(LowerFunction(f).nodes, q, End(f).nodes)
            && CellsApart(I, LowerBody(f).cursor.next, End(f).nodes, End(f).cursor.next)
  {
    FrontGrows(f);
    LastPlaced(I, env, LowerBody(f).After(LowerBegin(f)), End(f), ParameterNames(f.parameters) + DeclaredAll(f.body));
  }

  // ----- the end -----

  lemma StaysInside(I: Interpretation, B: seq<Node>, pc: nat, s: State)
    requires Runnable(B) && pc < |B| && B[|B| - 1].ReturnNode?
    ensures var c := Step(I, B, Running(pc, s)); c.Running? ==> c.pc < |B|
  {
    var node := B[pc];
    if node.GotoNode? {
      assert NamesOf(node)[0] == node.name;
    } else if node.BranchNode? {
      assert NamesOf(node)[0] == node.trueLabel && NamesOf(node)[1] == node.falseLabel;
    }
  }

  /** Control never runs off the end of a body whose last node is a return. */
  lemma {:induction false} NeverFallsOff(I: Interpretation, B: seq<Node>, c: Configuration, k: nat)
    requires Runnable(B) && B != [] && B[|B| - 1].ReturnNode? && (c.Running? ==> c.pc < |B|)
    ensures Steps(I, B, c, k).Running? ==> Steps(I, B, c, k).pc < |B|
    decreases k
  {
    if k > 0 {
      if c.Running? {
        StaysInside(I, B, c.pc, c.state);
      }
      NeverFallsOff(I, B, Step(I, B, c), k - 1);
    }
  }

  lemma ZeroRuns(I: Interpretation, B: seq<Node>, register: Register, pc: nat, s: State)
    requires Located(B, pc, [ImmediateNode(register, 0), ReturnNode(Some(register.index))]) && register.index !in I.cells
    ensures Steps(I, B, Running(pc, s), 2) == Halted(Some(0), s.memory)
  {
    assert B[pc] == ImmediateNode(register, 0) && B[pc + 1] == ReturnNode(Some(register.index)) by {
      assert B[pc..pc + 2][0] == B[pc] && B[pc..pc + 2][1] == B[pc + 1];
    }
    OneStep(I, B, pc, s);
    OneStep(I, B, pc + 1, Effect(I, ImmediateNode(register, 0), s));
    StepsCompose(I, B, Running(pc, s), 1, 1);
  }

  /** What happens when the body falls through. */
  function AtEnd(f: Function): Option<int> {
    if !f.isVoid && f.name == "main" then Some(0) else None
  }

  lemma ZeroEnds(I: Interpretation, B: seq<Node>, c: Cursor, end: Emitted, width: nat, q: nat, s: State)
    requires Located(B, q, end.nodes) && CellsApart(I, c.next, end.nodes, end.cursor.next)
    requires end.cursor.next == c.next + 1
    requires end.nodes == [ImmediateNode(Register(c.next, width), 0), ReturnNode(Some(c.next))]
    ensures Steps(I, B, Running(q, s), 2) == Halted(Some(0), s.memory)
  {
    var register := Register(c.next, width);
    assert Allocs(end.nodes) == {} by {
      AllocsConcat([ImmediateNode(register, 0)], [ReturnNode(Some(c.next))]);
      assert [ImmediateNode(register, 0)][..0] == [] && [ReturnNode(Some(c.next))][..0] == [];
      assert [ImmediateNode(register, 0)] + [ReturnNode(Some(c.next))] == end.nodes;
    }
    ZeroRuns(I, B, register, q, s);
  }

  /** The nodes of the end, where the last node before is `last`. */
  lemma EndForm(f: Function)
    ensures f.isVoid ==> End(f).nodes == [ReturnNode(None)]
    ensures !f.isVoid && f.name != "main" ==> End(f).nodes == []
    ensures var before := LowerBegin(f).nodes + LowerBody(f).nodes;
            var c := LowerBody(f).cursor;
            !f.isVoid && f.name == "main" && (before == [] || !before[|before| - 1].ReturnNode?) ==>
              End(f).nodes == [ImmediateNode(Register(c.next, f.returnWidth), 0), ReturnNode(Some(c.next))]
              && End(f).cursor.next == c.next + 1
  {
  }

  lemma EndRuns(I: Interpretation, f: Function, B: seq<Node>, q: nat, s: State)
    returns (k: nat)
    requires Located(B, q, End(f).nodes) && CellsApart(I, LowerBody(f).cursor.next, End(f).nodes, End(f).cursor.next)
    requires q + |End(f).nodes| == |B|
    requires var before := LowerBegin(f).nodes + LowerBody(f).nodes;
             f.isVoid || f.name != "main" || before == [] || !before[|before| - 1].ReturnNode?
    ensures Steps(I, B, Running(q, s), k) == Halted(AtEnd(f), s.memory)
  {
    EndForm(f);
    if f.isVoid {
      LocatedOne(B, q, ReturnNode(None));
      OneStep(I, B, q, s);
      k := 1;
    } else if f.name == "main" {
      ZeroEnds(I, B, LowerBody(f).cursor, End(f), f.returnWidth, q, s);
      k := 2;
    } else {
      OneStep(I, B, q, s);
      k := 1;
    }
  }

  // ----- the theorem -----

  lemma BodyRuns(I: Interpretation, env: map<string, int>, f: Function, s: State, fuel: nat)
    returns (k: nat)
    requires AcceptedFunction(f) && Stored(I, env, f)
    ensures var begun := Arguments(I, env, f.parameters, 0, s.memory);
            EndsAs(I, LowerFunction(f).nodes, f.Around(), 0, s, k, fuel, |LowerBegin(f).nodes| + |LowerBody(f).nodes|,
                   ExecAll(I, env, true, f.body, begun, fuel))
  {
    FunctionReady(I, env, f);
    FunctionIsUnique(f);
    k := BegunBodyRuns(I, env, f, LowerFunction(f).nodes, s, fuel);
  }

  /** The parameters are filled in, then the body runs. */
  lemma BegunBodyRuns(I: Interpretation, env: map<string, int>, f: Function, B: seq<Node>, s: State, fuel: nat)
    returns (k: nat)
    requires Distinct(f.parameters) && NewNames(START, f.parameters) && UniqueNames(B)
    requires AcceptedAll(LowerBegin(f).cursor.names.Keys, false, f.isVoid, f.body)
    requires Ready(I, env, B, START, LowerBegin(f), 0)
    requires Ready(I, env, B, LowerBegin(f).cursor, LowerBody(f), |LowerBegin(f).nodes|)
    ensures var begun := Arguments(I, env, f.parameters, 0, s.memory);
            EndsAs(I, B, f.Around(), 0, s, k, fuel, |LowerBegin(f).nodes| + |LowerBody(f).nodes|,
                   ExecAll(I, env, true, f.body, begun, fuel))
  {
    hide Ready, UniqueNames, EndsAs, ExecAll, AcceptedAll, Steps;
    var i, t := ParametersRun(I, env, B, START, f.scope, f.parameters, 0, 0, s);
    var more := AllRuns(I, env, B, f.Around(), LowerBegin(f).cursor, f.body, false, |LowerBegin(f).nodes|, t, fuel);
    Onward(I, B, f.Around(), 0, s, i, |LowerBegin(f).nodes|, t, more, fuel, fuel,
           |LowerBegin(f).nodes| + |LowerBody(f).nodes|, ExecAll(I, env, true, f.body, t.memory, fuel));
    k := i + more;
  }

  lemma FunctionIsUnique(f: Function)
    requires AcceptedFunction(f)
    ensures UniqueNames(LowerFunction(f).nodes) && NewNames(START, f.parameters)
    ensures AcceptedAll(LowerBegin(f).cursor.names.Keys, false, f.isVoid, f.body)
  {
    FunctionIsShaped(f);
    FunctionLabels(f);
    assert LowerBegin(f).cursor.names.Keys == ParameterNames(f.parameters);
  }

  /** How a function ends with this much fuel, seen from its nodes. */
  lemma FunctionRuns(I: Interpretation, env: map<string, int>, f: Function, s: State, fuel: nat)
    returns (k: nat)
    requires AcceptedFunction(f) && Stored(I, env, f)
    ensures var ending := RunFunction(I, env, true, f, s.memory, fuel);
            var c := Steps(I, LowerFunction(f).nodes, Running(0, s), k);
            (ending.Timeout? && c.Running? && fuel <= k)
            || (ending.Returned? && c == Halted(ending.value, ending.memory))
  {
    hide AcceptedFunction, Stored, ExecAll, Arguments, LowerFunction, LowerBegin, LowerBody, Steps;
    var B := LowerFunction(f).nodes;
    var q := |LowerBegin(f).nodes| + |LowerBody(f).nodes|;
    k := BodyRuns(I, env, f, s, fuel);
    if ExecAll(I, env, true, f.body, Arguments(I, env, f.parameters, 0, s.memory), fuel).Normal? {
      var t := Steps(I, B, Running(0, s), k).state;
      FunctionParts(f);
      CannotFall(I, env, f, s, k, q, t);
      EndReady(I, env, f);
      var more := EndRuns(I, f, B, q, t);
      StepsCompose(I, B, Running(0, s), k, more);
      k := k + more;
    }
  }

  lemma CannotFall(I: Interpretation, env: map<string, int>, f: Function, s: State, k: nat, q: nat, t: State)
    requires AcceptedFunction(f)
    requires q == |LowerBegin(f).nodes| + |LowerBody(f).nodes|
    requires Steps(I, LowerFunction(f).nodes, Running(0, s), k) == Running(q, t)
    ensures var before := LowerBegin(f).nodes + LowerBody(f).nodes;
            f.isVoid || f.name != "main" || before == [] || !before[|before| - 1].ReturnNode?
  {
    FunctionParts(f);
    var B := LowerFunction(f).nodes;
    var before := LowerBegin(f).nodes + LowerBody(f).nodes;
    if !f.isVoid && f.name == "main" && before != [] && before[|before| - 1].ReturnNode? {
      assert End(f).nodes == [];
      assert B == before;
      LowersToRunnable(f);
      NeverFallsOff(I, B, Running(0, s), k);
      assert false;
    }
  }

  /** Running a lowered function gives a value and a memory if and only if its meaning does. With it
      goes divergence: the nodes run for ever exactly when no amount of fuel is enough. */
  lemma FunctionSimulated(I: Interpretation, env: map<string, int>, f: Function, s: State, value: Option<int>,
                          memory: map<int, int>)
    requires AcceptedFunction(f) && Stored(I, env, f)
    ensures FunctionEnds(I, env, true, f, s.memory, value, memory)
       <==> BodyEnds(I, LowerFunction(f).nodes, s, value, memory)
  {
    hide LowerFunction, AcceptedFunction, Stored, RunFunction;
    var B := LowerFunction(f).nodes;
    if FunctionEnds(I, env, true, f, s.memory, value, memory) {
      var fuel: nat :| RunFunction(I, env, true, f, s.memory, fuel) == Returned(value, memory);
      var k := FunctionRuns(I, env, f, s, fuel);
    }
    if BodyEnds(I, B, s, value, memory) {
      var k: nat :| Steps(I, B, Running(0, s), k) == Halted(value, memory);
      var fuel := k + 1;
      var j := FunctionRuns(I, env, f, s, fuel);
      var ending := RunFunction(I, env, true, f, s.memory, fuel);
      if j < k {
        StepsCompose(I, B, Running(0, s), j, k - j);
        StepsHalted(I, B, Steps(I, B, Running(0, s), j), k - j);
      } else {
        StepsCompose(I, B, Running(0, s), k, j - k);
        StepsHalted(I, B, Halted(value, memory), j - k);
      }
      assert RunFunction(I, env, true, f, s.memory, fuel) == Returned(value, memory);
    }
  }
}
