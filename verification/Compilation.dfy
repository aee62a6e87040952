/** From the statements of a function to cleaned-up code: what comes out returns the value and
    leaves the memory that the function means, and runs for ever exactly when the function does. */
module Compilation {
  import opened Options
  import opened VirtualCode
  import opened AllocationMaps
  import opened Ssa
  import opened PseudoAssembly
  import opened ReferenceCounts
  import opened CodeSimulation
  import opened BodyLayout
  import opened Routines
  import opened ExpressionShapes
  import opened Statements
  import opened StatementSimulation
  import opened Functions
  import opened FunctionShapes
  import opened FunctionSimulation
  import opened ContinueInFor
  import opened Lowering

  /** The code of a function: on every machine that gives the operators the same meaning, from every
      state, it ends with a value and a memory if and only if the function does. */
  ghost predicate Compiles(f: Function, skipping: bool, code: seq<VirtualInstruction>) {
    var regs := Registers(LowerFunction(f).nodes);
    Injective(regs)
    && forall I: Interpretation, env: map<string, int>, v: State, value: Option<int>, memory: map<int, int> ::
         Stored(I, env, f) ==>
           (FunctionEnds(I, env, skipping, f, v.memory, value, memory) <==> CodeEnds(I, regs, code, v, value, memory))
  }

  lemma {:induction false} AllocsAreDefs(nodes: seq<Node>)
    ensures Allocs(nodes) <= Defs(nodes)
    decreases |nodes|
  {
    if nodes != [] {
      AllocsAreDefs(nodes[..|nodes| - 1]);
    }
  }

  lemma AllocsAreKnown(nodes: seq<Node>)
    ensures Allocs(nodes) <= Registers(nodes).Keys
  {
    AllocsAreDefs(nodes);
    RenamingKnows(nodes, |nodes|);
    assert nodes[..|nodes|] == nodes;
  }

  lemma CellsAreKnown(I: Interpretation, nodes: seq<Node>)
    requires forall r :: r in I.cells ==> r in Allocs(nodes)
    ensures CellsWithin(I, nodes)
  {
    AllocsAreKnown(nodes);
  }

  /** Every virtual state is matched by some state of the body. */
  function Matching(I: Interpretation, regs: map<nat, nat>, v: State): State {
    State(map r | r in regs && r !in I.cells :: Get(v.registers, regs[r]), v.memory)
  }

  lemma MatchingMatches(I: Interpretation, regs: map<nat, nat>, v: State)
    ensures Matches(I, regs, Matching(I, regs, v), v) && Matching(I, regs, v).memory == v.memory
  {
  }

  lemma ImplementsOne(I: Interpretation, nodes: seq<Node>, code: seq<VirtualInstruction>, s: State, v: State,
                      value: Option<int>, memory: map<int, int>)
    requires Implements(code, nodes) && CellsWithin(I, nodes) && Matches(I, Registers(nodes), s, v)
    ensures BodyEnds(I, nodes, s, value, memory) <==> CodeEnds(I, Registers(nodes), code, v, value, memory)
  {
  }

  lemma CompilesOne(I: Interpretation, env: map<string, int>, f: Function, code: seq<VirtualInstruction>, v: State,
                    value: Option<int>, memory: map<int, int>)
    requires AcceptedFunction(f) && Stored(I, env, f) && Implements(code, LowerFunction(f).nodes)
    ensures FunctionEnds(I, env, true, f, v.memory, value, memory)
       <==> CodeEnds(I, Registers(LowerFunction(f).nodes), code, v, value, memory)
  {
    var s := Matching(I, Registers(LowerFunction(f).nodes), v);
    MatchingMatches(I, Registers(LowerFunction(f).nodes), v);
    FunctionSimulated(I, env, f, s, value, memory);
    CellsAreKnown(I, LowerFunction(f).nodes);
    ImplementsOne(I, LowerFunction(f).nodes, code, s, v, value, memory);
  }

  lemma CompilesSkipping(f: Function, code: seq<VirtualInstruction>)
    requires AcceptedFunction(f) && Implements(code, LowerFunction(f).nodes)
    ensures Compiles(f, true, code)
  {
    forall I: Interpretation, env: map<string, int>, v: State, value: Option<int>, memory: map<int, int>
      | Stored(I, env, f)
      ensures FunctionEnds(I, env, true, f, v.memory, value, memory)
         <==> CodeEnds(I, Registers(LowerFunction(f).nodes), code, v, value, memory)
    {
      CompilesOne(I, env, f, code, v, value, memory);
    }
  }

  lemma RegularEndsSame(I: Interpretation, env: map<string, int>, f: Function, m: map<int, int>, value: Option<int>,
                        memory: map<int, int>)
    requires RegularAll(f.body)
    ensures FunctionEnds(I, env, true, f, m, value, memory) <==> FunctionEnds(I, env, false, f, m, value, memory)
  {
    forall fuel: nat
      ensures RunFunction(I, env, true, f, m, fuel) == RunFunction(I, env, false, f, m, fuel)
    {
      RegularAllMeansSame(I, env, f.body, Arguments(I, env, f.parameters, 0, m), fuel);
    }
  }

  lemma CompilesRegular(f: Function, code: seq<VirtualInstruction>)
    requires Compiles(f, true, code) && RegularAll(f.body)
    ensures Compiles(f, false, code)
  {
    forall I: Interpretation, env: map<string, int>, v: State, value: Option<int>, memory: map<int, int>
      | Stored(I, env, f)
      ensures FunctionEnds(I, env, false, f, v.memory, value, memory)
         <==> CodeEnds(I, Registers(LowerFunction(f).nodes), code, v, value, memory)
    {
      RegularEndsSame(I, env, f, v.memory, value, memory);
    }
  }

  /** Lower, count uses, translate, clean up. */
  method CompileFunction(f: Function, target: VirtualRegisterMap, optimiseJumps: bool)
    returns (code: seq<VirtualInstruction>, errors: nat)
    requires AcceptedFunction(f) && Fits(LowerFunction(f).nodes)
    modifies target
    ensures errors == 0 && Compiles(f, true, code)
    ensures RegularAll(f.body) ==> Compiles(f, false, code)
  {
    var ir := new IR(f.name, f.isVoid);
    ir.ParseFunctionDefinition(f);
    LowersToRunnable(f);
    var functions;
    code, errors, functions := CompileRoutine(target, ir.built, optimiseJumps);
    errors := errors + ir.diagnostics;
    CompilesSkipping(f, code);
    if RegularAll(f.body) {
      CompilesRegular(f, code);
    }
  }
}
