/** Whole functions: parameters, body, and the return at the end. */
module Functions {
  import opened Options
  import opened Ssa
  import opened Expressions
  import opened Statements
  import opened StatementShapes

  datatype Parameter = Parameter(name: string, width: nat)

  datatype Function = Function(
    name: string, scope: nat, isVoid: bool, returnWidth: nat, parameters: seq<Parameter>, body: seq<Statement>)
  {
    function Around(): Surroundings {
      Statements.Surroundings.Surroundings(name, isVoid, [])
    }
  }

  // ----- lowering -----

  /** A cell for parameter `index`, filled from the argument. A repeated name keeps its first register. */
  function LowerParameter(c: Cursor, scope: nat, parameter: Parameter, index: nat): Emitted {
    var register := Register(c.next, parameter.width);
    var names := if parameter.name in c.names then c.names else c.names[parameter.name := c.next];
    Nothing(Cursor(names, c.next + 1, c.nextLabel))
      .Then([AllocationNode(register), ParameterNode(scope, register, index)])
  }

  /** Parameter `index` and those after it. */
  function LowerParameters(c: Cursor, scope: nat, parameters: seq<Parameter>, index: nat): Emitted
    decreases |parameters|
  {
    if parameters == [] then Nothing(c)
    else
      var first := LowerParameter(c, scope, parameters[0], index);
      LowerParameters(first.cursor, scope, parameters[1..], index + 1).After(first)
  }

  /** Parameters get cells one after the other, and each is filled from its own argument of this function. */
  lemma {:induction false} ParametersInOrder(c: Cursor, scope: nat, parameters: seq<Parameter>, index: nat, k: nat)
    requires k < |parameters|
    ensures var nodes, cell := LowerParameters(c, scope, parameters, index).nodes, Register(c.next + k, parameters[k].width);
            |nodes| == 2 * |parameters| && nodes[2 * k] == AllocationNode(cell)
            && nodes[2 * k + 1] == ParameterNode(scope, cell, index + k)
    decreases |parameters|
  {
    hide LowerParameters, LowerParameter;
    var cell := Register(c.next, parameters[0].width);
    var after := ParametersSplit(c, scope, parameters, index);
    var rest := LowerParameters(after, scope, parameters[1..], index + 1).nodes;
    ParameterCount(after, scope, parameters[1..], index + 1);
    var nodes := [AllocationNode(cell), ParameterNode(scope, cell, index)] + rest;
    if k > 0 {
      ParametersInOrder(after, scope, parameters[1..], index + 1, k - 1);
      assert nodes[2 * k] == rest[2 * k - 2] && nodes[2 * k + 1] == rest[2 * k - 1];
    }
  }

  lemma ParametersSplit(c: Cursor, scope: nat, parameters: seq<Parameter>, index: nat) returns (after: Cursor)
    requires parameters != []
    ensures after.next == c.next + 1
    ensures var cell := Register(c.next, parameters[0].width);
            LowerParameters(c, scope, parameters, index).nodes
            == [AllocationNode(cell), ParameterNode(scope, cell, index)]
               + LowerParameters(after, scope, parameters[1..], index + 1).nodes
  {
    ParameterGetsItsCell(c, scope, parameters[0], index);
    hide LowerParameter;
    after := LowerParameter(c, scope, parameters[0], index).cursor;
  }

  /** A new name leads to the cell of its parameter, or of the first one so called. */
  lemma {:induction false} ParametersAreFound(c: Cursor, scope: nat, parameters: seq<Parameter>, index: nat, k: nat)
    requires k < |parameters| && parameters[k].name !in c.names
    requires forall j :: 0 <= j < k ==> parameters[j].name != parameters[k].name
    ensures var names := LowerParameters(c, scope, parameters, index).cursor.names;
            parameters[k].name in names && names[parameters[k].name] == c.next + k
    decreases |parameters|
  {
    var first := LowerParameter(c, scope, parameters[0], index);
    ParameterGetsItsCell(c, scope, parameters[0], index);
    hide LowerParameter;
    if k > 0 {
      ParametersAreFound(first.cursor, scope, parameters[1..], index + 1, k - 1);
    } else {
      NamesKept(first.cursor, scope, parameters[1..], index + 1, parameters[0].name);
    }
  }

  lemma ParameterGetsItsCell(c: Cursor, scope: nat, parameter: Parameter, index: nat)
    ensures var l, cell := LowerParameter(c, scope, parameter, index), Register(c.next, parameter.width);
            l.nodes == [AllocationNode(cell), ParameterNode(scope, cell, index)] && l.cursor.next == c.next + 1
            && l.cursor.names.Keys == c.names.Keys + {parameter.name}
            && (parameter.name !in c.names ==> l.cursor.names[parameter.name] == c.next)
  {
  }

  lemma {:induction false} NamesKept(c: Cursor, scope: nat, parameters: seq<Parameter>, index: nat, name: string)
    requires name in c.names
    ensures var l := LowerParameters(c, scope, parameters, index);
            name in l.cursor.names && l.cursor.names[name] == c.names[name]
    decreases |parameters|
  {
    if parameters != [] {
      NamesKept(LowerParameter(c, scope, parameters[0], index).cursor, scope, parameters[1..], index + 1, name);
    }
  }

  lemma {:induction false} ParameterCount(c: Cursor, scope: nat, parameters: seq<Parameter>, index: nat)
    ensures |LowerParameters(c, scope, parameters, index).nodes| == 2 * |parameters|
    decreases |parameters|
  {
    if parameters != [] {
      ParameterCount(LowerParameter(c, scope, parameters[0], index).cursor, scope, parameters[1..], index + 1);
    }
  }

  /** Void functions return at their end; `main` returns zero there unless it just returned. */
  function LowerEnd(f: Function, c: Cursor, before: seq<Node>): Emitted {
    if f.isVoid then Nothing(c).Then([ReturnNode(None)])
    else if f.name == "main" && (before == [] || !before[|before| - 1].ReturnNode?) then
      Nothing(c.(next := c.next + 1)).Then([ImmediateNode(Register(c.next, f.returnWidth), 0), ReturnNode(Some(c.next))])
    else Nothing(c)
  }

  const START := Cursor(map[], 0, 0)

  function LowerBegin(f: Function): Emitted {
    LowerParameters(START, f.scope, f.parameters, 0)
  }

  function LowerBody(f: Function): Emitted {
    LowerAll(f.Around(), LowerBegin(f).cursor, f.body)
  }

  function LowerFunction(f: Function): Emitted {
    var lowered := LowerBody(f).After(LowerBegin(f));
    LowerEnd(f, lowered.cursor, lowered.nodes).After(lowered)
  }

  // ----- meaning -----

  function Arguments(I: Interpretation, env: map<string, int>, parameters: seq<Parameter>, index: nat, m: Memory): Memory
    decreases |parameters|
  {
    if parameters == [] then m
    else Arguments(I, env, parameters[1..], index + 1, m[Get(env, parameters[0].name) := I.argument(index)])
  }

  /** Each parameter holds its own argument, counted from `index`, and nothing else is touched. */
  lemma {:induction false} ArgumentsAreParameters(I: Interpretation, env: map<string, int>, parameters: seq<Parameter>,
                                                  index: nat, m: Memory, k: nat, elsewhere: int)
    requires k < |parameters|
    requires forall j :: k < j < |parameters| ==> Get(env, parameters[j].name) != Get(env, parameters[k].name)
    requires forall j :: 0 <= j < |parameters| ==> Get(env, parameters[j].name) != elsewhere
    ensures Get(Arguments(I, env, parameters, index, m), Get(env, parameters[k].name)) == I.argument(index + k)
    ensures Get(Arguments(I, env, parameters, index, m), elsewhere) == Get(m, elsewhere)
    decreases |parameters|
  {
    var place := Get(env, parameters[0].name);
    var stored := m[place := I.argument(index)];
    if k > 0 {
      ArgumentsAreParameters(I, env, parameters[1..], index + 1, stored, k - 1, elsewhere);
    } else {
      ElsewhereStays(I, env, parameters[1..], index + 1, stored, place);
      ElsewhereStays(I, env, parameters[1..], index + 1, stored, elsewhere);
    }
  }

  lemma {:induction false} ElsewhereStays(I: Interpretation, env: map<string, int>, parameters: seq<Parameter>,
                                          index: nat, m: Memory, elsewhere: int)
    requires forall j :: 0 <= j < |parameters| ==> Get(env, parameters[j].name) != elsewhere
    ensures Get(Arguments(I, env, parameters, index, m), elsewhere) == Get(m, elsewhere)
    decreases |parameters|
  {
    if parameters != [] {
      ElsewhereStays(I, env, parameters[1..], index + 1, m[Get(env, parameters[0].name) := I.argument(index)], elsewhere);
    }
  }

  /** A body that is left at its end returns nothing, or zero from `main`. */
  function RunFunction(I: Interpretation, env: map<string, int>, skipping: bool, f: Function, m: Memory, fuel: nat): Ending {
    var ending := ExecAll(I, env, skipping, f.body, Arguments(I, env, f.parameters, 0, m), fuel);
    if ending.Normal? then Returned(if !f.isVoid && f.name == "main" then Some(0) else None, ending.memory)
    else ending
  }

  /** Leaving the body at its end is returning zero from `main`, and nothing from any other function. */
  lemma EndOfMain(I: Interpretation, env: map<string, int>, skipping: bool, f: Function, m: Memory, fuel: nat)
    requires ExecAll(I, env, skipping, f.body, Arguments(I, env, f.parameters, 0, m), fuel).Normal?
    ensures var ending := RunFunction(I, env, skipping, f, m, fuel);
            ending.Returned? && (ending.value == Some(0) <==> f.name == ['m', 'a', 'i', 'n'] && !f.isVoid)
            && (ending.value == None <==> f.name != ['m', 'a', 'i', 'n'] || f.isVoid)
  {
  }

  /** The function returns this value and leaves this memory. */
  ghost predicate FunctionEnds(I: Interpretation, env: map<string, int>, skipping: bool, f: Function, m: Memory,
                               value: Option<int>, memory: Memory) {
    exists fuel: nat :: RunFunction(I, env, skipping, f, m, fuel) == Returned(value, memory)
  }

  // ----- functions that are lowered without complaint -----

  predicate Distinct(parameters: seq<Parameter>) {
    forall i, j :: 0 <= i < j < |parameters| ==> parameters[i].name != parameters[j].name
  }

  function ParameterNames(parameters: seq<Parameter>): set<string> {
    if parameters == [] then {} else {parameters[0].name} + ParameterNames(parameters[1..])
  }

  predicate AcceptedFunction(f: Function) {
    Distinct(f.parameters) && AcceptedAll(ParameterNames(f.parameters), false, f.isVoid, f.body)
  }
}
