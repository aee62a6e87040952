/** Lowered functions are bodies the code generator can translate. */
module FunctionShapes {
  import opened Options
  import opened Ssa
  import opened PseudoAssembly
  import opened ReferenceCounts
  import opened BodyLayout
  import opened Expressions
  import opened ExpressionLowering
  import opened ExpressionShapes
  import opened Statements
  import opened StatementShapes
  import opened LabelShapes
  import opened StatementLabels
  import opened Functions

  // ----- from the shape of nodes to well-formed bodies -----

  lemma {:induction false} FlowsAt(nodes: seq<Node>, known: set<nat>, lo: nat, hi: nat, i: nat)
    requires Flows(nodes, known, lo, hi) && i < |nodes|
    ensures LooksUp(nodes[i], known + Defs(nodes[..i]))
    ensures Introduces(nodes[i]).Some? ==> lo <= Introduces(nodes[i]).value < hi
    decreases |nodes|
  {
    var before, node := nodes[..|nodes| - 1], nodes[|nodes| - 1];
    var mid := if Introduces(node).Some? then Introduces(node).value else hi;
    if i < |nodes| - 1 {
      FlowsAt(before, known, lo, mid, i);
      assert before[..i] == nodes[..i];
    } else {
      FlowsBounds(before, known, lo, mid);
    }
  }

  lemma {:induction false} FlowsBounds(nodes: seq<Node>, known: set<nat>, lo: nat, hi: nat)
    requires Flows(nodes, known, lo, hi)
    ensures lo <= hi
    decreases |nodes|
  {
    if nodes != [] {
      var before, node := nodes[..|nodes| - 1], nodes[|nodes| - 1];
      FlowsBounds(before, known, lo, if Introduces(node).Some? then Introduces(node).value else hi);
    }
  }

  lemma {:induction false} FlowsOnce(nodes: seq<Node>, known: set<nat>, lo: nat, hi: nat, i: nat, j: nat)
    requires Flows(nodes, known, lo, hi) && i < j < |nodes|
    requires Introduces(nodes[i]).Some? && Introduces(nodes[j]).Some?
    ensures Introduces(nodes[i]).value < Introduces(nodes[j]).value
    decreases |nodes|
  {
    var before, node := nodes[..|nodes| - 1], nodes[|nodes| - 1];
    var mid := if Introduces(node).Some? then Introduces(node).value else hi;
    if j < |nodes| - 1 {
      FlowsOnce(before, known, lo, mid, i, j);
    } else {
      FlowsAt(before, known, lo, mid, i);
    }
  }

  lemma {:induction false} PairedAt(nodes: seq<Node>, i: nat)
    requires Paired(nodes) && i < |nodes|
    ensures nodes[i].BranchNode? ==> Compared(nodes, i)
    ensures nodes[i].CompareNode? ==> i + 1 < |nodes| && Compared(nodes, i + 1)
    ensures nodes[i].BranchNode? || nodes[i].CompareNode? || Simple(nodes[i])
    decreases |nodes|
  {
    var n := |nodes|;
    if nodes[n - 1].BranchNode? {
      if i < n - 2 {
        PairedAt(nodes[..n - 2], i);
      }
    } else if i < n - 1 {
      PairedAt(nodes[..n - 1], i);
    }
  }

  lemma {:induction false} RenamingKnows(body: seq<Node>, n: nat)
    requires n <= |body|
    ensures Renaming(body, n).Keys == Defs(body[..n])
    decreases n
  {
    if n > 0 {
      RenamingKnows(body, n - 1);
      assert body[..n][..n - 1] == body[..n - 1];
    }
  }

  lemma FlowsSingleAssignment(body: seq<Node>, hi: nat)
    requires Flows(body, {}, 0, hi)
    ensures SingleAssignment(body)
  {
    forall i, j | 0 <= i < j < |body| && ResultOf(body[i]).Some? && ResultOf(body[j]).Some?
      ensures ResultOf(body[i]).value.index != ResultOf(body[j]).value.index
    {
      FlowsOnce(body, {}, 0, hi, i, j);
    }
  }

  /** A comparison's result is no other node's. */
  lemma ComparisonApart(body: seq<Node>, hi: nat, i: nat)
    requires Flows(body, {}, 0, hi) && i < |body| && body[i].CompareNode?
    ensures body[i].result.index !in Renaming(body, |body|)
  {
    RenamingBounds(body, |body|);
    if body[i].result.index in Renaming(body, |body|) {
      var j :| 0 <= j < |body| && ResultOf(body[j]).Some? && ResultOf(body[j]).value.index == body[i].result.index;
      if i < j {
        FlowsOnce(body, {}, 0, hi, i, j);
      } else {
        FlowsOnce(body, {}, 0, hi, j, i);
      }
    }
  }

  /** The nodes that fill in the parameters: allocations and incoming arguments, in turn. */
  predicate Filling(nodes: seq<Node>) {
    forall i :: 0 <= i < |nodes| ==> nodes[i].AllocationNode? || nodes[i].ParameterNode?
  }

  lemma {:induction false} FillingEndsNothing(body: seq<Node>, n: nat, r: nat)
    requires n <= |body| && Filling(body[..n])
    ensures Ended(body, n, r) == 0
    decreases n
  {
    if n > 0 {
      assert body[..n][n - 1] == body[n - 1];
      assert body[..n - 1] == body[..n][..n - 1];
      FillingEndsNothing(body, n - 1, r);
    }
  }

  lemma FunctionWellFormedAt(begin: seq<Node>, rest: seq<Node>, hi: nat, i: nat)
    requires Filling(begin) && Paired(rest) && Flows(begin + rest, {}, 0, hi) && i < |begin + rest|
    ensures WellFormedAt(begin + rest, i)
  {
    hide Flows, Paired;
    var body := begin + rest;
    FlowsAt(body, {}, 0, hi, i);
    RenamingKnows(body, i);
    assert {} + Defs(body[..i]) == Renaming(body, i).Keys;
    if i < |begin| {
      assert body[..i] == begin[..i];
      FillingEndsNothing(body, i, if body[i].ParameterNode? then body[i].register.index else 0);
    } else {
      var k := i - |begin|;
      assert body[i] == rest[k] && (k > 0 ==> body[i - 1] == rest[k - 1]);
      PairedAt(rest, k);
      if rest[k].CompareNode? {
        assert body[i + 1] == rest[k + 1];
        ComparisonApart(body, hi, i);
      }
    }
  }

  lemma FunctionWellFormed(begin: seq<Node>, rest: seq<Node>, hi: nat)
    requires Filling(begin) && Paired(rest) && Flows(begin + rest, {}, 0, hi) && UniqueNames(begin + rest)
    ensures WellFormed(begin + rest)
  {
    FlowsSingleAssignment(begin + rest, hi);
    forall i | 0 <= i < |begin + rest|
      ensures WellFormedAt(begin + rest, i)
    {
      FunctionWellFormedAt(begin, rest, hi, i);
    }
  }

  lemma FunctionRunnable(begin: seq<Node>, rest: seq<Node>, hi: nat)
    requires Filling(begin) && Paired(rest) && Flows(begin + rest, {}, 0, hi) && UniqueNames(begin + rest)
    requires Mentioned(begin + rest) <= LabelSet(begin + rest)
    ensures Runnable(begin + rest)
  {
    var body := begin + rest;
    FunctionWellFormed(begin, rest, hi);
    forall i | 0 <= i < |body|
      ensures !body[i].CallNode?
    {
      if i >= |begin| {
        PairedAt(rest, i - |begin|);
      }
    }
    forall i, k | 0 <= i < |body| && 0 <= k < |NamesOf(body[i])|
      ensures HasName(body, NamesOf(body[i])[k])
    {
      MentionedNames(body, i, k);
      LabelSetPlaced(body, NamesOf(body[i])[k]);
    }
  }

  // ----- parameters -----

  lemma OneParameter(c: Cursor, scope: nat, parameter: Parameter, index: nat)
    requires parameter.name !in c.names
    ensures var l := LowerParameter(c, scope, parameter, index);
            Grows(c, l, {parameter.name}) && Filling(l.nodes) && l.cursor.nextLabel == c.nextLabel
            && l.cursor.names == c.names[parameter.name := c.next]
  {
    var register := Register(c.next, parameter.width);
    var a, p := AllocationNode(register), ParameterNode(scope, register, index);
    WellAllocation(c, parameter.name, parameter.width);
    assert LooksUp(p, Homes(c.names) + Defs([a])) by { assert Lookups(p) == [c.next]; }
    FlowsThen([a], p, Homes(c.names), c.next, c.next + 1, c.next + 1);
    assert [a] + [p] == [a, p];
  }

  ghost predicate NewNames(c: Cursor, parameters: seq<Parameter>) {
    forall i :: 0 <= i < |parameters| ==> parameters[i].name !in c.names
  }

  lemma {:induction false} ParametersShape(c: Cursor, scope: nat, parameters: seq<Parameter>, index: nat)
    requires Distinct(parameters) && NewNames(c, parameters)
    ensures var l := LowerParameters(c, scope, parameters, index);
            Grows(c, l, ParameterNames(parameters)) && Filling(l.nodes) && l.cursor.nextLabel == c.nextLabel
    decreases |parameters|
  {
    if parameters == [] {
      WellNothing(c);
    } else {
      var first := LowerParameter(c, scope, parameters[0], index);
      OneParameter(c, scope, parameters[0], index);
      assert Distinct(parameters[1..]) && NewNames(first.cursor, parameters[1..]);
      ParametersShape(first.cursor, scope, parameters[1..], index + 1);
      JoinShapes(c, first, LowerParameters(first.cursor, scope, parameters[1..], index + 1), {parameters[0].name},
                 ParameterNames(parameters[1..]));
    }
  }

  lemma JoinShapes(c: Cursor, first: Emitted, rest: Emitted, da: set<string>, db: set<string>)
    requires Grows(c, first, da) && Filling(first.nodes) && Grows(first.cursor, rest, db) && Filling(rest.nodes)
    ensures Grows(c, rest.After(first), da + db) && Filling(rest.After(first).nodes)
  {
    GrowsAfter(c, first, rest, da, db);
  }

  // ----- the end -----

  lemma EndShape(f: Function, c: Cursor, before: seq<Node>)
    ensures Well(c, LowerEnd(f, c, before), {}) && LowerEnd(f, c, before).cursor.nextLabel == c.nextLabel
    ensures forall i :: 0 <= i < |LowerEnd(f, c, before).nodes| ==>
              !LowerEnd(f, c, before).nodes[i].LabelNode? && !LowerEnd(f, c, before).nodes[i].GotoNode?
              && !LowerEnd(f, c, before).nodes[i].BranchNode?
  {
    hide Well;
    var l := LowerEnd(f, c, before);
    if l.nodes == [] {
      WellNothing(c);
    } else if f.isVoid {
      WellReturn(c, true, None);
    } else {
      ZeroReturned(c, f.returnWidth);
    }
  }

  lemma ZeroReturned(c: Cursor, width: nat)
    ensures Well(c, Nothing(c.(next := c.next + 1)).Then([ImmediateNode(Register(c.next, width), 0),
                                                          ReturnNode(Some(c.next))]), {})
  {
    var zero, back := ImmediateNode(Register(c.next, width), 0), ReturnNode(Some(c.next));
    assert [zero][..0] == [] && [zero, back][..1] == [zero] && [zero] + [back] == [zero, back];
    FlowsThen([], zero, Homes(c.names), c.next, c.next, c.next + 1);
    assert [] + [zero] == [zero];
    FlowsThen([zero], back, Homes(c.names), c.next, c.next + 1, c.next + 1);
  }

  // ----- functions -----

  ghost predicate FunctionShaped(f: Function) {
    Grows(START, LowerBegin(f), ParameterNames(f.parameters))
    && Well(LowerBegin(f).cursor, LowerBody(f), DeclaredAll(f.body))
    && Filling(LowerBegin(f).nodes) && LowerBegin(f).cursor.nextLabel == 0
  }

  lemma FunctionIsShaped(f: Function)
    requires AcceptedFunction(f)
    ensures FunctionShaped(f)
  {
    assert NewNames(START, f.parameters);
    ParametersShape(START, f.scope, f.parameters, 0);
    assert LowerBegin(f).cursor.names.Keys == ParameterNames(f.parameters);
    WellAll(f.Around(), LowerBegin(f).cursor, f.body, false);
  }

  lemma ThreeParts(c: Cursor, begin: Emitted, body: Emitted, end: Emitted, da: set<string>, db: set<string>)
    requires Grows(c, begin, da) && Well(begin.cursor, body, db) && Well(body.cursor, end, {})
    ensures Grows(c, end.After(body.After(begin)), da + db) && Paired(body.nodes + end.nodes)
  {
    GrowsAfter(c, begin, body, da, db);
    GrowsAfter(c, body.After(begin), end, da + db, {});
    PairedConcat(body.nodes, end.nodes);
    assert da + db + {} == da + db;
  }

  /** The end of a function, after its parameters and its body. */
  function End(f: Function): Emitted {
    LowerEnd(f, LowerBody(f).cursor, LowerBegin(f).nodes + LowerBody(f).nodes)
  }

  lemma FunctionParts(f: Function)
    ensures LowerFunction(f) == End(f).After(LowerBody(f).After(LowerBegin(f)))
    ensures LowerFunction(f).nodes == LowerBegin(f).nodes + (LowerBody(f).nodes + End(f).nodes)
  {
    hide LowerBegin, LowerBody, LowerEnd;
    assert LowerBegin(f).nodes + LowerBody(f).nodes + End(f).nodes
        == LowerBegin(f).nodes + (LowerBody(f).nodes + End(f).nodes);
  }

  lemma FunctionFlows(f: Function)
    requires FunctionShaped(f)
    ensures Paired(LowerBody(f).nodes + End(f).nodes)
    ensures Grows(START, LowerFunction(f), ParameterNames(f.parameters) + DeclaredAll(f.body))
  {
    FunctionParts(f);
    EndShape(f, LowerBody(f).cursor, LowerBegin(f).nodes + LowerBody(f).nodes);
    ThreeParts(START, LowerBegin(f), LowerBody(f), End(f), ParameterNames(f.parameters), DeclaredAll(f.body));
  }

  lemma FunctionLabels(f: Function)
    requires AcceptedFunction(f) && FunctionShaped(f)
    ensures UniqueNames(LowerFunction(f).nodes) && Mentioned(LowerFunction(f).nodes) <= LabelSet(LowerFunction(f).nodes)
  {
    var begin, body := LowerBegin(f), LowerBody(f);
    var lowered := body.After(begin);
    var end := LowerEnd(f, lowered.cursor, lowered.nodes);
    EndShape(f, lowered.cursor, lowered.nodes);
    LabelledPlain(f.name, {}, START, begin);
    assert begin.cursor.names.Keys == ParameterNames(f.parameters);
    LabelledAll(f.Around(), begin.cursor, f.body, false);
    LabelledAfter(f.name, {}, START, begin, body);
    LabelledPlain(f.name, {}, lowered.cursor, end);
    LabelledAfter(f.name, {}, START, lowered, end);
    OwnedUnique(f.name, LowerFunction(f).nodes, Range(0, LowerFunction(f).cursor.nextLabel));
  }

  /** Every accepted function is lowered, without a diagnostic, to a body that can be translated. */
  lemma LowersToRunnable(f: Function)
    requires AcceptedFunction(f)
    ensures Runnable(LowerFunction(f).nodes) && LowerFunction(f).diagnostics == 0
  {
    FunctionIsShaped(f);
    FunctionFlows(f);
    FunctionParts(f);
    FunctionLabels(f);
    assert Homes(START.names) == {};
    FunctionRunnable(LowerBegin(f).nodes, LowerBody(f).nodes + End(f).nodes, LowerFunction(f).cursor.next);
  }
}
