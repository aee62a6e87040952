/** Nested statements in place: every statement's nodes end as its meaning does. */
module ControlSimulation {
  import opened Options
  import opened VirtualCode
  import opened Ssa
  import opened Expressions
  import opened ExpressionLowering
  import opened ExpressionShapes
  import opened Statements
  import opened StatementShapes
  import opened StatementSimulation

  /** The labels that surrounding loops offer are placed. */
  ghost predicate TargetsPlaced(B: seq<Node>, w: Surroundings) {
    forall i :: 0 <= i < |w.jumps| ==>
      HasName(B, w.jumps[i].breakLabel)
      && (w.jumps[i].continueLabel.Some? ==> HasName(B, w.jumps[i].continueLabel.value))
  }

  lemma {:induction false} ContinueTargetPlaced(B: seq<Node>, w: Surroundings, jumps: seq<JumpTarget>)
    requires TargetsPlaced(B, w) && jumps <= w.jumps && ContinueTarget(jumps).Some?
    ensures HasName(B, ContinueTarget(jumps).value)
    decreases |jumps|
  {
    if jumps[|jumps| - 1].continueLabel.None? {
      ContinueTargetPlaced(B, w, jumps[..|jumps| - 1]);
    } else {
      assert jumps[|jumps| - 1] == w.jumps[|jumps| - 1];
    }
  }

  /** What a lowering needs around it to run at `pc`. */
  ghost predicate Ready(I: Interpretation, env: map<string, int>, B: seq<Node>, c: Cursor, l: Emitted, pc: nat) {
    Located(B, pc, l.nodes) && CellsApart(I, c.next, l.nodes, l.cursor.next)
    && Environment(I, c.names, env, c.next) && Environment(I, l.cursor.names, env, l.cursor.next)
  }

  lemma EnvironmentBetween(I: Interpretation, env: map<string, int>, c: Cursor, a: Emitted, b: Emitted, da: set<string>,
                           db: set<string>)
    requires Grows(c, a, da) && Grows(a.cursor, b, db)
    requires Environment(I, c.names, env, c.next) && Environment(I, b.cursor.names, env, b.cursor.next)
    ensures Environment(I, a.cursor.names, env, a.cursor.next)
  {
    RegistersWithin(a.nodes, Homes(c.names), c.next, a.cursor.next);
    forall name | name in a.cursor.names
      ensures a.cursor.names[name] < a.cursor.next
    {
      assert a.cursor.names[name] in Homes(a.cursor.names);
    }
  }

  lemma ReadyAfter(I: Interpretation, env: map<string, int>, B: seq<Node>, c: Cursor, a: Emitted, b: Emitted,
                   da: set<string>, db: set<string>, pc: nat)
    requires Grows(c, a, da) && Grows(a.cursor, b, db) && Ready(I, env, B, c, b.After(a), pc)
    ensures Ready(I, env, B, c, a, pc) && Ready(I, env, B, a.cursor, b, pc + |a.nodes|)
  {
    EnvironmentBetween(I, env, c, a, b, da, db);
    LocatedConcat(B, pc, a.nodes, b.nodes);
    CellsApartConcat(I, a.nodes, b.nodes, Homes(c.names), Homes(a.cursor.names), c.next, a.cursor.next, b.cursor.next);
  }

  lemma ReadyThen(I: Interpretation, env: map<string, int>, B: seq<Node>, c: Cursor, l: Emitted, node: Node, pc: nat)
    requires Neutral(node) && Ready(I, env, B, c, l.Then([node]), pc)
    ensures Ready(I, env, B, c, l, pc) && Located(B, pc + |l.nodes|, [node])
  {
    LocatedConcat(B, pc, l.nodes, [node]);
    assert (l.nodes + [node])[..|l.nodes|] == l.nodes;
  }

  lemma ReadyLabelled(I: Interpretation, env: map<string, int>, B: seq<Node>, c: Cursor, label_: string, b: Emitted,
                      db: set<string>, pc: nat)
    requires Well(c, b, db) && Ready(I, env, B, c, b.After(Nothing(c).Then([LabelNode(label_)])), pc)
    ensures Located(B, pc, [LabelNode(label_)]) && Ready(I, env, B, c, b, pc + 1)
  {
    WellLabelled(c, label_);
    ReadyAfter(I, env, B, c, Nothing(c).Then([LabelNode(label_)]), b, {}, db, pc);
  }

  // ----- loops -----

  /** A loop from the label of its body on, and its parts. */
  datatype Loop = Loop(
    w: Surroundings, c: Cursor, test: Option<Expression>, body: seq<Statement>, step: Option<Expression>,
    bodyLabel: string, continueLabel: string, endLabel: string)
  {
    function Whole(): Emitted {
      LowerLoop(w, c, test, body, step, bodyLabel, continueLabel, endLabel)
    }

    function Inside(): Surroundings {
      w.Inside(endLabel, continueLabel)
    }

    function Inner(): Emitted {
      LowerAll(Inside(), c, body)
    }

    function Stepped(): Emitted {
      LowerStep(Inner().cursor, step)
    }

    function Front(): Emitted {
      LoopFront(w, c, body, step, bodyLabel, continueLabel, endLabel)
    }

    function Again(): Emitted {
      LowerBranch(Front().cursor, test, bodyLabel, endLabel).0
    }

    function StepAt(pc: nat): nat {
      pc + 1 + |Inner().nodes|
    }

    function ContinueAt(pc: nat): nat {
      pc + |Front().nodes|
    }

    function EndAt(pc: nat): nat {
      pc + |Front().nodes| + 1 + |Again().nodes|
    }

    predicate Fits() {
      AcceptedAll(c.names.Keys, true, w.isVoid, body) && FineTest(c.names.Keys + DeclaredAll(body), test)
      && (step.Some? ==> Fine(c.names.Keys + DeclaredAll(body), step.value))
    }
  }

  lemma LoopInnerWell(L: Loop)
    requires L.Fits()
    ensures Well(L.c, L.Inner(), DeclaredAll(L.body)) && Well(L.Inner().cursor, L.Stepped(), {})
  {
    WellAll(L.Inside(), L.c, L.body, true);
    WellStep(L.Inner().cursor, L.step);
  }

  lemma LoopFrontWell(L: Loop)
    requires L.Fits()
    ensures Well(L.c, L.Front(), DeclaredAll(L.body)) && Well(L.Front().cursor, L.Again(), {})
    ensures FineTest(L.Front().cursor.names.Keys, L.test)
    ensures LowerBranch(L.Front().cursor, L.test, L.bodyLabel, L.endLabel).1
  {
    LoopInnerWell(L);
    WellFront(L.c, L.Inner(), L.Stepped(), L.bodyLabel, DeclaredAll(L.body));
    assert L.Front().cursor.names.Keys == L.c.names.Keys + DeclaredAll(L.body);
    WellBranch(L.Front().cursor, L.test, L.bodyLabel, L.endLabel);
  }

  /** The end of a loop: its continue label, the test again, its end label. */
  lemma TailReady(I: Interpretation, env: map<string, int>, B: seq<Node>, c: Cursor, front: Emitted, again: Emitted,
                  continueLabel: string, endLabel: string, declared: set<string>, pc: nat)
    requires Well(c, front, declared) && Well(front.cursor, again, {})
    requires Ready(I, env, B, c, again.After(front.Then([LabelNode(continueLabel)])).Then([LabelNode(endLabel)]), pc)
    ensures Ready(I, env, B, c, front, pc) && Located(B, pc + |front.nodes|, [LabelNode(continueLabel)])
    ensures Ready(I, env, B, front.cursor, again, pc + |front.nodes| + 1)
    ensures Located(B, pc + |front.nodes| + 1 + |again.nodes|, [LabelNode(endLabel)])
  {
    var iteration := front.Then([LabelNode(continueLabel)]);
    WellThen(c, front, LabelNode(continueLabel), declared);
    ReadyThen(I, env, B, c, again.After(iteration), LabelNode(endLabel), pc);
    ReadyAfter(I, env, B, c, iteration, again, declared, {}, pc);
    ReadyThen(I, env, B, c, front, LabelNode(continueLabel), pc);
  }

  /** The start of a loop: the label of its body, the body, the iteration expression. */
  lemma HeadReady(I: Interpretation, env: map<string, int>, B: seq<Node>, c: Cursor, inner: Emitted, stepped: Emitted,
                  bodyLabel: string, declared: set<string>, pc: nat)
    requires Well(c, inner, declared) && Well(inner.cursor, stepped, {})
    requires Ready(I, env, B, c, stepped.After(inner.After(Nothing(c).Then([LabelNode(bodyLabel)]))), pc)
    ensures Well(c, stepped.After(inner.After(Nothing(c).Then([LabelNode(bodyLabel)]))), declared)
    ensures Located(B, pc, [LabelNode(bodyLabel)]) && Ready(I, env, B, c, inner, pc + 1)
    ensures Ready(I, env, B, inner.cursor, stepped, pc + 1 + |inner.nodes|)
  {
    var labelled := Nothing(c).Then([LabelNode(bodyLabel)]);
    WellFront(c, inner, stepped, bodyLabel, declared);
    ReadyAfter(I, env, B, c, inner.After(labelled), stepped, declared, {}, pc);
    ReadyLabelled(I, env, B, c, bodyLabel, inner, declared, pc);
  }

  lemma WellFront(c: Cursor, inner: Emitted, stepped: Emitted, bodyLabel: string, declared: set<string>)
    requires Well(c, inner, declared) && Well(inner.cursor, stepped, {})
    ensures Well(c, inner.After(Nothing(c).Then([LabelNode(bodyLabel)])), declared)
    ensures Well(c, stepped.After(inner.After(Nothing(c).Then([LabelNode(bodyLabel)]))), declared)
  {
    hide Grows, Paired;
    var labelled := Nothing(c).Then([LabelNode(bodyLabel)]);
    assert {} + declared == declared && declared + {} == declared;
    WellLabelled(c, bodyLabel);
    WellAfter(c, labelled, inner, {}, declared);
    WellAfter(c, inner.After(labelled), stepped, declared, {});
  }

  lemma LoopForm(L: Loop)
    requires L.Fits()
    ensures L.Whole() == L.Again().After(L.Front().Then([LabelNode(L.continueLabel)])).Then([LabelNode(L.endLabel)])
    ensures L.Front() == L.Stepped().After(L.Inner().After(Nothing(L.c).Then([LabelNode(L.bodyLabel)])))
  {
    assert LowerBranch(L.Front().cursor, L.test, L.bodyLabel, L.endLabel).1 by { LoopFrontWell(L); }
  }

  lemma LoopTailReady(I: Interpretation, env: map<string, int>, B: seq<Node>, L: Loop, pc: nat)
    requires L.Fits() && Ready(I, env, B, L.c, L.Whole(), pc)
    ensures Ready(I, env, B, L.c, L.Front(), pc) && Located(B, L.ContinueAt(pc), [LabelNode(L.continueLabel)])
    ensures Ready(I, env, B, L.Front().cursor, L.Again(), L.ContinueAt(pc) + 1)
    ensures Located(B, L.EndAt(pc), [LabelNode(L.endLabel)]) && pc + |L.Whole().nodes| == L.EndAt(pc) + 1
  {
    hide Ready, Well, Located, DeclaredAll;
    LoopForm(L);
    LoopFrontWell(L);
    TailReady(I, env, B, L.c, L.Front(), L.Again(), L.continueLabel, L.endLabel, DeclaredAll(L.body), pc);
  }

  lemma LoopHeadReady(I: Interpretation, env: map<string, int>, B: seq<Node>, L: Loop, pc: nat)
    requires L.Fits() && Ready(I, env, B, L.c, L.Front(), pc)
    ensures Located(B, pc, [LabelNode(L.bodyLabel)]) && Ready(I, env, B, L.c, L.Inner(), pc + 1)
    ensures Ready(I, env, B, L.Inner().cursor, L.Stepped(), L.StepAt(pc))
    ensures L.ContinueAt(pc) == L.StepAt(pc) + |L.Stepped().nodes|
  {
    hide Ready, Well, Located, DeclaredAll, AcceptedAll, FineTest;
    LoopInnerWell(L);
    HeadReady(I, env, B, L.c, L.Inner(), L.Stepped(), L.bodyLabel, DeclaredAll(L.body), pc);
  }

  // ----- statements in place -----

  lemma InsideTargets(w: Surroundings, endLabel: string, continueLabel: string)
    ensures var inside := w.Inside(endLabel, continueLabel);
            inside.jumps != [] && inside.jumps[|inside.jumps| - 1].breakLabel == endLabel
            && ContinueTarget(inside.jumps) == Some(continueLabel) && HasTargets(inside, true)
  {
  }

  lemma InsidePlaced(B: seq<Node>, w: Surroundings, endLabel: string, continueLabel: string)
    requires TargetsPlaced(B, w) && HasName(B, endLabel) && HasName(B, continueLabel)
    ensures TargetsPlaced(B, w.Inside(endLabel, continueLabel))
  {
  }

  lemma StepRuns(I: Interpretation, env: map<string, int>, B: seq<Node>, c: Cursor, step: Option<Expression>, pc: nat,
                 s: State)
    returns (k: nat, t: State)
    requires (step.Some? ==> Fine(c.names.Keys, step.value)) && Ready(I, env, B, c, LowerStep(c, step), pc)
    ensures Steps(I, B, Running(pc, s), k) == Running(pc + |LowerStep(c, step).nodes|, t)
    ensures t.memory == StepMemory(I, env, step, s.memory)
  {
    if step.None? {
      k, t := 0, s;
    } else {
      t := EvaluationRuns(I, env, B, c, step.value, pc, s);
      k := |Lower(c.names, step.value, c.next).nodes|;
    }
  }

  /** A label, a test, a label: either to the label of the body, or behind the last label. */
  lemma TestBetween(I: Interpretation, env: map<string, int>, B: seq<Node>, c: Cursor, test: Option<Expression>,
                    bodyLabel: string, continueLabel: string, endLabel: string, at: nat, end: nat, s: State)
    returns (k: nat, t: State)
    requires FineTest(c.names.Keys, test) && UniqueNames(B) && HasName(B, bodyLabel)
    requires Located(B, at, [LabelNode(continueLabel)]) && Located(B, end, [LabelNode(endLabel)])
    requires Ready(I, env, B, c, LowerBranch(c, test, bodyLabel, endLabel).0, at + 1)
    ensures var (go, m1) := Passes(I, env, test, s.memory);
            k > 0 && t.memory == m1
            && Steps(I, B, Running(at, s), k) == Running(if go then Place(B, bodyLabel) else end + 1, t)
  {
    LabelRuns(I, B, at, s, continueLabel);
    LabelAt(B, end, endLabel);
    k, t := TestRuns(I, env, B, c, test, bodyLabel, endLabel, at + 1, s);
    StepsCompose(I, B, Running(at, s), 1, k);
    k := k + 1;
    if !Passes(I, env, test, s.memory).0 {
      LabelRuns(I, B, end, t, endLabel);
      StepsCompose(I, B, Running(at, s), k, 1);
      k := k + 1;
    }
  }

  /** From the continue label: the test, and then the body again or the end of the loop. */
  lemma TailRuns(I: Interpretation, env: map<string, int>, B: seq<Node>, L: Loop, pc: nat, s: State)
    returns (k: nat, t: State)
    requires L.Fits() && UniqueNames(B) && Ready(I, env, B, L.c, L.Whole(), pc)
    requires HasName(B, L.bodyLabel) && Place(B, L.bodyLabel) == pc
    ensures var (go, m1) := Passes(I, env, L.test, s.memory);
            k > 0 && t.memory == m1
            && Steps(I, B, Running(L.ContinueAt(pc), s), k)
            == Running(if go then pc else pc + |L.Whole().nodes|, t)
  {
    LoopTailReady(I, env, B, L, pc);
    LoopFineTest(L);
    k, t := TestBetween(I, env, B, L.Front().cursor, L.test, L.bodyLabel, L.continueLabel, L.endLabel,
                        L.ContinueAt(pc), L.EndAt(pc), s);
  }

  lemma LoopFineTest(L: Loop)
    requires L.Fits()
    ensures FineTest(L.Front().cursor.names.Keys, L.test)
  {
    LoopFrontWell(L);
  }

  /** What holds wherever a loop is entered. */
  ghost predicate LoopPlaced(I: Interpretation, env: map<string, int>, B: seq<Node>, L: Loop, pc: nat) {
    L.Fits() && UniqueNames(B) && TargetsPlaced(B, L.w) && Ready(I, env, B, L.c, L.Whole(), pc)
  }

  /** The labels of a loop, where they are. */
  lemma LoopLabels(I: Interpretation, env: map<string, int>, B: seq<Node>, L: Loop, pc: nat)
    requires LoopPlaced(I, env, B, L, pc)
    ensures Located(B, pc, [LabelNode(L.bodyLabel)])
    ensures HasName(B, L.bodyLabel) && Place(B, L.bodyLabel) == pc
    ensures HasName(B, L.continueLabel) && Place(B, L.continueLabel) == L.ContinueAt(pc)
    ensures HasName(B, L.endLabel) && Place(B, L.endLabel) == L.EndAt(pc)
    ensures Located(B, L.EndAt(pc), [LabelNode(L.endLabel)]) && pc + |L.Whole().nodes| == L.EndAt(pc) + 1
  {
    LoopTailReady(I, env, B, L, pc);
    LoopHeadReady(I, env, B, L, pc);
    LabelAt(B, pc, L.bodyLabel);
    LabelAt(B, L.ContinueAt(pc), L.continueLabel);
    LabelAt(B, L.EndAt(pc), L.endLabel);
  }

  lemma LoopBodyReady(I: Interpretation, env: map<string, int>, B: seq<Node>, L: Loop, pc: nat)
    requires LoopPlaced(I, env, B, L, pc)
    ensures Ready(I, env, B, L.c, L.Inner(), pc + 1) && TargetsPlaced(B, L.Inside())
  {
    LoopLabels(I, env, B, L, pc);
    InsidePlaced(B, L.w, L.endLabel, L.continueLabel);
    LoopTailReady(I, env, B, L, pc);
    LoopHeadReady(I, env, B, L, pc);
  }

  lemma LoopStepRuns(I: Interpretation, env: map<string, int>, B: seq<Node>, L: Loop, pc: nat, s: State)
    returns (k: nat, t: State)
    requires LoopPlaced(I, env, B, L, pc)
    ensures Steps(I, B, Running(L.StepAt(pc), s), k) == Running(L.ContinueAt(pc), t)
    ensures t.memory == StepMemory(I, env, L.step, s.memory)
  {
    LoopTailReady(I, env, B, L, pc);
    LoopHeadReady(I, env, B, L, pc);
    LoopInnerNames(L);
    k, t := StepRuns(I, env, B, L.Inner().cursor, L.step, L.StepAt(pc), s);
  }

  lemma LoopInnerNames(L: Loop)
    requires L.Fits()
    ensures L.Inner().cursor.names.Keys == L.c.names.Keys + DeclaredAll(L.body)
  {
    LoopInnerWell(L);
  }

  /** A body that falls through, or continues, leads to the continue label: falling through, over
      the iteration expression; continuing, past it. */
  lemma BodyGoesOn(I: Interpretation, env: map<string, int>, B: seq<Node>, L: Loop, pc: nat, s: State, j: nat, fuel: nat,
                   ending: Ending)
    returns (k: nat, t: State)
    requires LoopPlaced(I, env, B, L, pc) && (ending.Normal? || ending.Continued?)
    requires EndsAs(I, B, L.Inside(), pc + 1, s, j, fuel, L.StepAt(pc), ending)
    ensures k > 0 && Steps(I, B, Running(pc, s), k) == Running(L.ContinueAt(pc), t)
    ensures t.memory == if ending.Normal? then StepMemory(I, env, L.step, ending.memory) else ending.memory
  {
    hide LoopPlaced, UniqueNames, LowerLoop, LowerAll, AcceptedAll, Steps, StepMemory;
    LoopLabels(I, env, B, L, pc);
    LabelRuns(I, B, pc, s, L.bodyLabel);
    StepsCompose(I, B, Running(pc, s), 1, j);
    k, t := 1 + j, Steps(I, B, Running(pc + 1, s), j).state;
    if ending.Normal? {
      var more, u := LoopStepRuns(I, env, B, L, pc, t);
      StepsCompose(I, B, Running(pc, s), k, more);
      k, t := k + more, u;
    } else {
      InsideTargets(L.w, L.endLabel, L.continueLabel);
    }
  }

  /** A body that breaks leads behind the loop; one that returns or goes on for ever does so. */
  lemma BodyLeaves(I: Interpretation, env: map<string, int>, B: seq<Node>, L: Loop, pc: nat, s: State, j: nat, fuel: nat,
                   ending: Ending)
    returns (k: nat)
    requires LoopPlaced(I, env, B, L, pc) && (ending.Broke? || ending.Returned? || ending.Timeout?)
    requires EndsAs(I, B, L.Inside(), pc + 1, s, j, fuel, L.StepAt(pc), ending)
    ensures EndsAs(I, B, L.w, pc, s, k, fuel + 1, pc + |L.Whole().nodes|,
                   if ending.Broke? then Normal(ending.memory) else ending)
  {
    LoopLabels(I, env, B, L, pc);
    LabelRuns(I, B, pc, s, L.bodyLabel);
    StepsCompose(I, B, Running(pc, s), 1, j);
    k := 1 + j;
    if ending.Broke? {
      InsideTargets(L.w, L.endLabel, L.continueLabel);
      var t := Steps(I, B, Running(pc + 1, s), j).state;
      LabelRuns(I, B, L.EndAt(pc), t, L.endLabel);
      StepsCompose(I, B, Running(pc, s), k, 1);
      k := k + 1;
    }
  }

  /** A run that falls through goes on for `m` more steps; any other is left as it is. */
  lemma FallsOn(I: Interpretation, B: seq<Node>, w: Surroundings, pc: nat, s: State, j: nat, fuel: nat, mid: nat,
                ending: Ending, m: nat, after: nat)
    returns (k: nat)
    requires EndsAs(I, B, w, pc, s, j, fuel, mid, ending)
    requires ending.Normal? ==>
               var c := Steps(I, B, Running(pc, s), j); Steps(I, B, c, m) == Running(after, c.state)
    ensures EndsAs(I, B, w, pc, s, k, fuel, after, ending)
  {
    k := if ending.Normal? then j + m else j;
    StepsCompose(I, B, Running(pc, s), j, m);
  }

  // ----- the two arms of an if -----

  lemma JumpOverRuns(I: Interpretation, B: seq<Node>, at: nat, end: nat, s: State, endLabel: string)
    requires UniqueNames(B) && Located(B, at, [GotoNode(endLabel)]) && Located(B, end, [LabelNode(endLabel)])
    ensures Steps(I, B, Running(at, s), 2) == Running(end + 1, s)
  {
    LabelAt(B, end, endLabel);
    GotoRuns(I, B, at, s, endLabel);
    LabelRuns(I, B, end, s, endLabel);
    StepsCompose(I, B, Running(at, s), 1, 1);
  }

  lemma ThenReady(I: Interpretation, env: map<string, int>, B: seq<Node>, w: Surroundings, c: Cursor,
                  body: seq<Statement>, thenLabel: string, endLabel: string, loop: bool, pc: nat)
    requires AcceptedAll(c.names.Keys, loop, w.isVoid, body) && HasTargets(w, loop)
    requires Ready(I, env, B, c, LowerThen(w, c, body, thenLabel, endLabel), pc)
    ensures Located(B, pc, [LabelNode(thenLabel)]) && Ready(I, env, B, c, LowerAll(w, c, body), pc + 1)
    ensures Located(B, pc + 1 + |LowerAll(w, c, body).nodes|, [GotoNode(endLabel)])
  {
    hide Ready, Well, Located, DeclaredAll, LowerAll, AcceptedAll, HasTargets;
    var inner := LowerAll(w, c, body);
    WellAll(w, c, body, loop);
    var labelled := Nothing(c).Then([LabelNode(thenLabel)]);
    ReadyThen(I, env, B, c, inner.After(labelled), GotoNode(endLabel), pc);
    ReadyLabelled(I, env, B, c, thenLabel, inner, DeclaredAll(body), pc);
  }

  lemma {:induction false} ThenRuns(I: Interpretation, env: map<string, int>, B: seq<Node>, w: Surroundings, c: Cursor,
                                    body: seq<Statement>, thenLabel: string, endLabel: string, loop: bool, pc: nat,
                                    end: nat, s: State, fuel: nat)
    returns (k: nat)
    requires AcceptedAll(c.names.Keys, loop, w.isVoid, body) && HasTargets(w, loop)
    requires UniqueNames(B) && TargetsPlaced(B, w) && Located(B, end, [LabelNode(endLabel)])
    requires Ready(I, env, B, c, LowerThen(w, c, body, thenLabel, endLabel), pc)
    ensures EndsAs(I, B, w, pc, s, k, fuel, end + 1, ExecAll(I, env, true, body, s.memory, fuel))
    decreases fuel, body, 1
  {
    hide Ready, UniqueNames, TargetsPlaced, AcceptedAll, HasTargets, LowerAll, Located;
    ThenReady(I, env, B, w, c, body, thenLabel, endLabel, loop, pc);
    LabelRuns(I, B, pc, s, thenLabel);
    var j := AllRuns(I, env, B, w, c, body, loop, pc + 1, s, fuel);
    var ending := ExecAll(I, env, true, body, s.memory, fuel);
    var mid := pc + 1 + |LowerAll(w, c, body).nodes|;
    if ending.Normal? {
      JumpOverRuns(I, B, mid, end, Steps(I, B, Running(pc + 1, s), j).state, endLabel);
    }
    k := FallsOn(I, B, w, pc + 1, s, j, fuel, mid, ending, 2, end + 1);
    Onward(I, B, w, pc, s, 1, pc + 1, s, k, fuel, fuel, end + 1, ending);
    k := 1 + k;
  }

  lemma {:induction false} ElseRuns(I: Interpretation, env: map<string, int>, B: seq<Node>, w: Surroundings, c: Cursor,
                                    body: seq<Statement>, elseLabel: string, endLabel: string, loop: bool, pc: nat,
                                    s: State, fuel: nat)
    returns (k: nat)
    requires AcceptedAll(c.names.Keys, loop, w.isVoid, body) && HasTargets(w, loop)
    requires UniqueNames(B) && TargetsPlaced(B, w)
    requires Ready(I, env, B, c, LowerElse(w, c, body, elseLabel), pc)
    requires Located(B, pc + |LowerElse(w, c, body, elseLabel).nodes|, [LabelNode(endLabel)])
    ensures EndsAs(I, B, w, pc, s, k, fuel, pc + |LowerElse(w, c, body, elseLabel).nodes| + 1,
                   ExecAll(I, env, true, body, s.memory, fuel))
    decreases fuel, body, 1
  {
    hide Ready, Well, DeclaredAll, LowerAll, AcceptedAll, HasTargets, UniqueNames, TargetsPlaced;
    if body == [] {
      LabelRuns(I, B, pc, s, endLabel);
      k := 1;
    } else {
      var inner := LowerAll(w, c, body);
      WellAll(w, c, body, loop);
      ReadyLabelled(I, env, B, c, elseLabel, inner, DeclaredAll(body), pc);
      LabelRuns(I, B, pc, s, elseLabel);
      var j := AllRuns(I, env, B, w, c, body, loop, pc + 1, s, fuel);
      var ending := ExecAll(I, env, true, body, s.memory, fuel);
      var end := pc + 1 + |inner.nodes|;
      if ending.Normal? {
        LabelRuns(I, B, end, Steps(I, B, Running(pc + 1, s), j).state, endLabel);
      }
      k := FallsOn(I, B, w, pc + 1, s, j, fuel, end, ending, 1, end + 1);
      Onward(I, B, w, pc, s, 1, pc + 1, s, k, fuel, fuel, end + 1, ending);
      k := 1 + k;
    }
  }

  lemma {:induction false} AllRuns(I: Interpretation, env: map<string, int>, B: seq<Node>, w: Surroundings, c: Cursor,
                                   sts: seq<Statement>, loop: bool, pc: nat, s: State, fuel: nat)
    returns (k: nat)
    requires AcceptedAll(c.names.Keys, loop, w.isVoid, sts) && HasTargets(w, loop)
    requires UniqueNames(B) && TargetsPlaced(B, w) && Ready(I, env, B, c, LowerAll(w, c, sts), pc)
    ensures EndsAs(I, B, w, pc, s, k, fuel, pc + |LowerAll(w, c, sts).nodes|,
                   ExecAll(I, env, true, sts, s.memory, fuel))
    decreases fuel, sts, 0
  {
    hide Ready, UniqueNames, TargetsPlaced, HasTargets, Accepted, LowerStatement, Exec;
    if sts == [] {
      k := 0;
    } else {
      SequenceReady(I, env, B, w, c, sts, loop, pc);
      var j := StatementRuns(I, env, B, w, c, sts[0], loop, pc, s, fuel);
      k := RestRuns(I, env, B, w, LowerStatement(w, c, sts[0]).cursor, sts[1..], loop, pc, s, j,
                    pc + |LowerStatement(w, c, sts[0]).nodes|, Exec(I, env, true, sts[0], s.memory, fuel), fuel);
    }
  }

  /** The statements after one that ended as it did. */
  lemma {:induction false} RestRuns(I: Interpretation, env: map<string, int>, B: seq<Node>, w: Surroundings, c: Cursor,
                                    sts: seq<Statement>, loop: bool, pc: nat, s: State, j: nat, at: nat,
                                    ending: Ending, fuel: nat)
    returns (k: nat)
    requires AcceptedAll(c.names.Keys, loop, w.isVoid, sts) && HasTargets(w, loop)
    requires UniqueNames(B) && TargetsPlaced(B, w) && Ready(I, env, B, c, LowerAll(w, c, sts), at)
    requires EndsAs(I, B, w, pc, s, j, fuel, at, ending)
    ensures EndsAs(I, B, w, pc, s, k, fuel, at + |LowerAll(w, c, sts).nodes|,
                   if ending.Normal? then ExecAll(I, env, true, sts, ending.memory, fuel) else ending)
    decreases fuel, sts, 1
  {
    hide Ready, UniqueNames, TargetsPlaced, HasTargets, AcceptedAll, LowerAll, Steps;
    k := j;
    if ending.Normal? {
      var t := Steps(I, B, Running(pc, s), j).state;
      var more := AllRuns(I, env, B, w, c, sts, loop, at, t, fuel);
      Onward(I, B, w, pc, s, j, at, t, more, fuel, fuel, at + |LowerAll(w, c, sts).nodes|,
             ExecAll(I, env, true, sts, t.memory, fuel));
      k := j + more;
    }
  }

  lemma SequenceReady(I: Interpretation, env: map<string, int>, B: seq<Node>, w: Surroundings, c: Cursor,
                      sts: seq<Statement>, loop: bool, pc: nat)
    requires sts != [] && AcceptedAll(c.names.Keys, loop, w.isVoid, sts) && HasTargets(w, loop)
    requires Ready(I, env, B, c, LowerAll(w, c, sts), pc)
    ensures var first := LowerStatement(w, c, sts[0]);
            && Ready(I, env, B, c, first, pc)
            && Ready(I, env, B, first.cursor, LowerAll(w, first.cursor, sts[1..]), pc + |first.nodes|)
            && AcceptedAll(first.cursor.names.Keys, loop, w.isVoid, sts[1..])
            && |LowerAll(w, c, sts).nodes| == |first.nodes| + |LowerAll(w, first.cursor, sts[1..]).nodes|
  {
    hide Ready, Well, HasTargets, Accepted;
    WellStatement(w, c, sts[0], loop);
    var first := LowerStatement(w, c, sts[0]);
    WellGrows(c, first, Declared(sts[0]));
    WellAll(w, first.cursor, sts[1..], loop);
    WellGrows(first.cursor, LowerAll(w, first.cursor, sts[1..]), DeclaredAll(sts[1..]));
    ReadyAfter(I, env, B, c, first, LowerAll(w, first.cursor, sts[1..]), Declared(sts[0]), DeclaredAll(sts[1..]), pc);
  }

  /** What the arms of an `if` come to: their nodes, and where their labels are. */
  datatype Arms = Arms(
    w: Surroundings, c: Cursor, st: Statement, thenLabel: string, elseLabel: string, endLabel: string, loop: bool)
  {
    predicate Fits() {
      st.If? && HasTargets(w, loop) && AcceptedAll(c.names.Keys, loop, w.isVoid, st.thenBody)
      && AcceptedAll(c.names.Keys + DeclaredAll(st.thenBody), loop, w.isVoid, st.elseBody)
      && (st.elseBody == [] ==> elseLabel == endLabel)
    }

    function Whole(): Emitted
      requires st.If?
    {
      LowerArms(w, c, st, thenLabel, elseLabel, endLabel)
    }

    function First(): Emitted
      requires st.If?
    {
      LowerThen(w, c, st.thenBody, thenLabel, endLabel)
    }

    function Otherwise(): Emitted
      requires st.If?
    {
      LowerElse(w, First().cursor, st.elseBody, elseLabel)
    }

    function ElseAt(pc: nat): nat
      requires st.If?
    {
      pc + |First().nodes|
    }

    function EndAt(pc: nat): nat
      requires st.If?
    {
      ElseAt(pc) + |Otherwise().nodes|
    }
  }

  lemma ArmsWell(A: Arms)
    requires A.Fits()
    ensures Well(A.c, A.First(), DeclaredAll(A.st.thenBody))
    ensures Well(A.First().cursor, A.Otherwise(), DeclaredAll(A.st.elseBody))
    ensures AcceptedAll(A.First().cursor.names.Keys, A.loop, A.w.isVoid, A.st.elseBody)
  {
    WellThenPart(A.w, A.c, A.st.thenBody, A.thenLabel, A.endLabel, A.loop);
    WellElsePart(A.w, A.First().cursor, A.st.elseBody, A.elseLabel, A.loop);
  }

  lemma PairReady(I: Interpretation, env: map<string, int>, B: seq<Node>, c: Cursor, first: Emitted, second: Emitted,
                  node: Node, da: set<string>, db: set<string>, pc: nat)
    requires Well(c, first, da) && Well(first.cursor, second, db) && Neutral(node)
    requires Ready(I, env, B, c, second.After(first).Then([node]), pc)
    ensures Ready(I, env, B, c, first, pc) && Ready(I, env, B, first.cursor, second, pc + |first.nodes|)
    ensures Located(B, pc + |first.nodes| + |second.nodes|, [node])
  {
    ReadyThen(I, env, B, c, second.After(first), node, pc);
    ReadyAfter(I, env, B, c, first, second, da, db, pc);
  }

  lemma ArmsReady(I: Interpretation, env: map<string, int>, B: seq<Node>, A: Arms, pc: nat)
    requires A.Fits() && Ready(I, env, B, A.c, A.Whole(), pc)
    ensures Ready(I, env, B, A.c, A.First(), pc) && Ready(I, env, B, A.First().cursor, A.Otherwise(), A.ElseAt(pc))
    ensures Located(B, A.EndAt(pc), [LabelNode(A.endLabel)]) && pc + |A.Whole().nodes| == A.EndAt(pc) + 1
  {
    hide Ready, Well, Located, DeclaredAll, AcceptedAll;
    ArmsWell(A);
    PairReady(I, env, B, A.c, A.First(), A.Otherwise(), LabelNode(A.endLabel), DeclaredAll(A.st.thenBody),
              DeclaredAll(A.st.elseBody), pc);
  }

  lemma ArmsFine(A: Arms)
    requires A.Fits()
    ensures AcceptedAll(A.First().cursor.names.Keys, A.loop, A.w.isVoid, A.st.elseBody)
  {
    ArmsWell(A);
  }

  lemma ArmsLabels(I: Interpretation, env: map<string, int>, B: seq<Node>, A: Arms, pc: nat)
    requires A.Fits() && UniqueNames(B) && Ready(I, env, B, A.c, A.Whole(), pc)
    ensures HasName(B, A.thenLabel) && Place(B, A.thenLabel) == pc
    ensures HasName(B, A.elseLabel) && Place(B, A.elseLabel) == A.ElseAt(pc)
  {
    ArmsReady(I, env, B, A, pc);
    ArmsFine(A);
    ThenReady(I, env, B, A.w, A.c, A.st.thenBody, A.thenLabel, A.endLabel, A.loop, pc);
    LabelAt(B, pc, A.thenLabel);
    ElseLabelAt(I, env, B, A.w, A.First().cursor, A.st.elseBody, A.elseLabel, A.loop, A.ElseAt(pc));
    LabelAt(B, A.ElseAt(pc), A.elseLabel);
  }

  /** From a branch to the label of the one arm or the other. */
  lemma {:induction false} ArmsRun(I: Interpretation, env: map<string, int>, B: seq<Node>, A: Arms, pc: nat,
                                   taken: bool, s: State, fuel: nat)
    returns (k: nat)
    requires A.Fits() && UniqueNames(B) && TargetsPlaced(B, A.w) && Ready(I, env, B, A.c, A.Whole(), pc)
    ensures EndsAs(I, B, A.w, if taken then pc else A.ElseAt(pc), s, k, fuel, pc + |A.Whole().nodes|,
                   ExecAll(I, env, true, if taken then A.st.thenBody else A.st.elseBody, s.memory, fuel))
    decreases fuel, A.st, 0, 0
  {
    hide Ready, UniqueNames, TargetsPlaced, EndsAs, ExecAll, AcceptedAll, Located;
    ArmsReady(I, env, B, A, pc);
    if taken {
      k := ThenRuns(I, env, B, A.w, A.c, A.st.thenBody, A.thenLabel, A.endLabel, A.loop, pc, A.EndAt(pc), s, fuel);
    } else {
      ArmsFine(A);
      k := ElseRuns(I, env, B, A.w, A.First().cursor, A.st.elseBody, A.elseLabel, A.endLabel, A.loop, A.ElseAt(pc), s,
                    fuel);
    }
  }

  lemma ElseLabelAt(I: Interpretation, env: map<string, int>, B: seq<Node>, w: Surroundings, c: Cursor,
                    body: seq<Statement>, elseLabel: string, loop: bool, pc: nat)
    requires AcceptedAll(c.names.Keys, loop, w.isVoid, body) && HasTargets(w, loop)
    requires Ready(I, env, B, c, LowerElse(w, c, body, elseLabel), pc)
    requires body == [] ==> Located(B, pc, [LabelNode(elseLabel)])
    ensures Located(B, pc, [LabelNode(elseLabel)])
  {
    if body != [] {
      WellAll(w, c, body, loop);
      ReadyLabelled(I, env, B, c, elseLabel, LowerAll(w, c, body), DeclaredAll(body), pc);
    }
  }

  // ----- loops in place -----

  lemma {:induction false} BodyRuns(I: Interpretation, env: map<string, int>, B: seq<Node>, L: Loop, pc: nat, s: State,
                                    fuel: nat)
    returns (j: nat)
    requires LoopPlaced(I, env, B, L, pc)
    ensures EndsAs(I, B, L.Inside(), pc + 1, s, j, fuel, L.StepAt(pc), ExecAll(I, env, true, L.body, s.memory, fuel))
    decreases fuel, L.body, 1
  {
    hide Ready, UniqueNames, TargetsPlaced, EndsAs, ExecAll, Located;
    LoopBodyReady(I, env, B, L, pc);
    InsideTargets(L.w, L.endLabel, L.continueLabel);
    j := AllRuns(I, env, B, L.Inside(), L.c, L.body, true, pc + 1, s, fuel);
  }

  lemma {:induction false} IterateRuns(I: Interpretation, env: map<string, int>, B: seq<Node>, L: Loop, pc: nat,
                                       s: State, fuel: nat)
    returns (k: nat)
    requires LoopPlaced(I, env, B, L, pc)
    ensures EndsAs(I, B, L.w, pc, s, k, fuel, pc + |L.Whole().nodes|,
                   Iterate(I, env, true, L.test, L.body, L.step, s.memory, fuel))
    decreases fuel, L.body, 0
  {
    hide LoopPlaced, UniqueNames, LowerLoop, LowerAll, ExecAll, AcceptedAll;
    if fuel == 0 {
      k := 0;
    } else {
      var j := BodyRuns(I, env, B, L, pc, s, fuel - 1);
      var ending := ExecAll(I, env, true, L.body, s.memory, fuel - 1);
      if ending.Normal? || ending.Continued? {
        var i, t := BodyGoesOn(I, env, B, L, pc, s, j, fuel - 1, ending);
        k := GoesRound(I, env, B, L, pc, s, i, t, fuel - 1);
      } else {
        k := BodyLeaves(I, env, B, L, pc, s, j, fuel - 1, ending);
      }
    }
  }

  lemma {:induction false} GoesRound(I: Interpretation, env: map<string, int>, B: seq<Node>, L: Loop, pc: nat, s: State,
                                     i: nat, t: State, fuel: nat)
    returns (k: nat)
    requires LoopPlaced(I, env, B, L, pc) && i > 0 && Steps(I, B, Running(pc, s), i) == Running(L.ContinueAt(pc), t)
    ensures EndsAs(I, B, L.w, pc, s, k, fuel + 1, pc + |L.Whole().nodes|,
                   Again(I, env, true, L.test, L.body, L.step, t.memory, fuel))
    decreases fuel, L.body, 2
  {
    hide LoopPlaced, EndsAs, Again, LowerLoop, LowerAll;
    k := AgainRuns(I, env, B, L, pc, t, fuel);
    Onward(I, B, L.w, pc, s, i, L.ContinueAt(pc), t, k, fuel + 1, fuel, pc + |L.Whole().nodes|,
           Again(I, env, true, L.test, L.body, L.step, t.memory, fuel));
    k := i + k;
  }

  lemma {:induction false} AgainRuns(I: Interpretation, env: map<string, int>, B: seq<Node>, L: Loop, pc: nat,
                                     s: State, fuel: nat)
    returns (k: nat)
    requires LoopPlaced(I, env, B, L, pc)
    ensures EndsAs(I, B, L.w, L.ContinueAt(pc), s, k, fuel, pc + |L.Whole().nodes|,
                   Again(I, env, true, L.test, L.body, L.step, s.memory, fuel))
    decreases fuel, L.body, 1
  {
    hide Ready, UniqueNames, TargetsPlaced, LowerLoop, LowerAll, Iterate, Located, Steps, AcceptedAll;
    LoopLabels(I, env, B, L, pc);
    var i, t := TailRuns(I, env, B, L, pc, s);
    k := i;
    if Passes(I, env, L.test, s.memory).0 {
      var more := IterateRuns(I, env, B, L, pc, t, fuel);
      Onward(I, B, L.w, L.ContinueAt(pc), s, i, pc, t, more, fuel, fuel, pc + |L.Whole().nodes|,
             Iterate(I, env, true, L.test, L.body, L.step, t.memory, fuel));
      k := i + more;
    }
  }

  /** A loop with the test it is entered through. */
  datatype Entry = Entry(
    w: Surroundings, c: Cursor, test: Option<Expression>, body: seq<Statement>, step: Option<Expression>,
    bodyLabel: string, continueLabel: string, endLabel: string)
  {
    predicate Fits() {
      AcceptedAll(c.names.Keys, true, w.isVoid, body) && FineTest(c.names.Keys, test)
      && (step.Some? ==> Fine(c.names.Keys + DeclaredAll(body), step.value))
    }

    function Whole(): Emitted {
      LowerEntry(w, c, test, body, step, bodyLabel, continueLabel, endLabel)
    }

    function First(): Emitted {
      LowerBranch(c, test, bodyLabel, endLabel).0
    }

    function Rest(): Loop {
      Loop(w, First().cursor, test, body, step, bodyLabel, continueLabel, endLabel)
    }
  }

  lemma EntryWell(E: Entry)
    requires E.Fits()
    ensures Well(E.c, E.First(), {}) && Well(E.First().cursor, E.Rest().Whole(), DeclaredAll(E.body)) && E.Rest().Fits()
    ensures E.Whole() == E.Rest().Whole().After(E.First())
  {
    WellBranch(E.c, E.test, E.bodyLabel, E.endLabel);
    FineTestWider(E.c.names.Keys, E.c.names.Keys + DeclaredAll(E.body), E.test);
    assert E.First().cursor.names.Keys == E.c.names.Keys;
    WellLoop(E.w, E.First().cursor, E.test, E.body, E.step, E.bodyLabel, E.continueLabel, E.endLabel);
  }

  lemma EntryParts(I: Interpretation, env: map<string, int>, B: seq<Node>, E: Entry, pc: nat)
    requires E.Fits() && Ready(I, env, B, E.c, E.Whole(), pc)
    ensures Ready(I, env, B, E.c, E.First(), pc)
    ensures Ready(I, env, B, E.First().cursor, E.Rest().Whole(), pc + |E.First().nodes|)
  {
    hide Well, Grows, Ready, DeclaredAll, AcceptedAll, FineTest, LowerEntry, LowerLoop, LowerBranch;
    EntryWell(E);
    WellGrows(E.c, E.First(), {});
    WellGrows(E.First().cursor, E.Rest().Whole(), DeclaredAll(E.body));
    ReadyAfter(I, env, B, E.c, E.First(), E.Rest().Whole(), {}, DeclaredAll(E.body), pc);
  }

  lemma WellGrows(c: Cursor, l: Emitted, declared: set<string>)
    requires Well(c, l, declared)
    ensures Grows(c, l, declared)
  {
  }

  lemma EntryReady(I: Interpretation, env: map<string, int>, B: seq<Node>, E: Entry, pc: nat)
    requires E.Fits() && UniqueNames(B) && TargetsPlaced(B, E.w) && Ready(I, env, B, E.c, E.Whole(), pc)
    ensures Ready(I, env, B, E.c, E.First(), pc) && LoopPlaced(I, env, B, E.Rest(), pc + |E.First().nodes|)
    ensures |E.Whole().nodes| == |E.First().nodes| + |E.Rest().Whole().nodes|
  {
    EntryParts(I, env, B, E, pc);
    hide Well, Ready, UniqueNames, TargetsPlaced, DeclaredAll;
    EntryWell(E);
  }

  /** The first test leads to the label of the body, or behind the loop. */
  lemma EntryTested(I: Interpretation, env: map<string, int>, B: seq<Node>, E: Entry, pc: nat, s: State)
    returns (k: nat, t: State)
    requires E.Fits() && Ready(I, env, B, E.c, E.First(), pc) && LoopPlaced(I, env, B, E.Rest(), pc + |E.First().nodes|)
    ensures var (go, m1) := Passes(I, env, E.test, s.memory);
            var at := pc + |E.First().nodes|;
            t.memory == m1
            && Steps(I, B, Running(pc, s), k) == Running(if go then at else at + |E.Rest().Whole().nodes|, t)
  {
    hide Well, TargetsPlaced, UniqueNames, LowerLoop, LoopPlaced, Steps, AcceptedAll, FineTest, DeclaredAll, Located;
    var at := pc + |E.First().nodes|;
    EntryLabels(I, env, B, E.Rest(), at);
    k, t := TestRuns(I, env, B, E.c, E.test, E.bodyLabel, E.endLabel, pc, s);
    if !Passes(I, env, E.test, s.memory).0 {
      EndPassed(I, B, pc, s, k, at + |E.Rest().Whole().nodes| - 1, t, E.endLabel);
      k := k + 1;
    }
  }

  lemma EntryLabels(I: Interpretation, env: map<string, int>, B: seq<Node>, L: Loop, pc: nat)
    requires LoopPlaced(I, env, B, L, pc)
    ensures HasName(B, L.bodyLabel) && Place(B, L.bodyLabel) == pc && |L.Whole().nodes| > 0
    ensures var end := pc + |L.Whole().nodes| - 1;
            HasName(B, L.endLabel) && Place(B, L.endLabel) == end && Located(B, end, [LabelNode(L.endLabel)])
  {
    LoopLabels(I, env, B, L, pc);
  }

  lemma EndPassed(I: Interpretation, B: seq<Node>, pc: nat, s: State, k: nat, end: nat, t: State, label_: string)
    requires Steps(I, B, Running(pc, s), k) == Running(end, t) && Located(B, end, [LabelNode(label_)])
    ensures Steps(I, B, Running(pc, s), k + 1) == Running(end + 1, t)
  {
    LabelRuns(I, B, end, t, label_);
    StepsCompose(I, B, Running(pc, s), k, 1);
  }

  /** A loop entered through its test. */
  lemma {:induction false} EntryRuns(I: Interpretation, env: map<string, int>, B: seq<Node>, E: Entry, pc: nat,
                                     s: State, fuel: nat)
    returns (k: nat)
    requires E.Fits() && UniqueNames(B) && TargetsPlaced(B, E.w) && Ready(I, env, B, E.c, E.Whole(), pc)
    ensures EndsAs(I, B, E.w, pc, s, k, fuel, pc + |E.Whole().nodes|,
                   Again(I, env, true, E.test, E.body, E.step, s.memory, fuel))
    decreases fuel, E.body, 1
  {
    hide UniqueNames, TargetsPlaced, Ready, LoopPlaced, Iterate;
    EntryReady(I, env, B, E, pc);
    var at := pc + |E.First().nodes|;
    var i, t := EntryTested(I, env, B, E, pc, s);
    k := i;
    if Passes(I, env, E.test, s.memory).0 {
      var more := IterateRuns(I, env, B, E.Rest(), at, t, fuel);
      Onward(I, B, E.w, pc, s, i, at, t, more, fuel, fuel, at + |E.Rest().Whole().nodes|,
             Iterate(I, env, true, E.test, E.body, E.step, t.memory, fuel));
      k := i + more;
    }
  }

  // ----- every statement -----

  lemma SimpleRuns(I: Interpretation, env: map<string, int>, B: seq<Node>, w: Surroundings, c: Cursor, st: Statement,
                   loop: bool, pc: nat, s: State, fuel: nat)
    returns (k: nat)
    requires Accepted(c.names.Keys, loop, w.isVoid, st) && HasTargets(w, loop) && TargetsPlaced(B, w)
    requires Ready(I, env, B, c, LowerStatement(w, c, st), pc)
    requires st.Evaluation? || st.Declaration? || st.Break? || st.Continue? || st.Return?
    ensures EndsAs(I, B, w, pc, s, k, fuel, pc + |LowerStatement(w, c, st).nodes|,
                   Exec(I, env, true, st, s.memory, fuel))
  {
    match st
    case Evaluation(e) =>
      var t := EvaluationRuns(I, env, B, c, e, pc, s);
      k := |Lower(c.names, e, c.next).nodes|;
    case Declaration(name, width, initialiser) =>
      DeclaredEnvironment(I, env, c, name, width, initialiser);
      var j, t := DeclarationRuns(I, env, B, c, name, width, initialiser, pc, s);
      k := j;
    case Break =>
      GotoRuns(I, B, pc, s, w.jumps[|w.jumps| - 1].breakLabel);
      k := 1;
    case Continue =>
      ContinueTargetPlaced(B, w, w.jumps);
      GotoRuns(I, B, pc, s, ContinueTarget(w.jumps).value);
      k := 1;
    case Return(returned) =>
      k := ReturnRuns(I, env, B, c, w.isVoid, returned, pc, s);
  }

  lemma DeclaredEnvironment(I: Interpretation, env: map<string, int>, c: Cursor, name: string, width: nat,
                            initialiser: Option<Expression>)
    requires name !in c.names && (initialiser.Some? ==> Fine(c.names.Keys + {name}, initialiser.value))
    requires Environment(I, c.names, env, c.next)
    requires var l := LowerDeclaration(c, name, width, initialiser); Environment(I, l.cursor.names, env, l.cursor.next)
    ensures Environment(I, c.names[name := c.next], env, c.next + 1)
  {
  }

  lemma IfReady(I: Interpretation, env: map<string, int>, B: seq<Node>, c: Cursor, A: Arms, pc: nat)
    requires A.Fits() && FineTest(c.names.Keys, Some(A.st.condition)) && UniqueNames(B)
    requires var tested := LowerBranch(c, Some(A.st.condition), A.thenLabel, A.elseLabel).0;
             A.c == tested.cursor && Ready(I, env, B, c, A.Whole().After(tested), pc)
    ensures var tested := LowerBranch(c, Some(A.st.condition), A.thenLabel, A.elseLabel).0;
            Ready(I, env, B, c, tested, pc) && Ready(I, env, B, A.c, A.Whole(), pc + |tested.nodes|)
  {
    var tested := LowerBranch(c, Some(A.st.condition), A.thenLabel, A.elseLabel).0;
    WellBranch(c, Some(A.st.condition), A.thenLabel, A.elseLabel);
    WellArms(A.w, A.c, A.st, A.thenLabel, A.elseLabel, A.endLabel, A.loop);
    ReadyAfter(I, env, B, c, tested, A.Whole(), {}, Declared(A.st), pc);
  }

  /** The test of an `if` leads to the arm it chooses. */
  lemma ChoiceMade(I: Interpretation, env: map<string, int>, B: seq<Node>, c: Cursor, A: Arms, pc: nat, s: State)
    returns (i: nat, t: State)
    requires A.Fits() && FineTest(c.names.Keys, Some(A.st.condition)) && UniqueNames(B)
    requires var tested := LowerBranch(c, Some(A.st.condition), A.thenLabel, A.elseLabel).0;
             A.c == tested.cursor && Ready(I, env, B, c, tested, pc)
             && Ready(I, env, B, A.c, A.Whole(), pc + |tested.nodes|)
    ensures var (taken, m1) := Passes(I, env, Some(A.st.condition), s.memory);
            var at := pc + |LowerBranch(c, Some(A.st.condition), A.thenLabel, A.elseLabel).0.nodes|;
            Steps(I, B, Running(pc, s), i) == Running(if taken then at else A.ElseAt(at), t) && t.memory == m1
  {
    ArmsLabels(I, env, B, A, pc + |LowerBranch(c, Some(A.st.condition), A.thenLabel, A.elseLabel).0.nodes|);
    i, t := TestRuns(I, env, B, c, Some(A.st.condition), A.thenLabel, A.elseLabel, pc, s);
  }

  lemma {:induction false} ChoiceRuns(I: Interpretation, env: map<string, int>, B: seq<Node>, c: Cursor, A: Arms,
                                      pc: nat, s: State, fuel: nat)
    returns (k: nat)
    requires A.Fits() && FineTest(c.names.Keys, Some(A.st.condition)) && UniqueNames(B) && TargetsPlaced(B, A.w)
    requires var tested := LowerBranch(c, Some(A.st.condition), A.thenLabel, A.elseLabel).0;
             A.c == tested.cursor && Ready(I, env, B, c, A.Whole().After(tested), pc)
    ensures EndsAs(I, B, A.w, pc, s, k, fuel,
                   pc + |LowerBranch(c, Some(A.st.condition), A.thenLabel, A.elseLabel).0.nodes| + |A.Whole().nodes|,
                   Exec(I, env, true, A.st, s.memory, fuel))
    decreases fuel, A.st, 0, 1
  {
    hide Ready, UniqueNames, TargetsPlaced, EndsAs, AcceptedAll, FineTest, LowerBranch, Steps;
    IfReady(I, env, B, c, A, pc);
    var at := pc + |LowerBranch(c, Some(A.st.condition), A.thenLabel, A.elseLabel).0.nodes|;
    var i, t := ChoiceMade(I, env, B, c, A, pc, s);
    var taken := Passes(I, env, Some(A.st.condition), s.memory).0;
    var more := ArmsRun(I, env, B, A, at, taken, t, fuel);
    Onward(I, B, A.w, pc, s, i, if taken then at else A.ElseAt(at), t, more, fuel, fuel, at + |A.Whole().nodes|,
           ExecAll(I, env, true, if taken then A.st.thenBody else A.st.elseBody, t.memory, fuel));
    k := i + more;
  }

  lemma {:induction false} IfRuns(I: Interpretation, env: map<string, int>, B: seq<Node>, w: Surroundings,
                                  c: Cursor, st: Statement, loop: bool, pc: nat, s: State, fuel: nat)
    returns (k: nat)
    requires st.If? && Accepted(c.names.Keys, loop, w.isVoid, st) && HasTargets(w, loop)
    requires UniqueNames(B) && TargetsPlaced(B, w) && Ready(I, env, B, c, LowerStatement(w, c, st), pc)
    ensures EndsAs(I, B, w, pc, s, k, fuel, pc + |LowerStatement(w, c, st).nodes|,
                   Exec(I, env, true, st, s.memory, fuel))
    decreases fuel, st, 1
  {
    hide Located, CellsApart, Environment, UniqueNames, TargetsPlaced, EndsAs, Exec, HasTargets, AcceptedAll;
    hide LowerArms;
    var thenLabel := LabelName(w.function_, "if.then", c.nextLabel);
    var endLabel := LabelName(w.function_, "if.end", c.nextLabel + 1);
    var elseLabel := if st.elseBody == [] then endLabel else LabelName(w.function_, "if.else", c.nextLabel + 2);
    var labelled := c.(nextLabel := c.nextLabel + if st.elseBody == [] then 2 else 3);
    var tested := LowerBranch(labelled, Some(st.condition), thenLabel, elseLabel).0;
    var A := Arms(w, tested.cursor, st, thenLabel, elseLabel, endLabel, loop);
    BranchCursor(labelled, st.condition, thenLabel, elseLabel);
    IfForm(w, c, st, labelled, A);
    k := ChoiceRuns(I, env, B, labelled, A, pc, s, fuel);
  }

  lemma IfForm(w: Surroundings, c: Cursor, st: Statement, labelled: Cursor, A: Arms)
    requires st.If? && A.w == w && A.st == st
    requires A.thenLabel == LabelName(w.function_, "if.then", c.nextLabel)
    requires A.endLabel == LabelName(w.function_, "if.end", c.nextLabel + 1)
    requires A.elseLabel == if st.elseBody == [] then A.endLabel else LabelName(w.function_, "if.else", c.nextLabel + 2)
    requires labelled == c.(nextLabel := c.nextLabel + if st.elseBody == [] then 2 else 3)
    requires var tested := LowerBranch(labelled, Some(st.condition), A.thenLabel, A.elseLabel);
             tested.1 && A.c == tested.0.cursor
    ensures LowerStatement(w, c, st)
         == A.Whole().After(LowerBranch(labelled, Some(st.condition), A.thenLabel, A.elseLabel).0)
  {
    var tested := LowerBranch(labelled, Some(st.condition), A.thenLabel, A.elseLabel).0;
    assert LowerChoice(w, labelled, st, A.thenLabel, A.elseLabel, A.endLabel) == (A.Whole().After(tested), true);
  }

  lemma BranchCursor(c: Cursor, condition: Expression, trueLabel: string, falseLabel: string)
    requires FineTest(c.names.Keys, Some(condition))
    ensures LowerBranch(c, Some(condition), trueLabel, falseLabel).1
    ensures LowerBranch(c, Some(condition), trueLabel, falseLabel).0.cursor.names.Keys == c.names.Keys
  {
    WellBranch(c, Some(condition), trueLabel, falseLabel);
  }

  lemma {:induction false} WhileRuns(I: Interpretation, env: map<string, int>, B: seq<Node>, w: Surroundings,
                                     c: Cursor, st: Statement, loop: bool, pc: nat, s: State, fuel: nat)
    returns (k: nat)
    requires st.While? && Accepted(c.names.Keys, loop, w.isVoid, st)
    requires UniqueNames(B) && TargetsPlaced(B, w) && Ready(I, env, B, c, LowerStatement(w, c, st), pc)
    ensures EndsAs(I, B, w, pc, s, k, fuel, pc + |LowerStatement(w, c, st).nodes|,
                   Exec(I, env, true, st, s.memory, fuel))
    decreases fuel, st, 1
  {
    var E := WhileEntry(w, c, st);
    WhileForm(w, c, st);
    WhileMeans(I, env, st, s.memory, fuel);
    k := EntryRuns(I, env, B, E, pc, s, fuel);
  }

  function WhileEntry(w: Surroundings, c: Cursor, st: Statement): Entry
    requires st.While?
  {
    Entry(w, c.(nextLabel := c.nextLabel + 3), st.test, st.body, None,
          LabelName(w.function_, "while.body", c.nextLabel), LabelName(w.function_, "while.cont", c.nextLabel + 1),
          LabelName(w.function_, "while.end", c.nextLabel + 2))
  }

  lemma WhileForm(w: Surroundings, c: Cursor, st: Statement)
    requires st.While?
    ensures LowerStatement(w, c, st) == WhileEntry(w, c, st).Whole()
  {
  }

  lemma WhileMeans(I: Interpretation, env: map<string, int>, st: Statement, m: Memory, fuel: nat)
    requires st.While?
    ensures Exec(I, env, true, st, m, fuel) == Again(I, env, true, st.test, st.body, None, m, fuel)
  {
  }

  lemma {:induction false} DoWhileRuns(I: Interpretation, env: map<string, int>, B: seq<Node>, w: Surroundings,
                                       c: Cursor, st: Statement, loop: bool, pc: nat, s: State, fuel: nat)
    returns (k: nat)
    requires st.DoWhile? && Accepted(c.names.Keys, loop, w.isVoid, st)
    requires UniqueNames(B) && TargetsPlaced(B, w) && Ready(I, env, B, c, LowerStatement(w, c, st), pc)
    ensures EndsAs(I, B, w, pc, s, k, fuel, pc + |LowerStatement(w, c, st).nodes|,
                   Exec(I, env, true, st, s.memory, fuel))
    decreases fuel, st, 1
  {
    hide Located, CellsApart, Environment, UniqueNames, TargetsPlaced, LowerLoop, AcceptedAll, EndsAs, Iterate;
    var labelled := c.(nextLabel := c.nextLabel + 3);
    var L := Loop(w, labelled, st.test, st.body, None, LabelName(w.function_, "do.body", c.nextLabel),
                  LabelName(w.function_, "do.cont", c.nextLabel + 1), LabelName(w.function_, "do.end", c.nextLabel + 2));
    k := IterateRuns(I, env, B, L, pc, s, fuel);
  }

  lemma {:induction false} StatementRuns(I: Interpretation, env: map<string, int>, B: seq<Node>, w: Surroundings,
                                         c: Cursor, st: Statement, loop: bool, pc: nat, s: State, fuel: nat)
    returns (k: nat)
    requires Accepted(c.names.Keys, loop, w.isVoid, st) && HasTargets(w, loop)
    requires UniqueNames(B) && TargetsPlaced(B, w) && Ready(I, env, B, c, LowerStatement(w, c, st), pc)
    ensures EndsAs(I, B, w, pc, s, k, fuel, pc + |LowerStatement(w, c, st).nodes|,
                   Exec(I, env, true, st, s.memory, fuel))
    decreases fuel, st, 2
  {
    hide Ready, UniqueNames, TargetsPlaced, EndsAs, Exec, Accepted, HasTargets, LowerStatement;
    if st.If? {
      k := IfRuns(I, env, B, w, c, st, loop, pc, s, fuel);
    } else if st.While? {
      k := WhileRuns(I, env, B, w, c, st, loop, pc, s, fuel);
    } else if st.DoWhile? {
      k := DoWhileRuns(I, env, B, w, c, st, loop, pc, s, fuel);
    } else if st.For? {
      k := ForRuns(I, env, B, w, c, st, loop, pc, s, fuel);
    } else {
      k := SimpleRuns(I, env, B, w, c, st, loop, pc, s, fuel);
    }
  }

  lemma ForFits(w: Surroundings, c: Cursor, st: Statement, E: Entry, loop: bool)
    requires st.For? && Accepted(c.names.Keys, loop, w.isVoid, st) && HasTargets(w, loop)
    requires E.w == w && E.test == st.test && E.body == st.body && E.step == Some(st.step)
    requires E.c == LowerStatement(w, c, st.init).cursor
    ensures E.Fits() && Well(c, LowerStatement(w, c, st.init), Declared(st.init))
  {
    WellStatement(w, c, st.init, loop);
    assert E.c.names.Keys == c.names.Keys + Declared(st.init);
  }

  lemma ForReady(I: Interpretation, env: map<string, int>, B: seq<Node>, c: Cursor, begun: Emitted, E: Entry,
                 declared: set<string>, pc: nat)
    requires Well(c, begun, declared) && E.Fits() && E.c == begun.cursor
    requires Ready(I, env, B, c, E.Whole().After(begun), pc)
    ensures Ready(I, env, B, c, begun, pc) && Ready(I, env, B, E.c, E.Whole(), pc + |begun.nodes|)
  {
    hide Ready, Located, DeclaredAll;
    WellEntry(E.w, E.c, E.test, E.body, E.step, E.bodyLabel, E.continueLabel, E.endLabel);
    ReadyAfter(I, env, B, c, begun, E.Whole(), declared, DeclaredAll(E.body), pc);
  }

  lemma {:induction false} ForRuns(I: Interpretation, env: map<string, int>, B: seq<Node>, w: Surroundings,
                                   c: Cursor, st: Statement, loop: bool, pc: nat, s: State, fuel: nat)
    returns (k: nat)
    requires st.For? && Accepted(c.names.Keys, loop, w.isVoid, st) && HasTargets(w, loop)
    requires UniqueNames(B) && TargetsPlaced(B, w) && Ready(I, env, B, c, LowerStatement(w, c, st), pc)
    ensures EndsAs(I, B, w, pc, s, k, fuel, pc + |LowerStatement(w, c, st).nodes|,
                   Exec(I, env, true, st, s.memory, fuel))
    decreases fuel, st, 1
  {
    hide UniqueNames, TargetsPlaced, EndsAs, Exec, HasTargets, Located, CellsApart, Environment, LowerEntry;
    hide AcceptedAll, Well;
    var labelled := c.(nextLabel := c.nextLabel + 3);
    var begun := LowerStatement(w, labelled, st.init);
    var E := Entry(w, begun.cursor, st.test, st.body, Some(st.step), LabelName(w.function_, "for.body", c.nextLabel),
                   LabelName(w.function_, "for.cont", c.nextLabel + 1), LabelName(w.function_, "for.end", c.nextLabel + 2));
    ForFits(w, labelled, st, E, loop);
    ForReady(I, env, B, labelled, begun, E, Declared(st.init), pc);
    k := BegunRuns(I, env, B, w, labelled, st, E, loop, pc, s, fuel);
  }

  /** A `for` loop: its initialisation, then the loop entered through its test. */
  lemma {:induction false} BegunRuns(I: Interpretation, env: map<string, int>, B: seq<Node>, w: Surroundings,
                                     c: Cursor, st: Statement, E: Entry, loop: bool, pc: nat, s: State, fuel: nat)
    returns (k: nat)
    requires st.For? && Accepted(c.names.Keys, loop, w.isVoid, st.init) && HasTargets(w, loop) && E.Fits()
    requires E.w == w && E.test == st.test && E.body == st.body && E.step == Some(st.step)
    requires UniqueNames(B) && TargetsPlaced(B, w) && E.c == LowerStatement(w, c, st.init).cursor
    requires Ready(I, env, B, c, LowerStatement(w, c, st.init), pc)
    requires Ready(I, env, B, E.c, E.Whole(), pc + |LowerStatement(w, c, st.init).nodes|)
    ensures EndsAs(I, B, w, pc, s, k, fuel, pc + |LowerStatement(w, c, st.init).nodes| + |E.Whole().nodes|,
                   Exec(I, env, true, st, s.memory, fuel))
    decreases fuel, st, 0
  {
    hide UniqueNames, TargetsPlaced, Ready, HasTargets, Accepted, LowerStatement, Steps;
    k := StatementRuns(I, env, B, w, c, st.init, loop, pc, s, fuel);
    if Exec(I, env, true, st.init, s.memory, fuel).Normal? {
      k := EnteredRuns(I, env, B, E, pc, s, k, pc + |LowerStatement(w, c, st.init).nodes|,
                       Steps(I, B, Running(pc, s), k).state, fuel);
    }
  }

  lemma {:induction false} EnteredRuns(I: Interpretation, env: map<string, int>, B: seq<Node>, E: Entry,
                                       pc: nat, s: State, j: nat, at: nat, t: State, fuel: nat)
    returns (k: nat)
    requires E.Fits() && UniqueNames(B) && TargetsPlaced(B, E.w) && Ready(I, env, B, E.c, E.Whole(), at)
    requires Steps(I, B, Running(pc, s), j) == Running(at, t)
    ensures EndsAs(I, B, E.w, pc, s, k, fuel, at + |E.Whole().nodes|,
                   Again(I, env, true, E.test, E.body, E.step, t.memory, fuel))
    decreases fuel, E.body, 2
  {
    var more := EntryRuns(I, env, B, E, at, t, fuel);
    Onward(I, B, E.w, pc, s, j, at, t, more, fuel, fuel, at + |E.Whole().nodes|,
           Again(I, env, true, E.test, E.body, E.step, t.memory, fuel));
    k := j + more;
  }
}
