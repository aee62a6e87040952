/** The labels of lowered statements: each is placed once, and every jump goes to a placed label. */
module LabelShapes {
  import opened Options
  import opened Ssa
  import opened ReferenceCounts
  import opened Expressions
  import opened ExpressionLowering
  import opened ExpressionShapes
  import opened Statements
  import opened StatementShapes

  // ----- label names -----

  predicate AllDigits(s: string) {
    forall i :: 0 <= i < |s| ==> '0' <= s[i] <= '9'
  }

  lemma DigitIsDigit(d: nat)
    requires d < 10
    ensures '0' <= Digit(d) <= '9' && Digit(d) == (48 + d) as char
  {
  }

  lemma {:induction false} DecimalDigits(n: nat)
    ensures |Decimal(n)| > 0 && AllDigits(Decimal(n))
    decreases n
  {
    DigitIsDigit(n % 10);
    if n >= 10 {
      DecimalDigits(n / 10);
    }
  }

  lemma {:induction false} DecimalInjective(a: nat, b: nat)
    requires Decimal(a) == Decimal(b)
    ensures a == b
    decreases a
  {
    DigitIsDigit(a % 10);
    DigitIsDigit(b % 10);
    assert Decimal(a)[|Decimal(a)| - 1] == Digit(a % 10) && Decimal(b)[|Decimal(b)| - 1] == Digit(b % 10);
    if a >= 10 && b >= 10 {
      assert Decimal(a)[..|Decimal(a)| - 1] == Decimal(a / 10) && Decimal(b)[..|Decimal(b)| - 1] == Decimal(b / 10);
      DecimalInjective(a / 10, b / 10);
    } else if a >= 10 {
      DecimalDigits(a / 10);
    } else if b >= 10 {
      DecimalDigits(b / 10);
    }
  }

  lemma NoDotAfter(p: string, a: string, i: nat)
    requires AllDigits(a) && |p| < i < |p| + 1 + |a|
    ensures (p + "." + a)[i] != '.'
  {
    assert (p + "." + a)[i] == a[i - |p| - 1];
  }

  /** What follows the last dot of two equal names is equal. */
  lemma LastDot(p: string, a: string, q: string, b: string)
    requires p + "." + a == q + "." + b && AllDigits(a) && AllDigits(b)
    ensures a == b
  {
    var s, t := p + "." + a, q + "." + b;
    assert s[|p|] == '.' && t[|q|] == '.';
    if |p| < |q| {
      NoDotAfter(p, a, |q|);
    }
    if |q| < |p| {
      NoDotAfter(q, b, |p|);
    }
    assert a == s[|p| + 1..] && b == t[|q| + 1..];
  }

  /** Labels drawn at different counts have different names, whatever their hints. */
  lemma LabelNamesDiffer(function_: string, hint: string, a: nat, other: string, b: nat)
    requires LabelName(function_, hint, a) == LabelName(function_, other, b)
    ensures a == b
  {
    DecimalDigits(a);
    DecimalDigits(b);
    LastDot(".L" + function_ + "." + hint, Decimal(a), ".L" + function_ + "." + other, Decimal(b));
    DecimalInjective(a, b);
  }

  /** A name holds the function, the hint and a number. */
  lemma LabelNameHolds(function_: string, hint: string, n: nat)
    ensures var start, name := ".L" + function_ + "." + hint + ".", LabelName(function_, hint, n);
            start < name && AllDigits(name[|start|..])
  {
    DecimalDigits(n);
    assert LabelName(function_, hint, n)[|".L" + function_ + "." + hint + "."|..] == Decimal(n);
  }

  /** The count at which a label was drawn, or -1 for other names. */
  ghost function IndexOf(function_: string, name: string): (i: int)
    ensures i >= -1
  {
    if exists hint: string, n: nat :: name == LabelName(function_, hint, n) then
      var hint: string, n: nat :| name == LabelName(function_, hint, n);
      n
    else -1
  }

  lemma IndexOfLabel(function_: string, hint: string, n: nat)
    ensures IndexOf(function_, LabelName(function_, hint, n)) == n
  {
    var other: string, m: nat :| LabelName(function_, hint, n) == LabelName(function_, other, m)
                                 && IndexOf(function_, LabelName(function_, hint, n)) == m;
    LabelNamesDiffer(function_, hint, n, other, m);
  }

  // ----- the labels of some nodes -----

  function LabelSet(nodes: seq<Node>): set<string> {
    if nodes == [] then {}
    else
      LabelSet(nodes[..|nodes| - 1])
      + if nodes[|nodes| - 1].LabelNode? then {nodes[|nodes| - 1].name} else {}
  }

  function Mentioned(nodes: seq<Node>): set<string> {
    if nodes == [] then {}
    else
      Mentioned(nodes[..|nodes| - 1])
      + match nodes[|nodes| - 1] {
          case GotoNode(name) => {name}
          case BranchNode(_, trueLabel, falseLabel) => {trueLabel, falseLabel}
          case _ => {} }
  }

  /** Labels are placed once, and were drawn at counts in `X`. */
  ghost predicate Owned(function_: string, nodes: seq<Node>, X: set<int>)
    decreases |nodes|
  {
    if nodes == [] then true
    else
      var before, node := nodes[..|nodes| - 1], nodes[|nodes| - 1];
      if node.LabelNode? then
        IndexOf(function_, node.name) in X && Owned(function_, before, X - {IndexOf(function_, node.name)})
      else Owned(function_, before, X)
  }

  lemma {:induction false} LabelsConcat(a: seq<Node>, b: seq<Node>)
    ensures LabelSet(a + b) == LabelSet(a) + LabelSet(b)
    ensures Mentioned(a + b) == Mentioned(a) + Mentioned(b)
    decreases |b|
  {
    if b == [] {
      assert a + b == a;
    } else {
      assert (a + b)[..|a + b| - 1] == a + b[..|b| - 1];
      LabelsConcat(a, b[..|b| - 1]);
    }
  }

  lemma {:induction false} OwnedWider(function_: string, nodes: seq<Node>, X: set<int>, Y: set<int>)
    requires Owned(function_, nodes, X) && X <= Y
    ensures Owned(function_, nodes, Y)
    decreases |nodes|
  {
    if nodes != [] {
      var before, node := nodes[..|nodes| - 1], nodes[|nodes| - 1];
      if node.LabelNode? {
        var i := IndexOf(function_, node.name);
        OwnedWider(function_, before, X - {i}, Y - {i});
      } else {
        OwnedWider(function_, before, X, Y);
      }
    }
  }

  lemma {:induction false} OwnedConcat(function_: string, a: seq<Node>, b: seq<Node>, X: set<int>, Y: set<int>)
    requires Owned(function_, a, X) && Owned(function_, b, Y) && X !! Y
    ensures Owned(function_, a + b, X + Y)
    decreases |b|
  {
    if b == [] {
      assert a + b == a;
      OwnedWider(function_, a, X, X + Y);
    } else {
      var before, node := b[..|b| - 1], b[|b| - 1];
      assert (a + b)[..|a + b| - 1] == a + before;
      if node.LabelNode? {
        var i := IndexOf(function_, node.name);
        OwnedConcat(function_, a, before, X, Y - {i});
        assert X + (Y - {i}) == X + Y - {i};
      } else {
        OwnedConcat(function_, a, before, X, Y);
      }
    }
  }

  lemma {:induction false} OwnedMembers(function_: string, nodes: seq<Node>, X: set<int>, i: nat)
    requires Owned(function_, nodes, X) && i < |nodes| && nodes[i].LabelNode?
    ensures IndexOf(function_, nodes[i].name) in X && nodes[i].name in LabelSet(nodes)
    decreases |nodes|
  {
    var before, node := nodes[..|nodes| - 1], nodes[|nodes| - 1];
    if i < |nodes| - 1 {
      OwnedMembers(function_, before, if node.LabelNode? then X - {IndexOf(function_, node.name)} else X, i);
    }
  }

  lemma {:induction false} OwnedDistinct(function_: string, nodes: seq<Node>, X: set<int>, i: nat, j: nat)
    requires Owned(function_, nodes, X) && i < j < |nodes| && nodes[i].LabelNode? && nodes[j].LabelNode?
    ensures nodes[i].name != nodes[j].name
    decreases |nodes|
  {
    var before, node := nodes[..|nodes| - 1], nodes[|nodes| - 1];
    var Y := if node.LabelNode? then X - {IndexOf(function_, node.name)} else X;
    if j < |nodes| - 1 {
      OwnedDistinct(function_, before, Y, i, j);
    } else {
      OwnedMembers(function_, before, Y, i);
    }
  }

  lemma OwnedUnique(function_: string, nodes: seq<Node>, X: set<int>)
    requires Owned(function_, nodes, X)
    ensures UniqueNames(nodes)
  {
    forall i, j | 0 <= i < j < |nodes| && nodes[i].LabelNode? && nodes[j].LabelNode?
      ensures nodes[i].name != nodes[j].name
    {
      OwnedDistinct(function_, nodes, X, i, j);
    }
  }

  lemma {:induction false} LabelSetPlaced(nodes: seq<Node>, name: string)
    ensures name in LabelSet(nodes) <==> HasName(nodes, name)
    decreases |nodes|
  {
    if nodes != [] {
      LabelSetPlaced(nodes[..|nodes| - 1], name);
      assert nodes == nodes[..|nodes| - 1] + [nodes[|nodes| - 1]];
    }
  }

  lemma {:induction false} MentionedNames(nodes: seq<Node>, i: nat, k: nat)
    requires i < |nodes| && k < |NamesOf(nodes[i])|
    ensures NamesOf(nodes[i])[k] in Mentioned(nodes) + LabelSet(nodes)
    decreases |nodes|
  {
    if i < |nodes| - 1 {
      MentionedNames(nodes[..|nodes| - 1], i, k);
    }
  }

  // ----- the labels of statements -----

  function Range(lo: int, hi: int): (r: set<int>)
    ensures forall i :: i in r <==> lo <= i < hi
    decreases hi - lo
  {
    if hi <= lo then {} else Range(lo, hi - 1) + {hi - 1}
  }

  /** The labels surrounding loops offer. */
  function JumpNames(jumps: seq<JumpTarget>): set<string> {
    if jumps == [] then {}
    else
      var last := jumps[|jumps| - 1];
      JumpNames(jumps[..|jumps| - 1]) + {last.breakLabel}
      + if last.continueLabel.Some? then {last.continueLabel.value} else {}
  }

  /** The labels placed are new, and jumps go to them or to labels from outside. */
  ghost predicate Labelled(function_: string, outside: set<string>, c: Cursor, l: Emitted) {
    c.nextLabel <= l.cursor.nextLabel && Owned(function_, l.nodes, Range(c.nextLabel, l.cursor.nextLabel))
    && Mentioned(l.nodes) <= LabelSet(l.nodes) + outside
  }

  lemma LabelledAfter(function_: string, outside: set<string>, c: Cursor, a: Emitted, b: Emitted)
    requires Labelled(function_, outside, c, a) && Labelled(function_, outside, a.cursor, b)
    ensures Labelled(function_, outside, c, b.After(a))
  {
    var X, Y := Range(c.nextLabel, a.cursor.nextLabel), Range(a.cursor.nextLabel, b.cursor.nextLabel);
    OwnedConcat(function_, a.nodes, b.nodes, X, Y);
    LabelsConcat(a.nodes, b.nodes);
    assert X + Y == Range(c.nextLabel, b.cursor.nextLabel);
  }

  /** Nodes without labels or jumps. */
  lemma LabelledPlain(function_: string, outside: set<string>, c: Cursor, l: Emitted)
    requires l.cursor.nextLabel == c.nextLabel
    requires forall i :: 0 <= i < |l.nodes| ==> !l.nodes[i].LabelNode? && !l.nodes[i].GotoNode? && !l.nodes[i].BranchNode?
    ensures Labelled(function_, outside, c, l)
  {
    PlainHasNoLabels(function_, l.nodes);
    assert Range(c.nextLabel, c.nextLabel) == {};
  }

  lemma {:induction false} PlainHasNoLabels(function_: string, nodes: seq<Node>)
    requires forall i :: 0 <= i < |nodes| ==> !nodes[i].LabelNode? && !nodes[i].GotoNode? && !nodes[i].BranchNode?
    ensures LabelSet(nodes) == {} && Mentioned(nodes) == {} && Owned(function_, nodes, {})
    decreases |nodes|
  {
    if nodes != [] {
      PlainHasNoLabels(function_, nodes[..|nodes| - 1]);
    }
  }

  lemma OneLabel(function_: string, label_: string)
    ensures LabelSet([LabelNode(label_)]) == {label_} && Mentioned([LabelNode(label_)]) == {}
    ensures Owned(function_, [LabelNode(label_)], {IndexOf(function_, label_)})
  {
    assert [LabelNode(label_)][..0] == [];
  }

  lemma OneJump(function_: string, target: string)
    ensures LabelSet([GotoNode(target)]) == {} && Mentioned([GotoNode(target)]) == {target}
    ensures Owned(function_, [GotoNode(target)], {})
  {
    assert [GotoNode(target)][..0] == [];
  }

  /** A test mentions its two labels and places none. */
  lemma TestLabels(function_: string, c: Cursor, test: Option<Expression>, trueLabel: string, falseLabel: string)
    requires FineTest(c.names.Keys, test)
    ensures var first := LowerBranch(c, test, trueLabel, falseLabel).0;
            first.cursor.nextLabel == c.nextLabel && LabelSet(first.nodes) == {}
            && Mentioned(first.nodes) <= {trueLabel, falseLabel} && Owned(function_, first.nodes, {})
  {
    if test.None? {
      OneJump(function_, trueLabel);
      assert [] + [GotoNode(trueLabel)] == [GotoNode(trueLabel)];
    } else {
      var l := Loaded(c.names, Test(test.value), c.next);
      TestIsPlain(c.names, test.value, c.next);
      var nodes := l.nodes + [BranchNode(l.result.value, trueLabel, falseLabel)];
      PlainHasNoLabels(function_, l.nodes);
      assert nodes[..|nodes| - 1] == l.nodes;
    }
  }

  lemma TestIsPlain(names: map<string, nat>, condition: Expression, next: nat)
    requires FineTest(names.Keys, Some(condition))
    ensures !condition.Missing?
    ensures var l := Loaded(names, Test(condition), next);
            l.result.Some? && forall i :: 0 <= i < |l.nodes| ==>
              !l.nodes[i].LabelNode? && !l.nodes[i].GotoNode? && !l.nodes[i].BranchNode?
  {
    var a, b := TestShape(names, condition, next);
    var l := Loaded(names, Test(condition), next);
    PlainBeforeLast(b.After(a).nodes, l.nodes[|l.nodes| - 1]);
  }

  lemma PlainBeforeLast(nodes: seq<Node>, last: Node)
    requires AllComputing(nodes) && last.CompareNode?
    ensures forall i :: 0 <= i < |nodes + [last]| ==>
              !(nodes + [last])[i].LabelNode? && !(nodes + [last])[i].GotoNode? && !(nodes + [last])[i].BranchNode?
  {
  }

  // ----- the labels of loops -----

  /** The labels of a loop or an `if` are three different ones, none of them drawn later. */
  ghost predicate Apart(function_: string, a: string, b: string, c: string, from: nat) {
    IndexOf(function_, a) != IndexOf(function_, b) && IndexOf(function_, b) != IndexOf(function_, c)
    && IndexOf(function_, a) != IndexOf(function_, c)
    && IndexOf(function_, a) < from && IndexOf(function_, b) < from && IndexOf(function_, c) < from
  }

  function Three(a: int, b: int, c: int, lo: nat, hi: nat): set<int> {
    {a, b, c} + Range(lo, hi)
  }

  /** A label, a part with labels from a range, a label, a test, a label. */
  lemma LoopOwned(function_: string, a: string, inner: seq<Node>, b: string, test: seq<Node>, c: string, lo: nat, hi: nat)
    requires Apart(function_, a, b, c, lo) && Owned(function_, inner, Range(lo, hi)) && Owned(function_, test, {})
    ensures Owned(function_, [LabelNode(a)] + inner + [LabelNode(b)] + test + [LabelNode(c)],
                  Three(IndexOf(function_, a), IndexOf(function_, b), IndexOf(function_, c), lo, hi))
  {
    var i, j, k := IndexOf(function_, a), IndexOf(function_, b), IndexOf(function_, c);
    OneLabel(function_, a);
    OneLabel(function_, b);
    OneLabel(function_, c);
    OwnedConcat(function_, [LabelNode(a)], inner, {i}, Range(lo, hi));
    OwnedConcat(function_, [LabelNode(a)] + inner, [LabelNode(b)], {i} + Range(lo, hi), {j});
    OwnedConcat(function_, [LabelNode(a)] + inner + [LabelNode(b)], test, {i} + Range(lo, hi) + {j}, {});
    OwnedConcat(function_, [LabelNode(a)] + inner + [LabelNode(b)] + test, [LabelNode(c)],
                {i} + Range(lo, hi) + {j} + {}, {k});
    assert {i} + Range(lo, hi) + {j} + {} + {k} == Three(i, j, k, lo, hi);
  }

  lemma LoopMentions(a: string, inner: seq<Node>, b: string, test: seq<Node>, c: string, outside: set<string>)
    requires Mentioned(inner) <= LabelSet(inner) + (outside + {b, c}) && Mentioned(test) <= {a, c}
    ensures var nodes := [LabelNode(a)] + inner + [LabelNode(b)] + test + [LabelNode(c)];
            Mentioned(nodes) <= LabelSet(nodes) + outside && {a, c} <= LabelSet(nodes)
  {
    OneLabel("", a);
    OneLabel("", b);
    OneLabel("", c);
    LabelsConcat([LabelNode(a)], inner);
    LabelsConcat([LabelNode(a)] + inner, [LabelNode(b)]);
    LabelsConcat([LabelNode(a)] + inner + [LabelNode(b)], test);
    LabelsConcat([LabelNode(a)] + inner + [LabelNode(b)] + test, [LabelNode(c)]);
  }
}
