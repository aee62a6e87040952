/** Initialising arrays and aggregate classes from lists in braces, where braces around parts of an
    object may be left out and the parts take what they need from one list of clauses. */
module AggregateInitialisation {
  import opened Arithmetic
  import opened Options

  /** Scalars hold values of a range; classes are aggregates, with the offsets of their fields. */
  datatype Type = Scalar(size: nat, low: int, high: int) | Array(element: Type, count: nat) | Class(size: nat, fields: seq<Field>)
  datatype Field = Field(kind: Type, offset: nat, default: Option<Clause>)
  datatype Clause = Item(value: int) | Braces(clauses: seq<Clause>)

  /** What initialisation does, in order. */
  datatype Effect = Stored(offset: nat, value: int) | Reported

  function Size(t: Type): nat {
    match t
    case Scalar(size, _, _) => size
    case Array(element, count) => count * Size(element)
    case Class(size, _) => size
  }

  // ----- what is stored and reported -----

  /** A value is stored if it fits; an element of an aggregate that does not fit is an error. */
  function StoreItem(t: Type, a: nat, value: int, checked: bool): seq<Effect>
    requires t.Scalar?
  {
    if checked && !(t.low <= value <= t.high) then [Reported] else [Stored(a, value)]
  }

  function ExplicitScalar(t: Type, a: nat, c: Clause, checked: bool): seq<Effect>
    requires t.Scalar?
  {
    if c.Item? then StoreItem(t, a, c.value, checked)
    else if c.clauses == [] then [Stored(a, 0)]
    else if |c.clauses| == 1 && c.clauses[0].Item? then StoreItem(t, a, c.clauses[0].value, true)
    else [Reported]
  }

  /** An object with an initialiser of its own. */
  function Explicit(t: Type, a: nat, c: Clause, checked: bool): seq<Effect>
    decreases t, 2, 0
  {
    match t
    case Scalar(_, _, _) => ExplicitScalar(t, a, c, checked)
    case Array(_, count) =>
      if c.Item? || |c.clauses| > count then [Reported] else ExplicitElements(t, a, c.clauses, 0)
    case Class(_, _) => if c.Item? then [Reported] else Positional(t, a, c.clauses)
  }

  function ElementAt(t: Type, a: nat, i: nat): nat
    requires t.Array?
  {
    a + i * Size(t.element)
  }

  function ExplicitElements(t: Type, a: nat, list: seq<Clause>, i: nat): seq<Effect>
    requires t.Array? && i <= t.count
    decreases t, 1, t.count - i
  {
    if i == t.count then []
    else
      (if i < |list| then Explicit(t.element, ElementAt(t, a, i), list[i], true) else Empty(t.element, ElementAt(t, a, i)))
      + ExplicitElements(t, a, list, i + 1)
  }

  /** An object that is initialised from empty braces. */
  function Empty(t: Type, a: nat): seq<Effect>
    decreases t, 2, 0
  {
    match t
    case Scalar(_, _, _) => [Stored(a, 0)]
    case Array(_, _) => EmptyElements(t, a, 0)
    case Class(_, _) => EmptyFields(t, a, 0)
  }

  function EmptyElements(t: Type, a: nat, i: nat): seq<Effect>
    requires t.Array? && i <= t.count
    decreases t, 1, t.count - i
  {
    if i == t.count then [] else Empty(t.element, ElementAt(t, a, i)) + EmptyElements(t, a, i + 1)
  }

  function EmptyFields(t: Type, a: nat, i: nat): seq<Effect>
    requires t.Class? && i <= |t.fields|
    decreases t, 1, |t.fields| - i
  {
    if i == |t.fields| then []
    else Omitted(t.fields[i].kind, a + t.fields[i].offset, t.fields[i].default) + EmptyFields(t, a, i + 1)
  }

  /** An object without a clause takes its default, or empty braces. */
  function Omitted(t: Type, a: nat, default: Option<Clause>): seq<Effect>
    decreases t, 3, 0
  {
    if default.Some? then Explicit(t, a, default.value, false) else Empty(t, a)
  }

  /** What was done, and the clause that is next. */
  datatype Step = Step(effects: seq<Effect>, next: nat)

  /** A part of an object takes what it needs of the clauses from `next`. */
  function Subobject(t: Type, a: nat, default: Option<Clause>, clauses: seq<Clause>, next: nat): Step
    decreases t, 4, 0
  {
    if next >= |clauses| then Step(Omitted(t, a, default), next)
    else if clauses[next].Braces? then Step(Explicit(t, a, clauses[next], true), next + 1)
    else if t.Array? then SubElements(t, a, clauses, next, 0)
    else if t.Class? then
      if t.fields == [] then Step(Empty(t, a), next) else SubFields(t, a, clauses, next, 0)
    else Step(Explicit(t, a, clauses[next], true), next + 1)
  }

  function SubElements(t: Type, a: nat, clauses: seq<Clause>, next: nat, i: nat): Step
    requires t.Array? && i <= t.count
    decreases t, 1, t.count - i
  {
    if i == t.count then Step([], next)
    else
      var first := Subobject(t.element, ElementAt(t, a, i), None, clauses, next);
      var rest := SubElements(t, a, clauses, first.next, i + 1);
      Step(first.effects + rest.effects, rest.next)
  }

  function SubFields(t: Type, a: nat, clauses: seq<Clause>, next: nat, i: nat): Step
    requires t.Class? && i <= |t.fields|
    decreases t, 1, |t.fields| - i
  {
    if i == |t.fields| then Step([], next)
    else
      var f := t.fields[i];
      var first := Subobject(f.kind, a + f.offset, f.default, clauses, next);
      var rest := SubFields(t, a, clauses, first.next, i + 1);
      Step(first.effects + rest.effects, rest.next)
  }

  /** A class takes its clauses, and reports those that are left. */
  function Positional(t: Type, a: nat, clauses: seq<Clause>): seq<Effect>
    requires t.Class?
    decreases t, 1, |t.fields| + 1
  {
    var step := SubFields(t, a, clauses, 0, 0);
    step.effects + (if step.next < |clauses| then [Reported] else [])
  }

  // ----- every part is initialised once -----

  /** The scalars of an object, in order. */
  function Leaves(t: Type, a: nat): seq<nat>
    decreases t, 2, 0
  {
    match t
    case Scalar(_, _, _) => [a]
    case Array(_, _) => ElementLeaves(t, a, 0)
    case Class(_, _) => FieldLeaves(t, a, 0)
  }

  function ElementLeaves(t: Type, a: nat, i: nat): seq<nat>
    requires t.Array? && i <= t.count
    decreases t, 1, t.count - i
  {
    if i == t.count then [] else Leaves(t.element, ElementAt(t, a, i)) + ElementLeaves(t, a, i + 1)
  }

  function FieldLeaves(t: Type, a: nat, i: nat): seq<nat>
    requires t.Class? && i <= |t.fields|
    decreases t, 1, |t.fields| - i
  {
    if i == |t.fields| then [] else Leaves(t.fields[i].kind, a + t.fields[i].offset) + FieldLeaves(t, a, i + 1)
  }

  function Offsets(effects: seq<Effect>): seq<nat> {
    if effects == [] then []
    else (if effects[0].Stored? then [effects[0].offset] else []) + Offsets(effects[1..])
  }

  lemma {:induction false} OffsetsAppend(e: seq<Effect>, f: seq<Effect>)
    ensures Offsets(e + f) == Offsets(e) + Offsets(f)
    decreases |e|
  {
    if e == [] {
      assert e + f == f;
    } else {
      assert (e + f)[1..] == e[1..] + f && (e + f)[0] == e[0];
      OffsetsAppend(e[1..], f);
      var first := if e[0].Stored? then [e[0].offset] else [];
      assert first + (Offsets(e[1..]) + Offsets(f)) == first + Offsets(e[1..]) + Offsets(f);
    }
  }

  predicate Clean(effects: seq<Effect>) {
    Reported !in effects
  }

  /** These effects store to these places once each, in order, unless something is reported. */
  predicate Covers(effects: seq<Effect>, leaves: seq<nat>) {
    Clean(effects) ==> Offsets(effects) == leaves
  }

  lemma CoversAppend(e: seq<Effect>, f: seq<Effect>, k: seq<nat>, l: seq<nat>)
    requires Covers(e, k) && Covers(f, l)
    ensures Covers(e + f, k + l)
  {
    OffsetsAppend(e, f);
  }

  lemma {:induction false} ExplicitCovers(t: Type, a: nat, c: Clause, checked: bool)
    ensures Covers(Explicit(t, a, c, checked), Leaves(t, a))
    decreases t, 2, 0
  {
    match t
    case Scalar(_, _, _) =>
    case Array(_, count) =>
      if c.Braces? && |c.clauses| <= count {
        ExplicitElementsCover(t, a, c.clauses, 0);
      }
    case Class(_, _) =>
      if c.Braces? {
        PositionalCovers(t, a, c.clauses);
      }
  }

  lemma {:induction false} ExplicitElementsCover(t: Type, a: nat, list: seq<Clause>, i: nat)
    requires t.Array? && i <= t.count
    ensures Covers(ExplicitElements(t, a, list, i), ElementLeaves(t, a, i))
    decreases t, 1, t.count - i
  {
    hide Explicit, Empty, Leaves, ElementAt, Covers;
    if i == t.count {
      NothingCovered();
    } else {
      var at := ElementAt(t, a, i);
      if i < |list| {
        ExplicitCovers(t.element, at, list[i], true);
      } else {
        EmptyCovers(t.element, at);
      }
      ExplicitElementsCover(t, a, list, i + 1);
      CoversAppend(if i < |list| then Explicit(t.element, at, list[i], true) else Empty(t.element, at),
                   ExplicitElements(t, a, list, i + 1), Leaves(t.element, at), ElementLeaves(t, a, i + 1));
    }
  }

  lemma NothingCovered()
    ensures Covers([], [])
  {
  }

  lemma {:induction false} EmptyCovers(t: Type, a: nat)
    ensures Covers(Empty(t, a), Leaves(t, a))
    decreases t, 2, 0
  {
    match t
    case Scalar(_, _, _) =>
    case Array(_, _) => EmptyElementsCover(t, a, 0);
    case Class(_, _) => EmptyFieldsCover(t, a, 0);
  }

  lemma {:induction false} EmptyElementsCover(t: Type, a: nat, i: nat)
    requires t.Array? && i <= t.count
    ensures Covers(EmptyElements(t, a, i), ElementLeaves(t, a, i))
    decreases t, 1, t.count - i
  {
    hide Empty, Leaves, ElementAt, Covers;
    if i == t.count {
      NothingCovered();
    } else {
      var at := ElementAt(t, a, i);
      EmptyCovers(t.element, at);
      EmptyElementsCover(t, a, i + 1);
      CoversAppend(Empty(t.element, at), EmptyElements(t, a, i + 1), Leaves(t.element, at), ElementLeaves(t, a, i + 1));
    }
  }

  lemma {:induction false} EmptyFieldsCover(t: Type, a: nat, i: nat)
    requires t.Class? && i <= |t.fields|
    ensures Covers(EmptyFields(t, a, i), FieldLeaves(t, a, i))
    decreases t, 1, |t.fields| - i
  {
    hide Omitted, Leaves, Covers;
    if i == |t.fields| {
      NothingCovered();
    } else {
      var f := t.fields[i];
      OmittedCovers(f.kind, a + f.offset, f.default);
      EmptyFieldsCover(t, a, i + 1);
      CoversAppend(Omitted(f.kind, a + f.offset, f.default), EmptyFields(t, a, i + 1), Leaves(f.kind, a + f.offset),
                   FieldLeaves(t, a, i + 1));
    }
  }

  lemma {:induction false} OmittedCovers(t: Type, a: nat, default: Option<Clause>)
    ensures Covers(Omitted(t, a, default), Leaves(t, a))
    decreases t, 3, 0
  {
    if default.Some? {
      ExplicitCovers(t, a, default.value, false);
    } else {
      EmptyCovers(t, a);
    }
  }

  lemma {:induction false} SubobjectCovers(t: Type, a: nat, default: Option<Clause>, clauses: seq<Clause>, next: nat)
    ensures Covers(Subobject(t, a, default, clauses, next).effects, Leaves(t, a))
    decreases t, 4, 0
  {
    hide Covers, Explicit, Empty, Omitted, SubElements, SubFields;
    if next >= |clauses| {
      OmittedCovers(t, a, default);
    } else if clauses[next].Braces? || t.Scalar? {
      ExplicitCovers(t, a, clauses[next], true);
    } else if t.Array? {
      ElementsCover(t, a, clauses, next, 0);
    } else if t.fields == [] {
      EmptyCovers(t, a);
    } else {
      SubFieldsCover(t, a, clauses, next, 0);
    }
  }

  lemma {:induction false} ElementsCover(t: Type, a: nat, clauses: seq<Clause>, next: nat, i: nat)
    requires t.Array? && i <= t.count
    ensures Covers(SubElements(t, a, clauses, next, i).effects, ElementLeaves(t, a, i))
    decreases t, 1, t.count - i
  {
    hide Subobject, Leaves, ElementAt, Covers;
    if i == t.count {
      NothingCovered();
    } else {
      var at := ElementAt(t, a, i);
      var first := Subobject(t.element, at, None, clauses, next);
      SubobjectCovers(t.element, at, None, clauses, next);
      ElementsCover(t, a, clauses, first.next, i + 1);
      CoversAppend(first.effects, SubElements(t, a, clauses, first.next, i + 1).effects, Leaves(t.element, at),
                   ElementLeaves(t, a, i + 1));
    }
  }

  lemma {:induction false} SubFieldsCover(t: Type, a: nat, clauses: seq<Clause>, next: nat, i: nat)
    requires t.Class? && i <= |t.fields|
    ensures Covers(SubFields(t, a, clauses, next, i).effects, FieldLeaves(t, a, i))
    decreases t, 1, |t.fields| - i
  {
    hide Subobject, Leaves, Covers;
    if i == |t.fields| {
      NothingCovered();
    } else {
      var f := t.fields[i];
      var first := Subobject(f.kind, a + f.offset, f.default, clauses, next);
      SubobjectCovers(f.kind, a + f.offset, f.default, clauses, next);
      SubFieldsCover(t, a, clauses, first.next, i + 1);
      CoversAppend(first.effects, SubFields(t, a, clauses, first.next, i + 1).effects, Leaves(f.kind, a + f.offset),
                   FieldLeaves(t, a, i + 1));
    }
  }

  /** With excess, something is reported; without, the fields are covered. */
  lemma {:induction false} PositionalCovers(t: Type, a: nat, clauses: seq<Clause>)
    requires t.Class?
    ensures Covers(Positional(t, a, clauses), FieldLeaves(t, a, 0))
    decreases t, 1, |t.fields| + 1
  {
    hide SubFields, FieldLeaves;
    SubFieldsCover(t, a, clauses, 0, 0);
    var step := SubFields(t, a, clauses, 0, 0);
    if step.next < |clauses| {
      assert Positional(t, a, clauses)[|step.effects|] == Reported;
    } else {
      assert Positional(t, a, clauses) == step.effects;
    }
  }

  // ----- how much is taken -----

  predicate AllItems(clauses: seq<Clause>) {
    forall k :: 0 <= k < |clauses| ==> clauses[k].Item?
  }

  /** From a flat list, a part takes as many values as it has scalars, if there are so many. */
  lemma {:induction false} SubobjectTakes(t: Type, a: nat, default: Option<Clause>, clauses: seq<Clause>, next: nat)
    requires AllItems(clauses) && next <= |clauses|
    ensures Subobject(t, a, default, clauses, next).next == Min(|clauses|, next + |Leaves(t, a)|)
    decreases t, 4, 0
  {
    hide Explicit, Empty, Omitted, SubElements, SubFields, ElementLeaves, FieldLeaves;
    if next < |clauses| {
      assert clauses[next].Item?;
      if t.Array? {
        ElementsTake(t, a, clauses, next, 0);
      } else if t.Class? {
        FieldsTake(t, a, clauses, next, 0);
        if t.fields == [] {
          NoFields(t, a);
        }
      }
    }
  }

  lemma NoFields(t: Type, a: nat)
    requires t.Class? && t.fields == []
    ensures FieldLeaves(t, a, 0) == []
  {
  }

  lemma {:induction false} ElementsTake(t: Type, a: nat, clauses: seq<Clause>, next: nat, i: nat)
    requires AllItems(clauses) && next <= |clauses| && t.Array? && i <= t.count
    ensures SubElements(t, a, clauses, next, i).next == Min(|clauses|, next + |ElementLeaves(t, a, i)|)
    decreases t, 1, t.count - i
  {
    hide Subobject, Leaves, ElementAt, AllItems;
    if i < t.count {
      var first := Subobject(t.element, ElementAt(t, a, i), None, clauses, next);
      SubobjectTakes(t.element, ElementAt(t, a, i), None, clauses, next);
      ElementsTake(t, a, clauses, first.next, i + 1);
    }
  }

  lemma {:induction false} FieldsTake(t: Type, a: nat, clauses: seq<Clause>, next: nat, i: nat)
    requires AllItems(clauses) && next <= |clauses| && t.Class? && i <= |t.fields|
    ensures SubFields(t, a, clauses, next, i).next == Min(|clauses|, next + |FieldLeaves(t, a, i)|)
    decreases t, 1, |t.fields| - i
  {
    hide Subobject, Leaves, AllItems;
    if i < |t.fields| {
      var f := t.fields[i];
      var first := Subobject(f.kind, a + f.offset, f.default, clauses, next);
      SubobjectTakes(f.kind, a + f.offset, f.default, clauses, next);
      FieldsTake(t, a, clauses, first.next, i + 1);
    }
  }

  // ----- the fully braced list -----

  /** Clauses as they were given, in braces that were left out. */
  datatype Given = Own(clause: Clause) | Added(parts: seq<Given>)
  datatype FullStep = FullStep(given: Option<Given>, next: nat)
  datatype FullList = FullList(parts: seq<Given>, next: nat)

  function Full(t: Type, clauses: seq<Clause>, next: nat): FullStep
    decreases t, 2, 0
  {
    if next >= |clauses| then FullStep(None, next)
    else if clauses[next].Braces? || t.Scalar? then FullStep(Some(Own(clauses[next])), next + 1)
    else
      var list := if t.Array? then FullElements(t, clauses, next, 0) else FullFields(t, clauses, next, 0);
      FullStep(Some(Added(list.parts)), list.next)
  }

  function Before(first: Option<Given>, rest: seq<Given>): seq<Given> {
    if first.None? then rest else [first.value] + rest
  }

  function FullElements(t: Type, clauses: seq<Clause>, next: nat, i: nat): FullList
    requires t.Array? && i <= t.count
    decreases t, 1, t.count - i
  {
    if i == t.count then FullList([], next)
    else
      var first := Full(t.element, clauses, next);
      var rest := FullElements(t, clauses, first.next, i + 1);
      FullList(Before(first.given, rest.parts), rest.next)
  }

  function FullFields(t: Type, clauses: seq<Clause>, next: nat, i: nat): FullList
    requires t.Class? && i <= |t.fields|
    decreases t, 1, |t.fields| - i
  {
    if i == |t.fields| then FullList([], next)
    else
      var first := Full(t.fields[i].kind, clauses, next);
      var rest := FullFields(t, clauses, first.next, i + 1);
      FullList(Before(first.given, rest.parts), rest.next)
  }

  function ToClause(g: Given): Clause {
    match g
    case Own(clause) => clause
    case Added(parts) => Braces(ToClauses(parts))
  }

  function ToClauses(parts: seq<Given>): (c: seq<Clause>)
    ensures |c| == |parts|
  {
    if parts == [] then [] else [ToClause(parts[0])] + ToClauses(parts[1..])
  }

  /** Without the added braces. */
  function Erase(g: Given): seq<Clause> {
    match g
    case Own(clause) => [clause]
    case Added(parts) => EraseAll(parts)
  }

  function EraseAll(parts: seq<Given>): seq<Clause> {
    if parts == [] then [] else Erase(parts[0]) + EraseAll(parts[1..])
  }

  /** What the fully braced part was made of are the clauses up to the next one, each once and in order. */
  lemma {:induction false} FullIsTaken(t: Type, clauses: seq<Clause>, next: nat)
    requires next <= |clauses|
    ensures next <= Full(t, clauses, next).next <= |clauses|
    ensures (match Full(t, clauses, next).given case None => [] case Some(g) => Erase(g))
            == clauses[next..Full(t, clauses, next).next]
    decreases t, 2, 0
  {
    if next < |clauses| && !clauses[next].Braces? && !t.Scalar? {
      hide FullElements, FullFields, EraseAll;
      if t.Array? {
        ElementsAreTaken(t, clauses, next, 0);
      } else {
        FieldsAreTaken(t, clauses, next, 0);
      }
    }
  }

  lemma EraseBefore(first: Option<Given>, rest: seq<Given>)
    ensures EraseAll(Before(first, rest)) == (match first case None => [] case Some(g) => Erase(g)) + EraseAll(rest)
  {
    if first.Some? {
      assert Before(first, rest)[1..] == rest;
    }
  }

  lemma {:induction false} ElementsAreTaken(t: Type, clauses: seq<Clause>, next: nat, i: nat)
    requires next <= |clauses| && t.Array? && i <= t.count
    ensures next <= FullElements(t, clauses, next, i).next <= |clauses|
    ensures EraseAll(FullElements(t, clauses, next, i).parts) == clauses[next..FullElements(t, clauses, next, i).next]
    decreases t, 1, t.count - i
  {
    hide Full, Before, Erase;
    if i < t.count {
      var first := Full(t.element, clauses, next);
      FullIsTaken(t.element, clauses, next);
      ElementsAreTaken(t, clauses, first.next, i + 1);
      var rest := FullElements(t, clauses, first.next, i + 1);
      EraseBefore(first.given, rest.parts);
      assert clauses[next..first.next] + clauses[first.next..rest.next] == clauses[next..rest.next];
    }
  }

  lemma {:induction false} FieldsAreTaken(t: Type, clauses: seq<Clause>, next: nat, i: nat)
    requires next <= |clauses| && t.Class? && i <= |t.fields|
    ensures next <= FullFields(t, clauses, next, i).next <= |clauses|
    ensures EraseAll(FullFields(t, clauses, next, i).parts) == clauses[next..FullFields(t, clauses, next, i).next]
    decreases t, 1, |t.fields| - i
  {
    hide Full, Before, Erase;
    if i < |t.fields| {
      var first := Full(t.fields[i].kind, clauses, next);
      FullIsTaken(t.fields[i].kind, clauses, next);
      FieldsAreTaken(t, clauses, first.next, i + 1);
      var rest := FullFields(t, clauses, first.next, i + 1);
      EraseBefore(first.given, rest.parts);
      assert clauses[next..first.next] + clauses[first.next..rest.next] == clauses[next..rest.next];
    }
  }

  // ----- leaving braces out changes nothing -----

  /** What a part does with its fully braced clause, or without one. */
  function Alone(t: Type, a: nat, default: Option<Clause>, given: Option<Given>): seq<Effect> {
    if given.None? then Omitted(t, a, default) else Explicit(t, a, ToClause(given.value), true)
  }

  /** From part `i` on, this list holds these clauses, or it ended before. */
  predicate Holds(list: seq<Clause>, i: nat, parts: seq<Given>) {
    if parts == [] then |list| <= i else i <= |list| && list[i..] == ToClauses(parts)
  }

  lemma HoldsFirst(list: seq<Clause>, i: nat, first: Given, rest: seq<Given>)
    requires Holds(list, i, [first] + rest)
    ensures i < |list| && list[i] == ToClause(first) && Holds(list, i + 1, rest)
  {
    assert ([first] + rest)[1..] == rest;
    assert list[i..][0] == list[i];
    assert list[i + 1..] == list[i..][1..];
  }

  lemma {:induction false} SameMeaning(t: Type, a: nat, default: Option<Clause>, clauses: seq<Clause>, next: nat)
    ensures var full := Full(t, clauses, next);
            Subobject(t, a, default, clauses, next) == Step(Alone(t, a, default, full.given), full.next)
    decreases t, 4, 0
  {
    hide Omitted, FullElements, FullFields, SubElements, SubFields, ToClauses;
    if next < |clauses| && !clauses[next].Braces? && !t.Scalar? {
      if t.Array? {
        var list := FullElements(t, clauses, next, 0);
        WholeHolds(list.parts);
        ElementsAtMost(t, clauses, next, 0);
        ElementsSame(t, a, clauses, next, 0, ToClauses(list.parts));
      } else {
        var list := FullFields(t, clauses, next, 0);
        WholeHolds(list.parts);
        FieldsSame(t, a, clauses, next, 0, ToClauses(list.parts));
        if t.fields == [] {
          NoParts(t, a, clauses, next);
        }
        assert Positional(t, a, ToClauses(list.parts)) == SubFields(t, a, ToClauses(list.parts), 0, 0).effects;
      }
    }
  }

  lemma WholeHolds(parts: seq<Given>)
    ensures Holds(ToClauses(parts), 0, parts)
  {
    assert ToClauses(parts)[0..] == ToClauses(parts);
  }

  lemma NoParts(t: Type, a: nat, clauses: seq<Clause>, next: nat)
    requires t.Class? && t.fields == []
    ensures FullFields(t, clauses, next, 0) == FullList([], next) && EmptyFields(t, a, 0) == []
    ensures SubFields(t, a, ToClauses([]), 0, 0).effects == []
  {
  }

  lemma {:induction false} ElementsAtMost(t: Type, clauses: seq<Clause>, next: nat, i: nat)
    requires t.Array? && i <= t.count
    ensures |FullElements(t, clauses, next, i).parts| <= t.count - i
    decreases t.count - i
  {
    hide Full;
    if i < t.count {
      ElementsAtMost(t, clauses, Full(t.element, clauses, next).next, i + 1);
    }
  }

  /** Without clauses left, nothing more is taken. */
  lemma {:induction false} NothingLeft(t: Type, clauses: seq<Clause>, next: nat, i: nat)
    requires t.Array? && i <= t.count && next >= |clauses|
    ensures FullElements(t, clauses, next, i) == FullList([], next)
    decreases t.count - i
  {
    if i < t.count {
      NothingLeft(t, clauses, next, i + 1);
    }
  }

  lemma {:induction false} NoFieldsLeft(t: Type, clauses: seq<Clause>, next: nat, i: nat)
    requires t.Class? && i <= |t.fields| && next >= |clauses|
    ensures FullFields(t, clauses, next, i) == FullList([], next)
    decreases |t.fields| - i
  {
    if i < |t.fields| {
      NoFieldsLeft(t, clauses, next, i + 1);
    }
  }

  lemma FullGives(t: Type, clauses: seq<Clause>, next: nat)
    ensures Full(t, clauses, next).given.None? <==> next >= |clauses|
    ensures next >= |clauses| ==> Full(t, clauses, next).next == next
    ensures next < |clauses| && ToClause(Full(t, clauses, next).given.value).Item? ==> t.Scalar?
  {
    hide FullElements, FullFields, ToClauses;
  }

  lemma {:induction false} ElementsSame(t: Type, a: nat, clauses: seq<Clause>, next: nat, i: nat, list: seq<Clause>)
    requires t.Array? && i <= t.count && Holds(list, i, FullElements(t, clauses, next, i).parts)
    ensures SubElements(t, a, clauses, next, i)
            == Step(ExplicitElements(t, a, list, i), FullElements(t, clauses, next, i).next)
    decreases t, 1, t.count - i
  {
    hide Subobject, Explicit, Empty, Full, ToClause, ElementAt, Holds;
    if i < t.count {
      var first := Full(t.element, clauses, next);
      var rest := FullElements(t, clauses, first.next, i + 1);
      SameMeaning(t.element, ElementAt(t, a, i), None, clauses, next);
      FullGives(t.element, clauses, next);
      if first.given.None? {
        NothingLeft(t, clauses, next, i + 1);
        HoldsNothing(list, i);
      } else {
        HoldsFirst(list, i, first.given.value, rest.parts);
      }
      ElementsSame(t, a, clauses, first.next, i + 1, list);
    }
  }

  lemma HoldsNothing(list: seq<Clause>, i: nat)
    requires Holds(list, i, [])
    ensures |list| <= i && Holds(list, i + 1, [])
  {
  }

  /** A field takes exactly one clause of the fully braced list. */
  lemma FieldAlone(t: Type, a: nat, default: Option<Clause>, list: seq<Clause>, i: nat)
    requires i < |list| && (list[i].Item? ==> t.Scalar?)
    ensures Subobject(t, a, default, list, i) == Step(Explicit(t, a, list[i], true), i + 1)
  {
    hide Explicit;
  }

  lemma FieldOmitted(t: Type, a: nat, default: Option<Clause>, list: seq<Clause>, next: nat)
    requires next >= |list|
    ensures Subobject(t, a, default, list, next) == Step(Omitted(t, a, default), next)
  {
    hide Omitted;
  }

  /** The cursor in the fully braced list: one clause for every field, until they end. */
  lemma {:induction false} FieldsSame(t: Type, a: nat, clauses: seq<Clause>, next: nat, i: nat, list: seq<Clause>)
    requires t.Class? && i <= |t.fields| && Holds(list, i, FullFields(t, clauses, next, i).parts)
    ensures var own := SubFields(t, a, list, Min(i, |list|), i);
            SubFields(t, a, clauses, next, i) == Step(own.effects, FullFields(t, clauses, next, i).next)
            && own.next == |list|
    decreases t, 1, |t.fields| - i
  {
    hide Subobject, Explicit, Omitted, Full, ToClause, Holds;
    if i == |t.fields| {
      HoldsNothing(list, i);
    } else {
      var f := t.fields[i];
      var first := Full(f.kind, clauses, next);
      var rest := FullFields(t, clauses, first.next, i + 1);
      SameMeaning(f.kind, a + f.offset, f.default, clauses, next);
      FullGives(f.kind, clauses, next);
      if first.given.None? {
        NoFieldsLeft(t, clauses, next, i + 1);
        HoldsNothing(list, i);
        FieldOmitted(f.kind, a + f.offset, f.default, list, |list|);
      } else {
        HoldsFirst(list, i, first.given.value, rest.parts);
        FieldAlone(f.kind, a + f.offset, f.default, list, i);
      }
      FieldsSame(t, a, clauses, first.next, i + 1, list);
    }
  }

  /** Leaving braces out changes nothing: a list stores what the fully braced list stores, in the same order.
      That list is made of the clauses that were taken, each once and in order, and the rest is reported. */
  lemma BracesMakeNoDifference(t: Type, a: nat, clauses: seq<Clause>)
    requires t.Class?
    ensures var full := FullFields(t, clauses, 0, 0);
            full.next <= |clauses| && EraseAll(full.parts) == clauses[..full.next]
            && Positional(t, a, clauses)
               == Positional(t, a, ToClauses(full.parts)) + (if full.next < |clauses| then [Reported] else [])
  {
    hide SubFields, FullFields, ToClauses;
    var full := FullFields(t, clauses, 0, 0);
    FieldsAreTaken(t, clauses, 0, 0);
    WholeHolds(full.parts);
    FieldsSame(t, a, clauses, 0, 0, ToClauses(full.parts));
  }

  /** A flat list is too long exactly when it has more values than the class has scalars. */
  lemma ExcessIsCounted(t: Type, a: nat, clauses: seq<Clause>)
    requires t.Class? && AllItems(clauses)
    ensures SubFields(t, a, clauses, 0, 0).next < |clauses| <==> |clauses| > |Leaves(t, a)|
  {
    FieldsTake(t, a, clauses, 0, 0);
  }

  /** An element that is not a scalar is not initialised from a bare value: in a list of its own, an array
      does not look for left out braces. */
  lemma {:induction false} OwnListsNeedBraces(t: Type, a: nat, list: seq<Clause>, i: nat, k: nat)
    requires t.Array? && !t.element.Scalar? && i <= k < t.count && k < |list| && list[k].Item?
    ensures !Clean(ExplicitElements(t, a, list, i))
    decreases t.count - i
  {
    if i < k {
      OwnListsNeedBraces(t, a, list, i + 1, k);
      hide Explicit, Empty, ElementAt;
      var rest := ExplicitElements(t, a, list, i + 1);
      var whole := ExplicitElements(t, a, list, i);
      var j :| 0 <= j < |rest| && rest[j] == Reported;
      assert whole[|whole| - |rest| + j] == Reported;
    } else {
      assert Explicit(t.element, ElementAt(t, a, i), list[i], true) == [Reported];
      assert ExplicitElements(t, a, list, i)[0] == Reported;
    }
  }

  /** Every clause of an array's own list is for one element. */
  predicate OneEach(t: Type, list: seq<Clause>)
    requires t.Array?
  {
    t.element.Scalar? || forall k :: 0 <= k < |list| ==> list[k].Braces?
  }

  /** With one clause for each element, taking clauses from the list and numbering them is the same. */
  lemma {:induction false} OneEachIsNumbered(t: Type, a: nat, list: seq<Clause>, i: nat)
    requires t.Array? && i <= t.count && OneEach(t, list)
    ensures SubElements(t, a, list, Min(i, |list|), i) == Step(ExplicitElements(t, a, list, i), Min(|list|, t.count))
    decreases t.count - i
  {
    hide Explicit, Empty, ElementAt, Subobject;
    if i < t.count {
      if i < |list| {
        FieldAlone(t.element, ElementAt(t, a, i), None, list, i);
      } else {
        FieldOmitted(t.element, ElementAt(t, a, i), None, list, |list|);
      }
      OneEachIsNumbered(t, a, list, i + 1);
    }
  }

  /** Where braces may be left out inside an array's list, so that the parts take all of it without an error,
      the array's own list means this exactly if no braces were left out: the elements are scalars, or every
      clause is in braces. */
  lemma OwnListMeansElidedIff(t: Type, a: nat, list: seq<Clause>)
    requires t.Array?
    requires var elided := SubElements(t, a, list, 0, 0); elided.next == |list| && Clean(elided.effects)
    ensures Explicit(t, a, Braces(list), true) == SubElements(t, a, list, 0, 0).effects <==> OneEach(t, list)
  {
    hide SubElements, ExplicitElements;
    if OneEach(t, list) {
      OneEachIsNumbered(t, a, list, 0);
    } else if |list| <= t.count {
      var k :| 0 <= k < |list| && !list[k].Braces?;
      OwnListsNeedBraces(t, a, list, 0, k);
    }
  }

  /** Two arrays of two take two values from a surrounding list, and nothing from a list of their own. */
  lemma FlatOwnListIsReported(a: nat)
    ensures var t := Array(Array(Scalar(4, 0, 9), 2), 2);
            var list := [Item(1), Item(2)];
            SubElements(t, a, list, 0, 0) == Step([Stored(a, 1), Stored(a + 4, 2), Stored(a + 8, 0), Stored(a + 12, 0)], 2)
            && Explicit(t, a, Braces(list), true) == [Reported, Reported]
  {
    var pair := Array(Scalar(4, 0, 9), 2);
    var t, list := Array(pair, 2), [Item(1), Item(2)];
    assert Size(pair) == 8;
    var first := Subobject(pair, a, None, list, 0);
    assert first == Step([Stored(a, 1), Stored(a + 4, 2)], 2) by {
      assert SubElements(pair, a, list, 2, 2) == Step([], 2);
      assert SubElements(pair, a, list, 1, 1) == Step([Stored(a + 4, 2)], 2);
    }
    var second := Subobject(pair, a + 8, None, list, 2);
    assert second == Step([Stored(a + 8, 0), Stored(a + 12, 0)], 2) by {
      assert EmptyElements(pair, a + 8, 2) == [];
      assert EmptyElements(pair, a + 8, 1) == [Stored(a + 12, 0)];
    }
    assert SubElements(t, a, list, 2, 2) == Step([], 2);
    assert SubElements(t, a, list, 2, 1) == second;
    assert ExplicitElements(t, a, list, 2) == [];
    assert ExplicitElements(t, a, list, 1) == [Reported];
  }

  // ----- which value reaches which scalar -----

  /** A scalar of an object: where it is, what it can hold, and what it holds if nothing is given for it. */
  datatype Leaf = Leaf(offset: nat, low: int, high: int, initial: int)

  /** Fields have no default, or are scalars with a value for it. */
  predicate Plain(t: Type) {
    match t
    case Scalar(_, _, _) => true
    case Array(element, _) => Plain(element)
    case Class(_, fields) => forall i :: 0 <= i < |fields| ==> Plain(fields[i].kind) && PlainDefault(fields[i].kind, fields[i].default)
  }

  predicate PlainDefault(t: Type, default: Option<Clause>) {
    default.Some? ==> t.Scalar? && default.value.Item?
  }

  function Initial(default: Option<Clause>): int {
    if default.Some? && default.value.Item? then default.value.value else 0
  }

  function Scalars(t: Type, a: nat, initial: int): seq<Leaf>
    decreases t, 2, 0
  {
    match t
    case Scalar(_, low, high) => [Leaf(a, low, high, initial)]
    case Array(_, _) => ElementScalars(t, a, 0)
    case Class(_, _) => FieldScalars(t, a, 0)
  }

  function ElementScalars(t: Type, a: nat, i: nat): seq<Leaf>
    requires t.Array? && i <= t.count
    decreases t, 1, t.count - i
  {
    if i == t.count then [] else Scalars(t.element, ElementAt(t, a, i), 0) + ElementScalars(t, a, i + 1)
  }

  function FieldScalars(t: Type, a: nat, i: nat): seq<Leaf>
    requires t.Class? && i <= |t.fields|
    decreases t, 1, |t.fields| - i
  {
    if i == |t.fields| then []
    else Scalars(t.fields[i].kind, a + t.fields[i].offset, Initial(t.fields[i].default)) + FieldScalars(t, a, i + 1)
  }

  /** A scalar takes its value if there is one: it is stored if it fits and reported if not. */
  function Filling(leaf: Leaf, clauses: seq<Clause>, k: nat): Effect {
    if k < |clauses| && clauses[k].Item? then
      if leaf.low <= clauses[k].value <= leaf.high then Stored(leaf.offset, clauses[k].value) else Reported
    else Stored(leaf.offset, leaf.initial)
  }

  function Filled(leaves: seq<Leaf>, clauses: seq<Clause>, next: nat): (e: seq<Effect>)
    ensures |e| == |leaves|
  {
    seq(|leaves|, k requires 0 <= k < |leaves| => Filling(leaves[k], clauses, next + k))
  }

  lemma FilledAppend(p: seq<Leaf>, q: seq<Leaf>, clauses: seq<Clause>, next: nat, after: nat)
    requires next <= |clauses| && after == Min(|clauses|, next + |p|)
    ensures Filled(p + q, clauses, next) == Filled(p, clauses, next) + Filled(q, clauses, after)
  {
    forall k | 0 <= k < |q|
      ensures Filling(q[k], clauses, next + |p| + k) == Filling(q[k], clauses, after + k)
    {
    }
  }

  lemma {:induction false} AsManyScalars(t: Type, a: nat, initial: int)
    ensures |Scalars(t, a, initial)| == |Leaves(t, a)|
    decreases t, 2, 0
  {
    match t
    case Scalar(_, _, _) =>
    case Array(_, _) => AsManyElementScalars(t, a, 0);
    case Class(_, _) => AsManyFieldScalars(t, a, 0);
  }

  lemma {:induction false} AsManyElementScalars(t: Type, a: nat, i: nat)
    requires t.Array? && i <= t.count
    ensures |ElementScalars(t, a, i)| == |ElementLeaves(t, a, i)|
    decreases t, 1, t.count - i
  {
    if i < t.count {
      AsManyScalars(t.element, ElementAt(t, a, i), 0);
      AsManyElementScalars(t, a, i + 1);
    }
  }

  lemma {:induction false} AsManyFieldScalars(t: Type, a: nat, i: nat)
    requires t.Class? && i <= |t.fields|
    ensures |FieldScalars(t, a, i)| == |FieldLeaves(t, a, i)|
    decreases t, 1, |t.fields| - i
  {
    if i < |t.fields| {
      AsManyScalars(t.fields[i].kind, a + t.fields[i].offset, Initial(t.fields[i].default));
      AsManyFieldScalars(t, a, i + 1);
    }
  }

  lemma {:induction false} OmittedFills(t: Type, a: nat, default: Option<Clause>, clauses: seq<Clause>)
    requires Plain(t) && PlainDefault(t, default)
    ensures Omitted(t, a, default) == Filled(Scalars(t, a, Initial(default)), clauses, |clauses|)
    decreases t, 3, 0
  {
    if default.None? {
      EmptyFills(t, a, clauses);
    }
  }

  lemma {:induction false} EmptyFills(t: Type, a: nat, clauses: seq<Clause>)
    requires Plain(t)
    ensures Empty(t, a) == Filled(Scalars(t, a, 0), clauses, |clauses|)
    decreases t, 2, 0
  {
    match t
    case Scalar(_, _, _) =>
    case Array(_, _) => EmptyElementsFill(t, a, 0, clauses);
    case Class(_, _) => EmptyFieldsFill(t, a, 0, clauses);
  }

  lemma {:induction false} EmptyElementsFill(t: Type, a: nat, i: nat, clauses: seq<Clause>)
    requires t.Array? && i <= t.count && Plain(t)
    ensures EmptyElements(t, a, i) == Filled(ElementScalars(t, a, i), clauses, |clauses|)
    decreases t, 1, t.count - i
  {
    hide Empty, Scalars, ElementAt, Filled;
    if i == t.count {
      NothingFilled(clauses, |clauses|);
    } else {
      EmptyFills(t.element, ElementAt(t, a, i), clauses);
      EmptyElementsFill(t, a, i + 1, clauses);
      FilledAppend(Scalars(t.element, ElementAt(t, a, i), 0), ElementScalars(t, a, i + 1), clauses, |clauses|, |clauses|);
    }
  }

  lemma NothingFilled(clauses: seq<Clause>, next: nat)
    ensures Filled([], clauses, next) == []
  {
  }

  lemma {:induction false} EmptyFieldsFill(t: Type, a: nat, i: nat, clauses: seq<Clause>)
    requires t.Class? && i <= |t.fields| && Plain(t)
    ensures EmptyFields(t, a, i) == Filled(FieldScalars(t, a, i), clauses, |clauses|)
    decreases t, 1, |t.fields| - i
  {
    hide Omitted, Scalars, Filled, Initial;
    if i == |t.fields| {
      NothingFilled(clauses, |clauses|);
    } else {
      var f := t.fields[i];
      OmittedFills(f.kind, a + f.offset, f.default, clauses);
      EmptyFieldsFill(t, a, i + 1, clauses);
      FilledAppend(Scalars(f.kind, a + f.offset, Initial(f.default)), FieldScalars(t, a, i + 1), clauses, |clauses|, |clauses|);
    }
  }

  lemma {:induction false} SubobjectFills(t: Type, a: nat, default: Option<Clause>, clauses: seq<Clause>, next: nat)
    requires AllItems(clauses) && next <= |clauses| && Plain(t) && PlainDefault(t, default)
    ensures Subobject(t, a, default, clauses, next).effects == Filled(Scalars(t, a, Initial(default)), clauses, next)
    decreases t, 4, 0
  {
    if next == |clauses| {
      OmittedFills(t, a, default, clauses);
    } else {
      match t
      case Scalar(_, _, _) =>
      case Array(_, _) => ElementsFill(t, a, clauses, next, 0);
      case Class(_, fields) =>
        if fields == [] {
          assert EmptyFields(t, a, 0) == [] && FieldScalars(t, a, 0) == [];
          NothingFilled(clauses, next);
        } else {
          FieldsFill(t, a, clauses, next, 0);
        }
    }
  }

  lemma {:induction false} ElementsFill(t: Type, a: nat, clauses: seq<Clause>, next: nat, i: nat)
    requires AllItems(clauses) && next <= |clauses| && t.Array? && i <= t.count && Plain(t)
    ensures SubElements(t, a, clauses, next, i).effects == Filled(ElementScalars(t, a, i), clauses, next)
    decreases t, 1, t.count - i
  {
    hide Subobject, Scalars, ElementAt, Filled, AllItems, Leaves;
    if i == t.count {
      NothingFilled(clauses, next);
    } else {
      var at := ElementAt(t, a, i);
      var first := Subobject(t.element, at, None, clauses, next);
      SubobjectFills(t.element, at, None, clauses, next);
      SubobjectTakes(t.element, at, None, clauses, next);
      AsManyScalars(t.element, at, 0);
      ElementsFill(t, a, clauses, first.next, i + 1);
      FilledAppend(Scalars(t.element, at, 0), ElementScalars(t, a, i + 1), clauses, next, first.next);
    }
  }

  lemma {:induction false} FieldsFill(t: Type, a: nat, clauses: seq<Clause>, next: nat, i: nat)
    requires AllItems(clauses) && next <= |clauses| && t.Class? && i <= |t.fields| && Plain(t)
    ensures SubFields(t, a, clauses, next, i).effects == Filled(FieldScalars(t, a, i), clauses, next)
    decreases t, 1, |t.fields| - i
  {
    hide Subobject, Scalars, Filled, AllItems, Leaves, Initial;
    if i == |t.fields| {
      NothingFilled(clauses, next);
    } else {
      var f := t.fields[i];
      var first := Subobject(f.kind, a + f.offset, f.default, clauses, next);
      SubobjectFills(f.kind, a + f.offset, f.default, clauses, next);
      SubobjectTakes(f.kind, a + f.offset, f.default, clauses, next);
      AsManyScalars(f.kind, a + f.offset, Initial(f.default));
      FieldsFill(t, a, clauses, first.next, i + 1);
      FilledAppend(Scalars(f.kind, a + f.offset, Initial(f.default)), FieldScalars(t, a, i + 1), clauses, next, first.next);
    }
  }

  /** A flat list of values: the scalars take them in order, each value is stored if its scalar can hold it and
      reported if not, scalars without a value get their default or zero, and excess is reported at the end. */
  lemma FlatListStores(t: Type, a: nat, clauses: seq<Clause>, k: nat)
    requires t.Class? && Plain(t) && AllItems(clauses) && k < |Positional(t, a, clauses)|
    ensures |Positional(t, a, clauses)|
         == |Scalars(t, a, 0)| + if |clauses| > |Scalars(t, a, 0)| then 1 else 0
    ensures Positional(t, a, clauses)[k]
         == if k == |Scalars(t, a, 0)| then Reported
            else
              var leaf := Scalars(t, a, 0)[k];
              if k >= |clauses| then Stored(leaf.offset, leaf.initial)
              else if leaf.low <= clauses[k].value <= leaf.high then Stored(leaf.offset, clauses[k].value)
              else Reported
  {
    hide SubFields, FieldScalars, FieldLeaves;
    FieldsFill(t, a, clauses, 0, 0);
    FieldsTake(t, a, clauses, 0, 0);
    AsManyFieldScalars(t, a, 0);
  }

  /** The list of an array of scalars, element by element. */
  lemma ArrayListStores(t: Type, a: nat, list: seq<Clause>)
    requires t.Array? && t.element.Scalar? && AllItems(list)
    ensures Explicit(t, a, Braces(list), true)
         == if |list| > t.count then [Reported] else Filled(Scalars(t, a, 0), list, 0)
  {
    if |list| <= t.count {
      OneEachIsNumbered(t, a, list, 0);
      ElementsFill(t, a, list, 0, 0);
    }
  }

  /** Whatever the default of an omitted field is, with braces or without, it is what initialises the field. */
  lemma OmittedFieldTakesItsDefault(f: Field, size: nat, a: nat)
    requires f.default.Some?
    ensures Positional(Class(size, [f]), a, []) == Explicit(f.kind, a + f.offset, f.default.value, false)
    ensures Empty(Class(size, [f]), a) == Explicit(f.kind, a + f.offset, f.default.value, false)
  {
    hide Explicit;
    var t := Class(size, [f]);
    var x := Explicit(f.kind, a + f.offset, f.default.value, false);
    assert t.fields[0] == f && x + [] == x;
    assert Omitted(f.kind, a + f.offset, f.default) == x;
    assert EmptyFields(t, a, 1) == [] && EmptyFields(t, a, 0) == x + [];
    assert Subobject(f.kind, a + f.offset, f.default, [], 0) == Step(x, 0);
    assert SubFields(t, a, [], 0, 1) == Step([], 0);
    assert SubFields(t, a, [], 0, 0) == Step(x + [], 0);
    assert Positional(t, a, []) == SubFields(t, a, [], 0, 0).effects + [];
  }

  /** A scalar in braces: nothing for zero, one value that it must hold, and nothing else. */
  lemma ScalarInBraces(t: Type, a: nat, clauses: seq<Clause>, checked: bool)
    requires t.Scalar?
    ensures Explicit(t, a, Braces(clauses), checked)
         == [if clauses == [] then Stored(a, 0)
             else if |clauses| == 1 && clauses[0].Item? && t.low <= clauses[0].value <= t.high
             then Stored(a, clauses[0].value)
             else Reported]
  {
  }

  // ----- scalars do not overlap -----

  ghost predicate WellPlaced(t: Type)
    decreases t, 1, 0
  {
    match t
    case Scalar(size, _, _) => size > 0
    case Array(element, _) => WellPlaced(element)
    case Class(size, _) => FieldsPlaced(t, 0, 0)
  }

  ghost predicate FieldsPlaced(t: Type, i: nat, free: nat)
    requires t.Class? && i <= |t.fields|
    decreases t, 0, |t.fields| - i
  {
    if i == |t.fields| then free <= t.size
    else
      free <= t.fields[i].offset && WellPlaced(t.fields[i].kind)
      && FieldsPlaced(t, i + 1, t.fields[i].offset + Size(t.fields[i].kind))
  }

  ghost predicate Ordered(s: seq<nat>, low: nat, high: nat) {
    low <= high && (forall k :: 0 <= k < |s| ==> low <= s[k] < high) && forall j, k :: 0 <= j < k < |s| ==> s[j] < s[k]
  }

  lemma OrderedAppend(s: seq<nat>, r: seq<nat>, low: nat, middle: nat, next: nat, high: nat)
    requires Ordered(s, low, middle) && Ordered(r, next, high) && middle <= next
    ensures Ordered(s + r, low, high)
  {
  }

  lemma OrderedFrom(s: seq<nat>, low: nat, lower: nat, high: nat)
    requires Ordered(s, low, high) && lower <= low
    ensures Ordered(s, lower, high)
  {
  }

  lemma NoneOrdered(low: nat, high: nat)
    requires low <= high
    ensures Ordered([], low, high)
  {
  }

  /** The scalars lie within the object, and no two are at the same place. */
  lemma {:induction false} LeavesAreOrdered(t: Type, a: nat)
    requires WellPlaced(t)
    ensures Ordered(Leaves(t, a), a, a + Size(t))
    decreases t, 2, 0
  {
    match t
    case Scalar(_, _, _) =>
    case Array(_, _) => ElementLeavesAreOrdered(t, a, 0);
    case Class(_, _) =>
      FieldLeavesAreOrdered(t, a, 0, 0);
  }

  lemma {:induction false} ElementLeavesAreOrdered(t: Type, a: nat, i: nat)
    requires t.Array? && i <= t.count && WellPlaced(t.element)
    ensures Ordered(ElementLeaves(t, a, i), ElementAt(t, a, i), a + t.count * Size(t.element))
    decreases t, 1, t.count - i
  {
    hide Leaves, Ordered, WellPlaced;
    if i == t.count {
      NoneOrdered(ElementAt(t, a, i), a + t.count * Size(t.element));
    } else {
      LeavesAreOrdered(t.element, ElementAt(t, a, i));
      ElementLeavesAreOrdered(t, a, i + 1);
      NextElement(t, a, i);
      OrderedAppend(Leaves(t.element, ElementAt(t, a, i)), ElementLeaves(t, a, i + 1), ElementAt(t, a, i),
                    ElementAt(t, a, i + 1), ElementAt(t, a, i + 1), a + t.count * Size(t.element));
    }
  }

  lemma NextElement(t: Type, a: nat, i: nat)
    requires t.Array?
    ensures ElementAt(t, a, i + 1) == ElementAt(t, a, i) + Size(t.element)
  {
  }

  lemma {:induction false} FieldLeavesAreOrdered(t: Type, a: nat, i: nat, free: nat)
    requires t.Class? && i <= |t.fields| && FieldsPlaced(t, i, free)
    ensures Ordered(FieldLeaves(t, a, i), a + free, a + t.size)
    decreases t, 1, |t.fields| - i
  {
    hide Leaves, Ordered, WellPlaced;
    if i == |t.fields| {
      NoneOrdered(a + free, a + t.size);
    } else {
      var start, next := t.fields[i].offset, t.fields[i].offset + Size(t.fields[i].kind);
      LeavesAreOrdered(t.fields[i].kind, a + start);
      FieldLeavesAreOrdered(t, a, i + 1, next);
      OrderedAppend(Leaves(t.fields[i].kind, a + start), FieldLeaves(t, a, i + 1), a + start, a + next, a + next, a + t.size);
      OrderedFrom(FieldLeaves(t, a, i), a + start, a + free, a + t.size);
    }
  }

  // ----- the initialisation itself -----

  class IR {
    var built: seq<Effect>

    constructor ()
      ensures built == []
    {
      built := [];
    }

    method Emit(effects: seq<Effect>)
      modifies this
      ensures built == old(built) + effects
    {
      built := built + effects;
    }

    method InitialiseAtAddress(t: Type, a: nat, c: Clause, aggregateElement: bool)
      modifies this
      ensures built == old(built) + Explicit(t, a, c, aggregateElement)
      decreases t, 2, 0
    {
      hide ExplicitElements, Positional;
      if t.Array? {
        InitialiseArrayAtAddress(t, a, c);
      } else if t.Class? {
        if c.Item? {
          Emit([Reported]);
        } else {
          InitialisePositionalAggregate(t, a, c.clauses);
        }
      } else {
        Emit(ExplicitScalar(t, a, c, aggregateElement));
      }
    }

    method InitialiseArrayAtAddress(t: Type, a: nat, c: Clause)
      requires t.Array?
      modifies this
      ensures built == old(built) + Explicit(t, a, c, true)
      decreases t, 1, 0
    {
      hide Empty;
      if c.Item? {
        Emit([Reported]);
        return;
      }
      var list := c.clauses;
      if |list| > t.count {
        Emit([Reported]);
        return;
      }
      for i := 0 to t.count
        invariant built + ExplicitElements(t, a, list, i) == old(built) + ExplicitElements(t, a, list, 0)
      {
        ghost var before, rest := built, ExplicitElements(t, a, list, i + 1);
        if i < |list| {
          InitialiseAtAddress(t.element, ElementAt(t, a, i), list[i], true);
        } else {
          InitialiseEmpty(t.element, ElementAt(t, a, i));
        }
        assert built + rest == before + ExplicitElements(t, a, list, i);
      }
    }

    method InitialiseEmpty(t: Type, a: nat)
      modifies this
      ensures built == old(built) + Empty(t, a)
      decreases t, 2, 0
    {
      if t.Array? {
        for i := 0 to t.count
          invariant built + EmptyElements(t, a, i) == old(built) + EmptyElements(t, a, 0)
        {
          ghost var before := built;
          InitialiseEmpty(t.element, ElementAt(t, a, i));
          assert built + EmptyElements(t, a, i + 1) == before + EmptyElements(t, a, i);
        }
      } else if t.Class? {
        InitialiseEmptyClassList(t, a);
      } else {
        Emit([Stored(a, 0)]);
      }
    }

    method InitialiseEmptyClassList(t: Type, a: nat)
      requires t.Class?
      modifies this
      ensures built == old(built) + EmptyFields(t, a, 0)
      decreases t, 1, 0
    {
      for i := 0 to |t.fields|
        invariant built + EmptyFields(t, a, i) == old(built) + EmptyFields(t, a, 0)
      {
        ghost var before := built;
        var f := t.fields[i];
        if f.default.Some? {
          InitialiseAtAddress(f.kind, a + f.offset, f.default.value, false);
        } else {
          InitialiseEmpty(f.kind, a + f.offset);
        }
        assert built + EmptyFields(t, a, i + 1) == before + EmptyFields(t, a, i);
      }
    }

    method InitialisePositionalAggregate(t: Type, a: nat, clauses: seq<Clause>)
      requires t.Class?
      modifies this
      ensures built == old(built) + Positional(t, a, clauses)
      decreases t, 1, 2
    {
      hide SubFields;
      var nextClause := InitialiseAggregate(t, a, clauses, 0);
      if nextClause < |clauses| {
        Emit([Reported]);
      }
    }

    method InitialiseAggregate(t: Type, a: nat, clauses: seq<Clause>, next: nat) returns (nextClause: nat)
      requires t.Class?
      modifies this
      ensures built == old(built) + SubFields(t, a, clauses, next, 0).effects
      ensures nextClause == SubFields(t, a, clauses, next, 0).next
      decreases t, 1, 1
    {
      hide Subobject;
      nextClause := next;
      for i := 0 to |t.fields|
        invariant built + SubFields(t, a, clauses, nextClause, i).effects
               == old(built) + SubFields(t, a, clauses, next, 0).effects
        invariant SubFields(t, a, clauses, nextClause, i).next == SubFields(t, a, clauses, next, 0).next
      {
        ghost var before, cursor := built, nextClause;
        var f := t.fields[i];
        nextClause := InitialiseSubobject(f.kind, a + f.offset, f.default, clauses, nextClause);
        assert built + SubFields(t, a, clauses, nextClause, i + 1).effects
            == before + SubFields(t, a, clauses, cursor, i).effects;
      }
    }

    method InitialiseSubobject(t: Type, a: nat, default: Option<Clause>, clauses: seq<Clause>, next: nat)
      returns (nextClause: nat)
      modifies this
      ensures built == old(built) + Subobject(t, a, default, clauses, next).effects
      ensures nextClause == Subobject(t, a, default, clauses, next).next
      decreases t, 4, 0
    {
      hide Explicit, Empty, SubFields;
      nextClause := next;
      if nextClause >= |clauses| {
        if default.Some? {
          InitialiseAtAddress(t, a, default.value, false);
        } else {
          InitialiseEmpty(t, a);
        }
        return;
      }
      var clause := clauses[nextClause];
      if clause.Braces? {
        nextClause := nextClause + 1;
        InitialiseAtAddress(t, a, clause, true);
        return;
      }
      if t.Array? {
        for i := 0 to t.count
          invariant built + SubElements(t, a, clauses, nextClause, i).effects
                 == old(built) + SubElements(t, a, clauses, next, 0).effects
          invariant SubElements(t, a, clauses, nextClause, i).next == SubElements(t, a, clauses, next, 0).next
        {
          ghost var before, cursor := built, nextClause;
          nextClause := InitialiseSubobject(t.element, ElementAt(t, a, i), None, clauses, nextClause);
          assert built + SubElements(t, a, clauses, nextClause, i + 1).effects
              == before + SubElements(t, a, clauses, cursor, i).effects;
        }
        return;
      }
      if t.Class? {
        if t.fields == [] {
          InitialiseEmpty(t, a);
          return;
        }
        nextClause := InitialiseAggregate(t, a, clauses, nextClause);
        return;
      }
      nextClause := nextClause + 1;
      InitialiseAtAddress(t, a, clause, true);
    }
  }
}
