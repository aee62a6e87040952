/** What is asked of expressions is asked of every part of them. */
module ExpressionParts {
  import opened Ssa
  import opened Expressions
  import opened ExpressionLowering
  import opened ExpressionShapes
  import opened OperandWidths

  function Operands(e: Expression): (operands: seq<Expression>)
    ensures forall i :: 0 <= i < |operands| ==> operands[i] < e
  {
    if e.Binary? || e.Compare? || e.Compound? || e.Assign? then [e.left, e.right]
    else if e.Unary? || e.Convert? || e.PointerConversion? || e.AddressOf? || e.Dereference? || e.PostStep? then [e.operand]
    else []
  }

  /** The expression itself, its operands, theirs, and so on. */
  ghost predicate PartOf(part: Expression, e: Expression)
    decreases e
  {
    part == e || exists i :: 0 <= i < |Operands(e)| && PartOf(part, Operands(e)[i])
  }

  /** Asked of an expression and of its operands. */
  predicate Everywhere(q: Expression -> bool, e: Expression)
    decreases e
  {
    q(e) && forall i :: 0 <= i < |Operands(e)| ==> Everywhere(q, Operands(e)[i])
  }

  lemma {:induction false} EverywhereInParts(q: Expression -> bool, e: Expression)
    ensures Everywhere(q, e) <==> forall part :: PartOf(part, e) ==> q(part)
    decreases e
  {
    forall i | 0 <= i < |Operands(e)|
      ensures Everywhere(q, Operands(e)[i]) <==> forall part :: PartOf(part, Operands(e)[i]) ==> q(part)
    {
      EverywhereInParts(q, Operands(e)[i]);
    }
    assert PartOf(e, e);
    if Everywhere(q, e) {
      forall part | PartOf(part, e)
        ensures q(part)
      {
      }
    }
    if forall part :: PartOf(part, e) ==> q(part) {
      forall i | 0 <= i < |Operands(e)|
        ensures Everywhere(q, Operands(e)[i])
      {
        forall part | PartOf(part, Operands(e)[i])
          ensures q(part)
        {
          assert PartOf(part, e);
        }
      }
    }
  }

  lemma AllOperands(operands: seq<Expression>, q: Expression -> bool)
    requires |operands| <= 2
    ensures (forall i :: 0 <= i < |operands| ==> q(operands[i]))
       <==> (|operands| > 0 ==> q(operands[0])) && (|operands| > 1 ==> q(operands[1]))
  {
  }

  // ----- the parts of expressions that are lowered -----

  predicate ResolvedPart(names: set<string>, e: Expression) {
    !e.Missing? && !e.Unsupported?
    && (e.Variable? || e.LoadVariable? ==> e.name in names)
    && (e.Convert? ==> e.operand.TypeOf().Integral? && e.type_.Integral?)
    && (e.AddressOf? ==> e.operand.Variable? || e.operand.Dereference?)
  }

  /** Resolved: every name is known, nothing is missing or unsupported, conversions are between integers, and
      addresses are taken of variables and dereferences. */
  lemma ResolvedIff(names: set<string>, e: Expression)
    ensures Resolved(names, e) <==> forall part :: PartOf(part, e) ==> ResolvedPart(names, part)
  {
    ResolvedEverywhere(names, e);
    EverywhereInParts(part => ResolvedPart(names, part), e);
  }

  lemma {:induction false} ResolvedEverywhere(names: set<string>, e: Expression)
    ensures Resolved(names, e) <==> Everywhere(part => ResolvedPart(names, part), e)
    decreases e
  {
    forall i | 0 <= i < |Operands(e)|
      ensures Resolved(names, Operands(e)[i]) <==> Everywhere(part => ResolvedPart(names, part), Operands(e)[i])
    {
      ResolvedEverywhere(names, Operands(e)[i]);
    }
    AllOperands(Operands(e), x => Resolved(names, x));
  }

  predicate SpokenPart(e: Expression) {
    !e.Missing? && (e.Convert? ==> e.operand.TypeOf().Integral? && e.type_.Integral?)
  }

  /** Spoken: nothing is missing, and conversions are between integers. */
  lemma SpokenIff(e: Expression)
    ensures Spoken(e) <==> forall part :: PartOf(part, e) ==> SpokenPart(part)
  {
    SpokenEverywhere(e);
    EverywhereInParts(part => SpokenPart(part), e);
  }

  lemma {:induction false} SpokenEverywhere(e: Expression)
    ensures Spoken(e) <==> Everywhere(part => SpokenPart(part), e)
    decreases e
  {
    forall i | 0 <= i < |Operands(e)|
      ensures Spoken(Operands(e)[i]) <==> Everywhere(part => SpokenPart(part), Operands(e)[i])
    {
      SpokenEverywhere(Operands(e)[i]);
    }
    AllOperands(Operands(e), x => Spoken(x));
  }

  predicate SoundPart(e: Expression) {
    (e.Assign? || e.Compound? ==> Assignable(e.left)) && (e.PostStep? ==> Assignable(e.operand))
  }

  /** Sound: everything that is assigned or stepped is a variable, a dereference, or itself such an assignment. */
  lemma SoundIff(e: Expression)
    ensures Sound(e) <==> forall part :: PartOf(part, e) ==> SoundPart(part)
  {
    SoundEverywhere(e);
    EverywhereInParts(part => SoundPart(part), e);
  }

  lemma {:induction false} SoundEverywhere(e: Expression)
    ensures Sound(e) <==> Everywhere(part => SoundPart(part), e)
    decreases e
  {
    forall i | 0 <= i < |Operands(e)|
      ensures Sound(Operands(e)[i]) <==> Everywhere(part => SoundPart(part), Operands(e)[i])
    {
      SoundEverywhere(Operands(e)[i]);
    }
    AllOperands(Operands(e), x => Sound(x));
  }

  predicate TranslatablePart(e: Expression) {
    !e.Compare? && (e.Binary? || e.Compound? ==> e.binary != Modulo)
  }

  /** Translatable: no comparison and no modulo anywhere. */
  lemma TranslatableIff(e: Expression)
    ensures Translatable(e) <==> forall part :: PartOf(part, e) ==> TranslatablePart(part)
  {
    TranslatableEverywhere(e);
    EverywhereInParts(part => TranslatablePart(part), e);
  }

  lemma {:induction false} TranslatableEverywhere(e: Expression)
    ensures Translatable(e) <==> Everywhere(part => TranslatablePart(part), e)
    decreases e
  {
    forall i | 0 <= i < |Operands(e)|
      ensures Translatable(Operands(e)[i]) <==> Everywhere(part => TranslatablePart(part), Operands(e)[i])
    {
      TranslatableEverywhere(Operands(e)[i]);
    }
    AllOperands(Operands(e), x => Translatable(x));
  }

  predicate TypedPart(types: map<string, nat>, e: Expression) {
    (e.Variable? || e.LoadVariable? ==> e.name in types && types[e.name] == e.Width())
    && (e.Binary? || e.Compound? || e.Assign? ==> e.left.Width() == e.right.Width() == e.Width())
    && (e.Compare? ==> e.left.Width() == e.right.Width())
    && (e.Unary? || e.PostStep? ==> e.operand.Width() == e.Width())
    && (e.AddressOf? && e.operand.Dereference? ==> e.operand.operand.Width() == e.Width())
  }

  /** Typed: variables have the widths they were declared with, and operands the width of their operator. */
  lemma TypedIff(types: map<string, nat>, e: Expression)
    ensures Typed(types, e) <==> forall part :: PartOf(part, e) ==> TypedPart(types, part)
  {
    TypedEverywhere(types, e);
    EverywhereInParts(part => TypedPart(types, part), e);
  }

  lemma {:induction false} TypedEverywhere(types: map<string, nat>, e: Expression)
    ensures Typed(types, e) <==> Everywhere(part => TypedPart(types, part), e)
    decreases e
  {
    forall i | 0 <= i < |Operands(e)|
      ensures Typed(types, Operands(e)[i]) <==> Everywhere(part => TypedPart(types, part), Operands(e)[i])
    {
      TypedEverywhere(types, Operands(e)[i]);
    }
    AllOperands(Operands(e), x => Typed(types, x));
  }
}
