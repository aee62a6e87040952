/** The two rewrites the control-flow clean-up is made of, each shown to change nothing that can
    be observed: redirecting one jump further along its own path, and deleting instructions that
    do nothing or are never reached. */
module ControlFlowRewrites {
  import opened VirtualCode

  // ----- redirecting a jump -----

  function Retarget(code: seq<VirtualInstruction>, i: nat, id: nat): seq<VirtualInstruction>
    requires i < |code| && code[i].IsJump()
  {
    if code[i].UnconditionalJump? then code[i := UnconditionalJump(id)]
    else code[i := code[i].(id := id)]
  }

  /** The same instructions up to jump targets. */
  ghost predicate SameShape(p: seq<VirtualInstruction>, q: seq<VirtualInstruction>) {
    |p| == |q|
    && forall i :: 0 <= i < |p| ==>
         if p[i].IsJump() then p[i].UnconditionalJump? == q[i].UnconditionalJump? && q[i].IsJump() else q[i] == p[i]
  }

  lemma SameShapeLabels(p: seq<VirtualInstruction>, q: seq<VirtualInstruction>, id: nat)
    requires SameShape(p, q) && UniqueLabels(p)
    ensures UniqueLabels(q)
    ensures HasLabel(p, id) == HasLabel(q, id)
    ensures HasLabel(p, id) ==> Position(p, id) == Position(q, id)
  {
    if HasLabel(p, id) {
      assert q[Position(p, id)] == Label(id);
    }
    if HasLabel(q, id) {
      assert p[Position(q, id)] == Label(id);
    }
  }

  /** A jump may be redirected to any label its old target silently leads to, in the code as it
      stands before the redirection; the path may even run through the redirected jump itself. */
  ghost predicate Redirectable(code: seq<VirtualInstruction>, i: nat, id: nat, k: nat) {
    UniqueLabels(code) && i < |code| && code[i].IsJump()
    && HasLabel(code, code[i].id) && HasLabel(code, id)
    && Skips(code, Position(code, code[i].id), k, Position(code, id))
  }

  /** The redirected code at `pc`: the same, but for one target. */
  lemma RetargetedAt(code: seq<VirtualInstruction>, i: nat, id: nat, k: nat, pc: nat)
    requires Redirectable(code, i, id, k)
    ensures var code' := Retarget(code, i, id);
            |code'| == |code|
            && (pc < |code| ==>
                  (pc != i ==> code'[pc] == code[pc])
                  && (pc == i ==>
                        code'[pc] == if code[i].UnconditionalJump? then UnconditionalJump(id) else code[i].(id := id))
                  && (code[pc].IsJump() ==>
                        Target(code', code'[pc].id, pc)
                        == if pc == i then Position(code, id) else Target(code, code[pc].id, pc)))
    ensures Target(code, code[i].id, i) == Position(code, code[i].id)
  {
    if pc < |code| && code[pc].IsJump() {
      SameShapeLabels(code, Retarget(code, i, id), if pc == i then id else code[pc].id);
    }
  }

  lemma {:induction false} RetargetForward(m: Machine, code: seq<VirtualInstruction>, i: nat, id: nat, k: nat,
                                           pc: nat, s: State, fuel: nat)
    returns (fuel': nat)
    requires Redirectable(code, i, id, k)
    ensures Run(m, Retarget(code, i, id), pc, s, fuel') == Run(m, code, pc, s, fuel)
    decreases fuel
  {
    hide Retarget, Target, Skips, UniqueLabels, HasLabel;
    var code' := Retarget(code, i, id);
    fuel' := 0;
    RetargetedAt(code, i, id, k, pc);
    if fuel > 0 && pc >= |code| {
      fuel' := 1;
    } else if fuel > 0 {
      var instruction := code[pc];
      if instruction.IsJump() {
        var taken := instruction.UnconditionalJump?
                     || m.holds(instruction.cc, instruction.lhs, instruction.rhs, s);
        if pc == i && taken {
          var onward := Position(code, instruction.id);
          RunSkips(m, code, onward, k, Position(code, id), s, fuel - 1);
          if fuel - 1 > k {
            fuel' := RetargetForward(m, code, i, id, k, Position(code, id), s, fuel - 1 - k);
            fuel' := fuel' + 1;
          }
        } else {
          var next := if taken then Target(code, instruction.id, pc) else pc + 1;
          fuel' := RetargetForward(m, code, i, id, k, next, s, fuel - 1);
          fuel' := fuel' + 1;
        }
      } else if instruction.Return? {
        fuel' := 1;
      } else {
        var s' := if instruction.Plain? then m.exec(instruction, s) else s;
        fuel' := RetargetForward(m, code, i, id, k, pc + 1, s', fuel - 1);
        fuel' := fuel' + 1;
      }
    }
  }

  lemma {:induction false} RetargetBackward(m: Machine, code: seq<VirtualInstruction>, i: nat, id: nat, k: nat,
                                            pc: nat, s: State, fuel: nat)
    returns (fuel': nat)
    requires Redirectable(code, i, id, k)
    ensures Run(m, code, pc, s, fuel') == Run(m, Retarget(code, i, id), pc, s, fuel)
    decreases fuel
  {
    hide Retarget, Target, Skips, UniqueLabels, HasLabel;
    var code' := Retarget(code, i, id);
    fuel' := 0;
    RetargetedAt(code, i, id, k, pc);
    if fuel > 0 && pc >= |code| {
      fuel' := 1;
    } else if fuel > 0 {
      var instruction := code[pc];
      if instruction.IsJump() {
        var taken := instruction.UnconditionalJump?
                     || m.holds(instruction.cc, instruction.lhs, instruction.rhs, s);
        if pc == i && taken {
          var onward := Position(code, instruction.id);
          fuel' := RetargetBackward(m, code, i, id, k, Position(code, id), s, fuel - 1);
          if fuel' > 0 {
            RunSkips(m, code, onward, k, Position(code, id), s, k + fuel');
            fuel' := 1 + k + fuel';
          }
        } else {
          var next := if taken then Target(code, instruction.id, pc) else pc + 1;
          fuel' := RetargetBackward(m, code, i, id, k, next, s, fuel - 1);
          fuel' := fuel' + 1;
        }
      } else if instruction.Return? {
        fuel' := 1;
      } else {
        var s' := if instruction.Plain? then m.exec(instruction, s) else s;
        fuel' := RetargetBackward(m, code, i, id, k, pc + 1, s', fuel - 1);
        fuel' := fuel' + 1;
      }
    }
  }

  lemma RetargetPreserves(code: seq<VirtualInstruction>, i: nat, id: nat, k: nat)
    requires Redirectable(code, i, id, k)
    ensures SameBehaviour(code, Retarget(code, i, id))
  {
    var code' := Retarget(code, i, id);
    forall m: Machine, s: State, o: Observation
      ensures Reaches(m, code, s, o) <==> Reaches(m, code', s, o)
    {
      if Reaches(m, code, s, o) {
        var fuel: nat :| Run(m, code, 0, s, fuel) == o;
        var fuel' := RetargetForward(m, code, i, id, k, 0, s, fuel);
      }
      if Reaches(m, code', s, o) {
        var fuel: nat :| Run(m, code', 0, s, fuel) == o;
        var fuel' := RetargetBackward(m, code, i, id, k, 0, s, fuel);
      }
    }
  }

  // ----- deleting instructions -----

  /** What is left of the first `n` instructions. */
  function Survivors(code: seq<VirtualInstruction>, dead: seq<bool>, n: nat): seq<VirtualInstruction>
    requires n <= |code| == |dead|
  {
    if n == 0 then []
    else Survivors(code, dead, n - 1) + if dead[n - 1] then [] else [code[n - 1]]
  }

  /** Where the instruction at `n` ends up. */
  function Rank(code: seq<VirtualInstruction>, dead: seq<bool>, n: nat): nat
    requires n <= |code| == |dead|
  {
    |Survivors(code, dead, n)|
  }

  lemma {:induction false} SurvivorsPrefix(code: seq<VirtualInstruction>, dead: seq<bool>, i: nat, n: nat)
    requires i <= n <= |code| == |dead|
    ensures Rank(code, dead, i) <= Rank(code, dead, n)
    ensures Survivors(code, dead, i) == Survivors(code, dead, n)[..Rank(code, dead, i)]
    ensures Rank(code, dead, n) - Rank(code, dead, i) <= n - i
    decreases n
  {
    if i < n {
      SurvivorsPrefix(code, dead, i, n - 1);
    }
  }

  lemma SurvivorAt(code: seq<VirtualInstruction>, dead: seq<bool>, i: nat)
    requires i < |code| == |dead| && !dead[i]
    ensures Rank(code, dead, i + 1) == Rank(code, dead, i) + 1 <= |Survivors(code, dead, |code|)|
    ensures Survivors(code, dead, |code|)[Rank(code, dead, i)] == code[i]
  {
    SurvivorsPrefix(code, dead, i + 1, |code|);
    assert Survivors(code, dead, i + 1)[Rank(code, dead, i)] == code[i];
  }

  /** Every survivor is a live instruction of the original. */
  lemma {:induction false} SurvivorOrigin(code: seq<VirtualInstruction>, dead: seq<bool>, n: nat, q: nat)
    returns (i: nat)
    requires n <= |code| == |dead| && q < Rank(code, dead, n)
    ensures i < n && !dead[i] && Rank(code, dead, i) == q && Survivors(code, dead, n)[q] == code[i]
    decreases n
  {
    if q < Rank(code, dead, n - 1) {
      i := SurvivorOrigin(code, dead, n - 1, q);
    } else {
      i := n - 1;
    }
  }

  /** Whether no control flow arrives at `i`: a live return or unconditional jump comes before,
      with no live label since. */
  function Unreachable(code: seq<VirtualInstruction>, dead: seq<bool>, i: nat): bool
    requires i <= |code| == |dead|
  {
    if i == 0 then false
    else if code[i - 1].Label? then dead[i - 1] && Unreachable(code, dead, i - 1)
    else
      Unreachable(code, dead, i - 1)
      || (!dead[i - 1] && (code[i - 1].Return? || code[i - 1].UnconditionalJump?))
  }

  /** The label a jump names is placed among the labels right after the jump. */
  ghost predicate JumpsToNext(code: seq<VirtualInstruction>, i: nat) {
    i < |code| && code[i].IsJump()
    && exists j: nat :: i < j < |code| && code[j] == Label(code[i].id) && AllLabels(code, i + 1, j)
  }

  ghost predicate AllLabels(code: seq<VirtualInstruction>, from: nat, end: nat) {
    from <= end <= |code| && forall k :: from <= k < end ==> code[k].Label?
  }

  /** The deletions the clean-up makes: labels no surviving jump names, jumps to nowhere, jumps to
      the next instruction, and whatever cannot be reached. */
  ghost predicate Deletable(code: seq<VirtualInstruction>, dead: seq<bool>) {
    |dead| == |code| && UniqueLabels(code)
    && (forall i :: 0 <= i < |code| && !code[i].Label? && dead[i] && !Unreachable(code, dead, i) ==>
          code[i].IsJump() && (HasLabel(code, code[i].id) ==> JumpsToNext(code, i)))
    && (forall i :: 0 <= i < |code| && code[i].IsJump() && !dead[i] ==> LiveLabel(code, dead, code[i].id))
  }

  ghost predicate LiveLabel(code: seq<VirtualInstruction>, dead: seq<bool>, id: nat)
    requires |dead| == |code|
  {
    HasLabel(code, id) && !dead[Position(code, id)]
  }

  function Remaining(code: seq<VirtualInstruction>, dead: seq<bool>): seq<VirtualInstruction>
    requires |dead| == |code|
  {
    Survivors(code, dead, |code|)
  }

  /** A place control can be: reachable, or a surviving label, which makes it reachable. */
  ghost predicate Entered(code: seq<VirtualInstruction>, dead: seq<bool>, pc: nat)
    requires |dead| == |code|
  {
    pc <= |code|
    && (Unreachable(code, dead, pc) ==> pc < |code| && code[pc].Label? && !dead[pc])
  }

  /** `pc` in the original and `q` in what remains agree up to surviving labels still to be
      passed. */
  ghost predicate Agree(code: seq<VirtualInstruction>, dead: seq<bool>, pc: nat, q: nat)
    requires |dead| == |code|
  {
    Entered(code, dead, pc) && q <= Rank(code, dead, pc) <= |Remaining(code, dead)|
    && AllLabels(Remaining(code, dead), q, Rank(code, dead, pc))
  }

  lemma RemainingLabels(code: seq<VirtualInstruction>, dead: seq<bool>)
    requires |dead| == |code| && UniqueLabels(code)
    ensures UniqueLabels(Remaining(code, dead))
  {
    var rest := Remaining(code, dead);
    forall a, b | 0 <= a < b < |rest| && rest[a].Label? && rest[b].Label?
      ensures rest[a].id != rest[b].id
    {
      var i := SurvivorOrigin(code, dead, |code|, a);
      var j := SurvivorOrigin(code, dead, |code|, b);
      if j <= i {
        SurvivorsPrefix(code, dead, j, i);
      }
    }
  }

  lemma RemainingPosition(code: seq<VirtualInstruction>, dead: seq<bool>, id: nat)
    requires |dead| == |code| && UniqueLabels(code) && LiveLabel(code, dead, id)
    ensures HasLabel(Remaining(code, dead), id)
    ensures Position(Remaining(code, dead), id) == Rank(code, dead, Position(code, id))
  {
    RemainingLabels(code, dead);
    SurvivorAt(code, dead, Position(code, id));
    PositionUnique(Remaining(code, dead), Rank(code, dead, Position(code, id)));
  }

  /** Labels in the original stay labels, or vanish, in what remains. */
  lemma {:induction false} RankOverLabels(code: seq<VirtualInstruction>, dead: seq<bool>, q: nat, i: nat, j: nat)
    requires |dead| == |code| && i <= j <= |code| && AllLabels(code, i, j)
    requires q <= Rank(code, dead, i) <= |Remaining(code, dead)|
    requires AllLabels(Remaining(code, dead), q, Rank(code, dead, i))
    ensures q <= Rank(code, dead, j) <= |Remaining(code, dead)|
    ensures AllLabels(Remaining(code, dead), q, Rank(code, dead, j))
    ensures !Unreachable(code, dead, i) ==> !Unreachable(code, dead, j)
    decreases j - i
  {
    if i < j {
      if !dead[i] {
        SurvivorAt(code, dead, i);
      }
      RankOverLabels(code, dead, q, i + 1, j);
    }
  }

  /** Where control goes after a deleted instruction: forward, to a place that agrees with the
      same `q`. */
  lemma DeadStep(code: seq<VirtualInstruction>, dead: seq<bool>, pc: nat, q: nat, taken: bool) returns (next: nat)
    requires Deletable(code, dead) && pc < |code| && dead[pc] && Agree(code, dead, pc, q)
    ensures pc < next && Agree(code, dead, next, q)
    ensures code[pc].Label? || code[pc].IsJump()
    ensures next == if code[pc].IsJump() && (taken || code[pc].UnconditionalJump?)
                    then Target(code, code[pc].id, pc) else pc + 1
  {
    next := pc + 1;
    SurvivorsPrefix(code, dead, pc + 1, |code|);
    if code[pc].IsJump() && (taken || code[pc].UnconditionalJump?) && HasLabel(code, code[pc].id) {
      assert JumpsToNext(code, pc);
      var j: nat :| pc < j < |code| && code[j] == Label(code[pc].id) && AllLabels(code, pc + 1, j);
      PositionUnique(code, j);
      next := j;
      RankOverLabels(code, dead, q, pc + 1, j);
    }
  }

  /** Where control goes after a surviving jump: to the same place on both sides. */
  lemma LiveJump(code: seq<VirtualInstruction>, dead: seq<bool>, pc: nat, taken: bool) returns (next: nat, q': nat)
    requires Deletable(code, dead) && Entered(code, dead, pc) && pc < |code| && !dead[pc]
    requires code[pc].IsJump() && (code[pc].UnconditionalJump? ==> taken)
    ensures next == if taken then Target(code, code[pc].id, pc) else pc + 1
    ensures q' == if taken then Target(Remaining(code, dead), code[pc].id, Rank(code, dead, pc))
                  else Rank(code, dead, pc) + 1
    ensures Agree(code, dead, next, q')
  {
    SurvivorAt(code, dead, pc);
    if taken {
      assert LiveLabel(code, dead, code[pc].id);
      RemainingPosition(code, dead, code[pc].id);
      next := Position(code, code[pc].id);
      SurvivorAt(code, dead, next);
    } else {
      next := pc + 1;
    }
    q' := Rank(code, dead, next);
  }

  lemma RunOverLabels(m: Machine, code: seq<VirtualInstruction>, q: nat, r: nat, s: State, fuel: nat)
    requires AllLabels(code, q, r) && fuel > 0
    ensures Run(m, code, q, s, r - q + fuel) == Run(m, code, r, s, fuel)
  {
    SkipsOverLabels(code, q, r);
    RunSkips(m, code, q, r - q, r, s, r - q + fuel);
  }

  lemma {:induction false} DeleteForward(m: Machine, code: seq<VirtualInstruction>, dead: seq<bool>, pc: nat, q: nat,
                                         s: State, fuel: nat)
    returns (fuel': nat)
    requires Deletable(code, dead) && Agree(code, dead, pc, q)
    ensures Run(m, Remaining(code, dead), q, s, fuel') == Run(m, code, pc, s, fuel)
    decreases fuel
  {
    hide Target;
    var rest := Remaining(code, dead);
    var r := Rank(code, dead, pc);
    fuel' := 0;
    if fuel == 0 {
      return;
    }
    if pc < |code| && dead[pc] {
      var taken := code[pc].CompareAndJump? && m.holds(code[pc].cc, code[pc].lhs, code[pc].rhs, s);
      var next := DeadStep(code, dead, pc, q, taken);
      fuel' := DeleteForward(m, code, dead, next, q, s, fuel - 1);
      return;
    }
    var after: nat := 0;
    if pc < |code| {
      SurvivorAt(code, dead, pc);
      var instruction := code[pc];
      if instruction.Label? {
        fuel' := DeleteForward(m, code, dead, pc + 1, q, s, fuel - 1);
        return;
      }
      if instruction.IsJump() {
        var taken := instruction.UnconditionalJump?
                     || m.holds(instruction.cc, instruction.lhs, instruction.rhs, s);
        var next, q' := LiveJump(code, dead, pc, taken);
        after := DeleteForward(m, code, dead, next, q', s, fuel - 1);
      } else if instruction.Plain? {
        after := DeleteForward(m, code, dead, pc + 1, r + 1, m.exec(instruction, s), fuel - 1);
      }
    }
    fuel' := r - q + (1 + after);
    RunOverLabels(m, rest, q, r, s, 1 + after);
  }

  lemma AgreeBounds(code: seq<VirtualInstruction>, dead: seq<bool>, pc: nat, q: nat)
    requires |dead| == |code| && Agree(code, dead, pc, q)
    ensures pc <= |code| && q <= Rank(code, dead, pc) <= |Remaining(code, dead)|
    ensures pc == |code| ==> Rank(code, dead, pc) == |Remaining(code, dead)|
    ensures q < Rank(code, dead, pc) ==> Remaining(code, dead)[q].Label? && Agree(code, dead, pc, q + 1)
  {
  }

  /** A surviving instruction is met on both sides at once. */
  lemma LiveStep(code: seq<VirtualInstruction>, dead: seq<bool>, pc: nat, q: nat)
    requires Deletable(code, dead) && Agree(code, dead, pc, q) && pc < |code| && !dead[pc] && q == Rank(code, dead, pc)
    ensures q < |Remaining(code, dead)| && Remaining(code, dead)[q] == code[pc] && Entered(code, dead, pc)
    ensures code[pc].Label? || code[pc].Plain? ==> Agree(code, dead, pc + 1, q + 1)
  {
    SurvivorAt(code, dead, pc);
  }

  lemma {:induction false} DeleteBackward(m: Machine, code: seq<VirtualInstruction>, dead: seq<bool>, pc: nat, q: nat,
                                          s: State, fuel: nat)
    returns (fuel': nat)
    requires Deletable(code, dead) && Agree(code, dead, pc, q)
    ensures Run(m, code, pc, s, fuel') == Run(m, Remaining(code, dead), q, s, fuel)
    decreases fuel, |code| - pc
  {
    assert |dead| == |code|;
    hide Deletable, Agree, Entered, Remaining, Rank, Target;
    var rest, r := Remaining(code, dead), Rank(code, dead, pc);
    AgreeBounds(code, dead, pc, q);
    fuel' := 0;
    if fuel == 0 {
    } else if q < r {
      fuel' := DeleteBackward(m, code, dead, pc, q + 1, s, fuel - 1);
    } else if pc == |code| {
      fuel' := 1;
    } else if dead[pc] {
      var taken := code[pc].CompareAndJump? && m.holds(code[pc].cc, code[pc].lhs, code[pc].rhs, s);
      var next := DeadStep(code, dead, pc, q, taken);
      fuel' := DeleteBackward(m, code, dead, next, q, s, fuel);
      fuel' := fuel' + 1;
    } else {
      LiveStep(code, dead, pc, q);
      var instruction := code[pc];
      if instruction.Label? {
        fuel' := DeleteBackward(m, code, dead, pc + 1, q + 1, s, fuel - 1);
      } else if instruction.IsJump() {
        var taken := instruction.UnconditionalJump?
                     || m.holds(instruction.cc, instruction.lhs, instruction.rhs, s);
        var next, q' := LiveJump(code, dead, pc, taken);
        fuel' := DeleteBackward(m, code, dead, next, q', s, fuel - 1);
      } else if instruction.Plain? {
        fuel' := DeleteBackward(m, code, dead, pc + 1, q + 1, m.exec(instruction, s), fuel - 1);
      }
      fuel' := fuel' + 1;
    }
  }

  lemma DeletePreserves(code: seq<VirtualInstruction>, dead: seq<bool>)
    requires Deletable(code, dead)
    ensures SameBehaviour(code, Remaining(code, dead))
  {
    var rest := Remaining(code, dead);
    assert Agree(code, dead, 0, 0);
    forall m: Machine, s: State, o: Observation
      ensures Reaches(m, code, s, o) <==> Reaches(m, rest, s, o)
    {
      if Reaches(m, code, s, o) {
        var fuel: nat :| Run(m, code, 0, s, fuel) == o;
        var fuel' := DeleteForward(m, code, dead, 0, 0, s, fuel);
      }
      if Reaches(m, rest, s, o) {
        var fuel: nat :| Run(m, rest, 0, s, fuel) == o;
        var fuel' := DeleteBackward(m, code, dead, 0, 0, s, fuel);
      }
    }
  }
}
