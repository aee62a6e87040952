/** The loops of the control-flow clean-up: jump threading, removal of jumps to the next label, of
    unreferenced labels and of unreachable code, and compaction. One pass changes its code exactly
    when the code is not yet `Tidy`. */
module ControlFlowCleanup {
  import opened Options
  import opened VirtualCode
  import opened ControlFlowRewrites

  const MAX_HOPS: nat := 32
  const MAX_PASSES: nat := 8

  // ----- what the clean-up is after -----

  function FirstNonLabel(code: seq<VirtualInstruction>, i: nat): (r: nat)
    requires i <= |code|
    ensures i <= r <= |code|
    ensures r < |code| ==> !code[r].Label?
    decreases |code| - i
  {
    if i < |code| && code[i].Label? then FirstNonLabel(code, i + 1) else i
  }

  /** The label that the code at `id` immediately jumps on to, if it jumps on at all. */
  ghost function Hop(code: seq<VirtualInstruction>, id: nat): Option<nat> {
    if !HasLabel(code, id) then None
    else
      var next := FirstNonLabel(code, Position(code, id));
      if next < |code| && code[next].UnconditionalJump? && code[next].id != id && HasLabel(code, code[next].id)
      then Some(code[next].id)
      else None
  }

  /** Behind the label `id` stand labels only, and then a jump to another label, `next`. */
  ghost predicate JumpsOn(code: seq<VirtualInstruction>, id: nat, next: nat) {
    HasLabel(code, id) && HasLabel(code, next) && next != id
    && exists j: nat :: AllLabels(code, Position(code, id), j) && j < |code| && code[j] == UnconditionalJump(next)
  }

  ghost function Thread(code: seq<VirtualInstruction>, id: nat, hops: nat): nat
    decreases hops
  {
    if hops == 0 || Hop(code, id).None? then id else Thread(code, Hop(code, id).value, hops - 1)
  }

  ghost predicate Threaded(code: seq<VirtualInstruction>, i: nat)
    requires i < |code|
  {
    code[i].IsJump() && HasLabel(code, code[i].id) ==> Thread(code, code[i].id, MAX_HOPS) == code[i].id
  }

  ghost predicate Referenced(code: seq<VirtualInstruction>, dead: seq<bool>, id: nat)
    requires |dead| == |code|
  {
    exists j :: 0 <= j < |code| && code[j].IsJump() && !dead[j] && code[j].id == id
  }

  function NoneDead(code: seq<VirtualInstruction>): seq<bool> {
    seq(|code|, _ => false)
  }

  /** Nothing left to clean up: every jump names a placed label, cannot be threaded and does not
      name the very next label; every label is named; nothing but a label follows a return or an
      unconditional jump. */
  ghost predicate Tidy(code: seq<VirtualInstruction>) {
    && (forall i :: 0 <= i < |code| && code[i].IsJump() ==>
          HasLabel(code, code[i].id) && Threaded(code, i) && !JumpsToNext(code, i))
    && (forall i :: 0 <= i < |code| && code[i].Label? ==> Referenced(code, NoneDead(code), code[i].id))
    && (forall i :: 0 < i < |code| && (code[i - 1].Return? || code[i - 1].UnconditionalJump?) ==> code[i].Label?)
  }

  /** Every surviving jump still names a label. */
  ghost predicate Closed(code: seq<VirtualInstruction>) {
    forall i :: 0 <= i < |code| && code[i].IsJump() ==> HasLabel(code, code[i].id)
  }

  lemma SameBehaviourTransitive(p: seq<VirtualInstruction>, q: seq<VirtualInstruction>, r: seq<VirtualInstruction>)
    requires SameBehaviour(p, q) && SameBehaviour(q, r)
    ensures SameBehaviour(p, r)
  {
    forall m: Machine, s: State, o: Observation
      ensures Reaches(m, p, s, o) <==> Reaches(m, r, s, o)
    {
      assert Reaches(m, p, s, o) <==> Reaches(m, q, s, o);
    }
  }

  lemma {:induction false} FirstNonLabelSpan(code: seq<VirtualInstruction>, i: nat)
    requires i <= |code|
    ensures AllLabels(code, i, FirstNonLabel(code, i))
    decreases |code| - i
  {
    if i < |code| && code[i].Label? {
      FirstNonLabelSpan(code, i + 1);
    }
  }

  lemma {:induction false} FirstNonLabelAt(code: seq<VirtualInstruction>, i: nat, j: nat)
    requires i <= j < |code| && AllLabels(code, i, j) && !code[j].Label?
    ensures FirstNonLabel(code, i) == j
    decreases j - i
  {
    if i < j {
      FirstNonLabelAt(code, i + 1, j);
    }
  }

  /** The label hopped to is the one jumped on to. */
  lemma HopsWhereJumpsLead(code: seq<VirtualInstruction>, id: nat, next: nat)
    ensures Hop(code, id) == Some(next) <==> JumpsOn(code, id, next)
  {
    if HasLabel(code, id) {
      var start := Position(code, id);
      FirstNonLabelSpan(code, start);
      if JumpsOn(code, id, next) {
        var j: nat :| AllLabels(code, start, j) && j < |code| && code[j] == UnconditionalJump(next);
        FirstNonLabelAt(code, start, j);
      }
    }
  }

  /** One hop is a silent stretch of the run. */
  lemma HopSkips(code: seq<VirtualInstruction>, id: nat) returns (k: nat)
    requires Hop(code, id).Some?
    ensures HasLabel(code, Hop(code, id).value)
    ensures Skips(code, Position(code, id), k, Position(code, Hop(code, id).value))
  {
    var start := Position(code, id);
    var next := FirstNonLabel(code, start);
    FirstNonLabelSpan(code, start);
    SkipsOverLabels(code, start, next);
    var onward := Position(code, Hop(code, id).value);
    assert Skips(code, onward, 0, onward);
    assert Skips(code, next, 1, onward);
    SkipsCompose(code, start, next - start, next, 1, onward);
    k := next - start + 1;
  }

  /** Following hops is a silent stretch too, as long as the hops followed. */
  lemma {:induction false} ThreadSkips(code: seq<VirtualInstruction>, id: nat, hops: nat) returns (k: nat)
    requires HasLabel(code, id)
    ensures HasLabel(code, Thread(code, id, hops))
    ensures Skips(code, Position(code, id), k, Position(code, Thread(code, id, hops)))
    ensures hops > 0 && Hop(code, id).Some? ==> k > 0
    decreases hops
  {
    if hops == 0 || Hop(code, id).None? {
      k := 0;
    } else {
      var onward := Hop(code, id).value;
      var first := HopSkips(code, id);
      var rest := ThreadSkips(code, onward, hops - 1);
      SkipsCompose(code, Position(code, id), first, Position(code, onward), rest,
                   Position(code, Thread(code, id, hops)));
      k := first + rest;
      if first == 0 {
        assert code[Position(code, id)] == Label(id) && code[Position(code, id)] == Label(onward);
      }
    }
  }

  lemma {:induction false} CircleDiverges(m: Machine, code: seq<VirtualInstruction>, pc: nat, k: nat, s: State,
                                         fuel: nat)
    requires k > 0 && Skips(code, pc, k, pc)
    ensures Run(m, code, pc, s, fuel) == Observation([], s, false)
    decreases fuel
  {
    RunSkips(m, code, pc, k, pc, s, fuel);
    if fuel > k {
      CircleDiverges(m, code, pc, k, s, fuel - k);
    }
  }

  /** A jump to a jump survives in tidy code only where control runs in circles: a run arriving
      there does nothing visible, and never ends. */
  lemma ThreadableJumpsDiverge(m: Machine, code: seq<VirtualInstruction>, i: nat, next: nat, s: State, fuel: nat)
    requires Tidy(code) && i < |code| && code[i].IsJump() && JumpsOn(code, code[i].id, next)
    ensures Run(m, code, Position(code, code[i].id), s, fuel) == Observation([], s, false)
  {
    var id := code[i].id;
    HopsWhereJumpsLead(code, id, next);
    assert Thread(code, id, MAX_HOPS) == id by {
      assert Threaded(code, i);
    }
    var k := ThreadSkips(code, id, MAX_HOPS);
    CircleDiverges(m, code, Position(code, id), k, s, fuel);
  }

  /** What tidy code looks like: jumps lead to labels that are placed, and past other instructions than
      labels; every label is named; a label follows what control does not pass. */
  lemma TidyCode(code: seq<VirtualInstruction>)
    requires Tidy(code)
    ensures forall i :: 0 <= i < |code| && code[i].IsJump() ==> Label(code[i].id) in code
    ensures forall i, j :: 0 <= i < j < |code| && code[i].IsJump() && code[j] == Label(code[i].id) ==>
              exists k :: i < k < j && !code[k].Label?
    ensures forall i :: 0 <= i < |code| && code[i].Label? ==>
              exists j :: 0 <= j < |code| && code[j].IsJump() && code[j].id == code[i].id
    ensures forall i :: 0 <= i < |code| - 1 && (code[i].Return? || code[i].UnconditionalJump?) ==> code[i + 1].Label?
  {
    forall i, j | 0 <= i < j < |code| && code[i].IsJump() && code[j] == Label(code[i].id)
      ensures exists k :: i < k < j && !code[k].Label?
    {
      assert !JumpsToNext(code, i);
      assert !AllLabels(code, i + 1, j);
    }
    forall i | 0 <= i < |code| && code[i].Label?
      ensures exists j :: 0 <= j < |code| && code[j].IsJump() && code[j].id == code[i].id
    {
      assert Referenced(code, NoneDead(code), code[i].id);
    }
  }

  // ----- where chains of jumps end -----

  /** At most `hops` jumps on from `id`, there is a label that does not jump on: `end`. */
  ghost predicate ChainEnds(code: seq<VirtualInstruction>, id: nat, hops: nat, end: nat)
    decreases hops
  {
    if Hop(code, id).None? then id == end else hops > 0 && ChainEnds(code, Hop(code, id).value, hops - 1, end)
  }

  /** Every label of the chain jumps on to the next, and the last one to none. */
  ghost predicate IsChain(code: seq<VirtualInstruction>, chain: seq<nat>)
    decreases |chain|
  {
    chain != []
    && if |chain| == 1 then forall next :: !JumpsOn(code, chain[0], next)
       else JumpsOn(code, chain[0], chain[1]) && IsChain(code, chain[1..])
  }

  lemma {:induction false} ChainsEnd(code: seq<VirtualInstruction>, chain: seq<nat>, hops: nat)
    requires IsChain(code, chain) && |chain| <= hops + 1
    ensures ChainEnds(code, chain[0], hops, chain[|chain| - 1])
    decreases |chain|
  {
    if |chain| == 1 {
      if Hop(code, chain[0]).Some? {
        HopsWhereJumpsLead(code, chain[0], Hop(code, chain[0]).value);
      }
    } else {
      HopsWhereJumpsLead(code, chain[0], chain[1]);
      ChainsEnd(code, chain[1..], hops - 1);
    }
  }

  lemma {:induction false} ThreadsToTheEnd(code: seq<VirtualInstruction>, id: nat, hops: nat, more: nat, end: nat)
    requires ChainEnds(code, id, hops, end) && hops <= more
    ensures Thread(code, id, more) == end && Hop(code, end).None?
    decreases hops
  {
    if Hop(code, id).Some? {
      ThreadsToTheEnd(code, Hop(code, id).value, hops - 1, more - 1, end);
    }
  }

  /** A jump that was moved on may be the one a label jumps on by. */
  lemma HopAfter(code: seq<VirtualInstruction>, i: nat, target: nat, id: nat)
    requires UniqueLabels(code) && i < |code| && code[i].IsJump() && HasLabel(code, code[i].id) && HasLabel(code, target)
    ensures var after := Retarget(code, i, target);
            Hop(after, id) == Hop(code, id)
            || (Hop(code, id) == Some(code[i].id) && Hop(after, id) == if target == id then None else Some(target))
            || (Hop(code, id).None? && id == code[i].id)
  {
    var after := Retarget(code, i, target);
    SameShapeLabels(code, after, id);
    if HasLabel(code, id) {
      var start := Position(code, id);
      SameFirstNonLabel(code, after, start);
      var next := FirstNonLabel(code, start);
      if next < |code| && code[next].UnconditionalJump? {
        SameShapeLabels(code, after, code[next].id);
        SameShapeLabels(code, after, target);
      }
    }
  }

  lemma {:induction false} SameFirstNonLabel(p: seq<VirtualInstruction>, q: seq<VirtualInstruction>, i: nat)
    requires SameShape(p, q) && i <= |p|
    ensures FirstNonLabel(p, i) == FirstNonLabel(q, i)
    decreases |p| - i
  {
    if i < |p| && p[i].Label? {
      SameFirstNonLabel(p, q, i + 1);
    }
  }

  /** Moving one jump on to the end of its chain moves no other end. */
  lemma {:induction false} EndsStay(code: seq<VirtualInstruction>, i: nat, id: nat, hops: nat, end: nat)
    requires UniqueLabels(code) && i < |code| && code[i].IsJump() && HasLabel(code, code[i].id)
    requires HasLabel(code, Thread(code, code[i].id, MAX_HOPS)) && Thread(code, code[i].id, MAX_HOPS) != code[i].id
    requires hops <= MAX_HOPS && ChainEnds(code, id, hops, end)
    ensures ChainEnds(Retarget(code, i, Thread(code, code[i].id, MAX_HOPS)), id, hops, end)
    decreases hops
  {
    hide Hop, Retarget;
    var target := Thread(code, code[i].id, MAX_HOPS);
    HopAfter(code, i, target, id);
    if Hop(code, id).Some? {
      EndsStay(code, i, Hop(code, id).value, hops - 1, end);
      if Hop(code, id).value == code[i].id {
        ThreadsToTheEnd(code, code[i].id, hops - 1, MAX_HOPS, end);
        HopAfter(code, i, target, end);
      }
    }
  }

  // ----- the loops -----

  ghost predicate Positions(code: seq<VirtualInstruction>, position: map<nat, nat>) {
    (forall id: nat :: id in position <==> HasLabel(code, id))
    && (forall id: nat :: id in position ==> position[id] < |code| && code[position[id]] == Label(id))
  }

  method LabelPositions(code: seq<VirtualInstruction>) returns (position: map<nat, nat>)
    ensures Positions(code, position)
  {
    position := map[];
    for i := 0 to |code|
      invariant forall id: nat :: id in position <==> Label(id) in code[..i]
      invariant forall id: nat :: id in position ==> position[id] < i && code[position[id]] == Label(id)
    {
      if code[i].Label? {
        position := position[code[i].id := i];
      }
      assert code[..i + 1] == code[..i] + [code[i]];
    }
    assert code[..|code|] == code;
  }

  method SkipLabels(code: seq<VirtualInstruction>, start: nat) returns (i: nat)
    requires start <= |code|
    ensures i == FirstNonLabel(code, start)
  {
    i := start;
    while i < |code| && code[i].Label?
      invariant start <= i <= |code|
      invariant FirstNonLabel(code, i) == FirstNonLabel(code, start)
    {
      i := i + 1;
    }
  }

  lemma PositionFound(code: seq<VirtualInstruction>, position: map<nat, nat>, id: nat)
    requires UniqueLabels(code) && Positions(code, position) && HasLabel(code, id)
    ensures id in position && position[id] == Position(code, id)
    ensures forall other: nat :: other in position <==> HasLabel(code, other)
  {
    PositionUnique(code, position[id]);
  }

  lemma HasPosition(code: seq<VirtualInstruction>, position: map<nat, nat>, id: nat)
    requires Positions(code, position)
    ensures id in position <==> HasLabel(code, id)
  {
  }

  lemma HavePositions(code: seq<VirtualInstruction>, position: map<nat, nat>)
    requires Positions(code, position)
    ensures forall id: nat :: id in position <==> HasLabel(code, id)
  {
  }

  lemma StaysPut(code: seq<VirtualInstruction>, at: nat) returns (k: nat)
    ensures Skips(code, at, k, at)
  {
    k := 0;
  }

  /** One hop further along a skip. */
  lemma HopFurther(code: seq<VirtualInstruction>, original: nat, k: nat, target: nat) returns (further: nat)
    requires UniqueLabels(code) && HasLabel(code, original) && HasLabel(code, target) && Hop(code, target).Some?
    requires Skips(code, Position(code, original), k, Position(code, target))
    ensures HasLabel(code, Hop(code, target).value)
    ensures Skips(code, Position(code, original), further, Position(code, Hop(code, target).value))
  {
    var more := HopSkips(code, target);
    var onward := Hop(code, target).value;
    SkipsCompose(code, Position(code, original), k, Position(code, target), more, Position(code, onward));
    further := k + more;
  }

  /** Follows a jump to `original` for at most 32 hops. */
  method FollowJumps(code: seq<VirtualInstruction>, position: map<nat, nat>, original: nat)
    returns (target: nat, ghost k: nat)
    requires UniqueLabels(code) && HasLabel(code, original) && Positions(code, position)
    ensures target == Thread(code, original, MAX_HOPS) && HasLabel(code, target)
    ensures Skips(code, Position(code, original), k, Position(code, target))
  {
    hide Positions, UniqueLabels, Skips;
    target := original;
    k := StaysPut(code, Position(code, original));
    var hops := 0;
    while hops < MAX_HOPS
      invariant hops <= MAX_HOPS && HasLabel(code, target)
      invariant Thread(code, target, MAX_HOPS - hops) == Thread(code, original, MAX_HOPS)
      invariant Skips(code, Position(code, original), k, Position(code, target))
    {
      PositionFound(code, position, target);
      var next := SkipLabels(code, position[target]);
      if next >= |code| || !code[next].UnconditionalJump? {
        break;
      }
      var onward := code[next].id;
      if onward == target || onward !in position {
        break;
      }
      k := HopFurther(code, original, k, target);
      target := onward;
      hops := hops + 1;
    }
  }

  /** What rewriting jump targets keeps. */
  ghost predicate Rewritten(p: seq<VirtualInstruction>, q: seq<VirtualInstruction>) {
    SameShape(p, q) && SameBehaviour(p, q)
  }

  lemma RewrittenTransitive(p: seq<VirtualInstruction>, q: seq<VirtualInstruction>, r: seq<VirtualInstruction>)
    requires Rewritten(p, q) && Rewritten(q, r)
    ensures Rewritten(p, r)
  {
    SameBehaviourTransitive(p, q, r);
  }

  lemma RetargetRewrites(code: seq<VirtualInstruction>, position: map<nat, nat>, i: nat, id: nat, k: nat)
    requires Positions(code, position) && Redirectable(code, i, id, k)
    ensures var next := Retarget(code, i, id);
            Rewritten(code, next) && UniqueLabels(next) && Positions(next, position)
  {
    var next := Retarget(code, i, id);
    RetargetPreserves(code, i, id, k);
    forall j: nat
      ensures HasLabel(next, j) == HasLabel(code, j)
    {
      SameShapeLabels(code, next, j);
    }
    SameShapeLabels(code, next, id);
  }

  /** Chains that end within the greatest number of hops end where they did. */
  ghost predicate EndsKept(original: seq<VirtualInstruction>, code: seq<VirtualInstruction>) {
    forall id: nat, end: nat :: ChainEnds(original, id, 32, end) ==> ChainEnds(code, id, 32, end)
  }

  /** The first `n` jumps go to the ends of their chains, if these are near enough. */
  ghost predicate EndsReached(original: seq<VirtualInstruction>, code: seq<VirtualInstruction>, n: nat)
    requires n <= |code| == |original|
  {
    forall j, end: nat ::
      0 <= j < n && original[j].IsJump() && HasLabel(original, original[j].id) && ChainEnds(original, original[j].id, 32, end)
      ==> code[j].IsJump() && code[j].id == end
  }

  lemma NoneReached(code: seq<VirtualInstruction>)
    ensures Rewritten(code, code) && EndsKept(code, code) && EndsReached(code, code, 0)
  {
  }

  lemma NothingToReach(original: seq<VirtualInstruction>, code: seq<VirtualInstruction>, i: nat)
    requires Rewritten(original, code) && UniqueLabels(original) && i < |code| && code[i] == original[i]
    requires EndsReached(original, code, i) && !(code[i].IsJump() && HasLabel(code, code[i].id))
    ensures EndsReached(original, code, i + 1) && Threaded(original, i)
  {
    hide ChainEnds, SameBehaviour;
    if code[i].IsJump() {
      SameShapeLabels(original, code, code[i].id);
    }
  }

  /** A jump whose label starts a chain of at most 32 hops goes to the end of the chain at once. */
  lemma ChainIsReached(original: seq<VirtualInstruction>, code: seq<VirtualInstruction>, i: nat, chain: seq<nat>)
    requires |code| == |original| && EndsReached(original, code, |code|) && i < |code| && original[i].IsJump()
    requires IsChain(original, chain) && |chain| <= 33 && HasLabel(original, chain[0]) && original[i].id == chain[0]
    ensures code[i].IsJump() && code[i].id == chain[|chain| - 1]
  {
    ChainsEnd(original, chain, 32);
  }

  lemma EndIsReached(original: seq<VirtualInstruction>, code: seq<VirtualInstruction>, i: nat,
                     next: seq<VirtualInstruction>, moved: bool)
    requires |code| == |original| == |next| && UniqueLabels(code) && i < |code| && code[i] == original[i]
    requires code[i].IsJump() && HasLabel(code, code[i].id) && EndsKept(original, code) && EndsReached(original, code, i)
    requires next[i].IsJump() && next[i].id == Thread(code, code[i].id, MAX_HOPS)
    requires HasLabel(code, Thread(code, code[i].id, MAX_HOPS)) && (moved <==> next[i].id != code[i].id)
    requires next == if moved then Retarget(code, i, Thread(code, code[i].id, MAX_HOPS)) else code
    ensures EndsKept(original, next) && EndsReached(original, next, i + 1)
  {
    hide Thread, ChainEnds, UniqueLabels;
    forall id: nat, end: nat | ChainEnds(original, id, MAX_HOPS, end)
      ensures ChainEnds(next, id, MAX_HOPS, end)
    {
      if moved {
        EndsStay(code, i, id, MAX_HOPS, end);
      }
    }
    forall end: nat | ChainEnds(original, original[i].id, MAX_HOPS, end)
      ensures next[i].id == end
    {
      ThreadsToTheEnd(code, original[i].id, MAX_HOPS, MAX_HOPS, end);
    }
  }

  /** Threads the jump at `i`. */
  method ThreadJump(code: seq<VirtualInstruction>, position: map<nat, nat>, i: nat)
    returns (next: seq<VirtualInstruction>, moved: bool)
    requires UniqueLabels(code) && Positions(code, position)
    requires i < |code| && code[i].IsJump() && HasLabel(code, code[i].id)
    ensures Rewritten(code, next) && UniqueLabels(next) && Positions(next, position) && |next| == |code|
    ensures forall j :: 0 <= j < |code| && j != i ==> next[j] == code[j]
    ensures next[i].IsJump() && HasLabel(next, next[i].id)
    ensures moved <==> !Threaded(code, i)
    ensures if moved then next[i] != code[i] else next == code
    ensures next[i].id == Thread(code, code[i].id, MAX_HOPS) && HasLabel(code, next[i].id)
    ensures moved <==> next[i].id != code[i].id
    ensures next == if moved then Retarget(code, i, Thread(code, code[i].id, MAX_HOPS)) else code
  {
    var target, k := FollowJumps(code, position, code[i].id);
    moved := target != code[i].id;
    next := code;
    if moved {
      next := Retarget(code, i, target);
      RetargetRewrites(code, position, i, target, k);
      assert HasLabel(next, target) by {
        SameShapeLabels(code, next, target);
      }
    }
  }

  method ThreadJumps(original: seq<VirtualInstruction>)
    returns (code: seq<VirtualInstruction>, dead: seq<bool>, changed: bool, ghost first: nat)
    requires UniqueLabels(original)
    ensures Rewritten(original, code) && UniqueLabels(code) && |dead| == |code|
    ensures forall i :: 0 <= i < |code| ==> (dead[i] <==> code[i].IsJump() && !HasLabel(code, code[i].id))
    ensures !changed ==> code == original && forall i :: 0 <= i < |original| ==> Threaded(original, i)
    ensures changed ==> first < |original| && !Threaded(original, first) && code[first] != original[first]
    ensures |code| == |original| && EndsReached(original, code, |code|)
  {
    hide Thread, Threaded, EndsKept, EndsReached, UniqueLabels, Rewritten, Retarget, Positions, HasLabel;
    NoneReached(original);
    code := original;
    changed, first := false, 0;
    dead := seq(|code|, _ => false);
    var position := LabelPositions(code);
    for i := 0 to |code|
      invariant |code| == |original| == |dead|
      invariant Rewritten(original, code) && UniqueLabels(code) && Positions(code, position)
      invariant forall j :: 0 <= j < i ==> (dead[j] <==> code[j].IsJump() && code[j].id !in position)
      invariant forall j :: i <= j < |code| ==> !dead[j]
      invariant !changed ==> code == original && forall j :: 0 <= j < i ==> Threaded(original, j)
      invariant changed ==> first < i && !Threaded(original, first) && code[first] != original[first]
      invariant forall j :: i <= j < |code| ==> code[j] == original[j]
      invariant EndsKept(original, code) && EndsReached(original, code, i)
    {
      if !code[i].IsJump() {
        NothingToReach(original, code, i);
        continue;
      }
      HasPosition(code, position, code[i].id);
      if code[i].id !in position {
        dead := dead[i := true];
        NothingToReach(original, code, i);
        continue;
      }
      var next, moved := ThreadJump(code, position, i);
      RewrittenTransitive(original, code, next);
      EndIsReached(original, code, i, next, moved);
      if moved && !changed {
        first := i;
      }
      code := next;
      changed := changed || moved;
    }
    HavePositions(code, position);
  }

  method MarkJumpsToNextLabel(code: seq<VirtualInstruction>, undefined: seq<bool>) returns (dead: seq<bool>)
    requires |undefined| == |code|
    ensures |dead| == |code|
    ensures forall i :: 0 <= i < |code| ==> (dead[i] <==> undefined[i] || JumpsToNext(code, i))
  {
    dead := undefined;
    for i := 0 to |code|
      invariant |dead| == |code|
      invariant forall j :: 0 <= j < i ==> (dead[j] <==> undefined[j] || JumpsToNext(code, j))
      invariant forall j :: i <= j < |code| ==> dead[j] == undefined[j]
    {
      if !code[i].IsJump() || dead[i] {
        continue;
      }
      var j := i + 1;
      while j < |code| && code[j].Label?
        invariant i < j <= |code| && AllLabels(code, i + 1, j)
        invariant |dead| == |code| && !dead[i]
        invariant forall k :: 0 <= k < i ==> (dead[k] <==> undefined[k] || JumpsToNext(code, k))
        invariant forall k :: i <= k < |code| ==> dead[k] == undefined[k]
        invariant forall k :: i < k < j ==> code[k] != Label(code[i].id)
      {
        if code[j].id == code[i].id {
          break;
        }
        j := j + 1;
      }
      if j < |code| && code[j].Label? {
        assert code[j] == Label(code[i].id);
        assert JumpsToNext(code, i);
        dead := dead[i := true];
      } else {
        assert !JumpsToNext(code, i);
      }
    }
  }

  method CountReferences(code: seq<VirtualInstruction>, dead: seq<bool>) returns (references: map<nat, nat>)
    requires |dead| == |code|
    ensures forall id: nat :: id in references <==> Referenced(code, dead, id)
  {
    references := map[];
    for i := 0 to |code|
      invariant forall id: nat :: id in references <==>
                  exists j :: 0 <= j < i && code[j].IsJump() && !dead[j] && code[j].id == id
    {
      if !dead[i] && code[i].IsJump() {
        var id := code[i].id;
        references := references[id := (if id in references then references[id] else 0) + 1];
      }
    }
  }

  lemma {:induction false} UnreachableFrame(code: seq<VirtualInstruction>, d: seq<bool>, e: seq<bool>, i: nat)
    requires i <= |code| == |d| == |e| && d[..i] == e[..i]
    ensures Unreachable(code, d, i) == Unreachable(code, e, i)
    decreases i
  {
    if i > 0 {
      assert d[i - 1] == d[..i][i - 1] == e[..i][i - 1] == e[i - 1];
      assert d[..i - 1] == d[..i][..i - 1] == e[..i][..i - 1] == e[..i - 1];
      UnreachableFrame(code, d, e, i - 1);
    }
  }

  method MarkUnreachable(code: seq<VirtualInstruction>, useless: seq<bool>, references: map<nat, nat>)
    returns (dead: seq<bool>)
    requires |useless| == |code|
    requires forall i :: 0 <= i < |code| && code[i].Label? ==> !useless[i]
    ensures |dead| == |code|
    ensures forall i :: 0 <= i < |code| ==>
              (dead[i] <==> if code[i].Label? then code[i].id !in references
                            else useless[i] || Unreachable(code, dead, i))
  {
    dead := useless;
    var unreachable := false;
    for i := 0 to |code|
      invariant |dead| == |code|
      invariant unreachable == Unreachable(code, dead, i)
      invariant forall j :: i <= j < |code| ==> dead[j] == useless[j]
      invariant forall j :: 0 <= j < i ==>
                  (dead[j] <==> if code[j].Label? then code[j].id !in references
                                else useless[j] || Unreachable(code, dead, j))
    {
      ghost var before := dead;
      if code[i].Label? {
        if code[i].id !in references {
          dead := dead[i := true];
        } else {
          unreachable := false;
        }
      } else {
        if unreachable {
          dead := dead[i := true];
        }
        if !dead[i] && (code[i].Return? || code[i].UnconditionalJump?) {
          unreachable := true;
        }
      }
      forall j: nat | j <= i
        ensures Unreachable(code, dead, j) == Unreachable(code, before, j)
      {
        assert dead[..j] == before[..j];
        UnreachableFrame(code, dead, before, j);
      }
    }
  }

  method Compact(original: seq<VirtualInstruction>, dead: seq<bool>)
    returns (code: seq<VirtualInstruction>, changed: bool)
    requires |dead| == |original|
    ensures code == Remaining(original, dead)
    ensures changed <==> exists i :: 0 <= i < |dead| && dead[i]
  {
    code := original;
    changed := false;
    var write := 0;
    for read := 0 to |code|
      invariant |code| == |original| && write <= read
      invariant code[..write] == Survivors(original, dead, read)
      invariant code[read..] == original[read..]
      invariant changed <==> exists i :: 0 <= i < read && dead[i]
    {
      assert code[read] == code[read..][0] == original[read];
      if dead[read] {
        changed := true;
      } else {
        ghost var before := code;
        if write != read {
          code := code[write := code[read]];
        }
        assert code[..write + 1] == before[..write] + [original[read]];
        write := write + 1;
      }
      assert code[read + 1..] == original[read..][1..];
    }
    code := code[..write];
  }

  // ----- one pass -----

  /** With every dead mark clear, unreachable code is whatever follows a return or jump. */
  lemma {:induction false} ReachableWhenTidy(code: seq<VirtualInstruction>, i: nat)
    requires i <= |code| && Tidy(code)
    ensures Unreachable(code, NoneDead(code), i) ==> i == |code| || code[i].Label?
    decreases i
  {
    if i > 0 {
      ReachableWhenTidy(code, i - 1);
    }
  }

  /** The marks a pass makes when nothing was threaded. */
  ghost predicate Marks(code: seq<VirtualInstruction>, dead: seq<bool>) {
    |dead| == |code|
    && forall i :: 0 <= i < |code| ==>
         (dead[i] <==>
           if code[i].Label? then !exists j :: 0 <= j < |code| && NamesLabel(code, j, code[i].id)
           else Useless(code, i) || Unreachable(code, dead, i))
  }

  ghost predicate Useless(code: seq<VirtualInstruction>, i: nat)
    requires i < |code|
  {
    code[i].IsJump() && (!HasLabel(code, code[i].id) || JumpsToNext(code, i))
  }

  /** The jump at `j` names `id` and does something. */
  ghost predicate NamesLabel(code: seq<VirtualInstruction>, j: nat, id: nat)
    requires j < |code|
  {
    code[j].IsJump() && code[j].id == id && !Useless(code, j)
  }

  lemma MarksAreDeletable(code: seq<VirtualInstruction>, dead: seq<bool>)
    requires UniqueLabels(code) && Marks(code, dead)
    ensures Deletable(code, dead)
  {
    forall i | 0 <= i < |code| && code[i].IsJump() && !dead[i]
      ensures LiveLabel(code, dead, code[i].id)
    {
      assert NamesLabel(code, i, code[i].id);
    }
  }

  lemma TidyMeansUnmarked(code: seq<VirtualInstruction>, dead: seq<bool>, i: nat)
    requires Tidy(code) && Marks(code, dead) && i < |code| && dead[..i] == NoneDead(code)[..i]
    ensures !dead[i]
  {
    if code[i].Label? {
      assert Referenced(code, NoneDead(code), code[i].id);
      var j :| 0 <= j < |code| && code[j].IsJump() && code[j].id == code[i].id;
      assert NamesLabel(code, j, code[i].id);
    } else {
      UnreachableFrame(code, dead, NoneDead(code), i);
      ReachableWhenTidy(code, i);
    }
  }

  lemma {:induction false} TidyMeansNoMarks(code: seq<VirtualInstruction>, dead: seq<bool>, n: nat)
    requires Tidy(code) && Marks(code, dead) && n <= |code|
    ensures dead[..n] == NoneDead(code)[..n]
    decreases n
  {
    if n > 0 {
      TidyMeansNoMarks(code, dead, n - 1);
      TidyMeansUnmarked(code, dead, n - 1);
      assert dead[..n] == dead[..n - 1] + [dead[n - 1]];
    }
  }

  lemma NoMarksMeansTidy(code: seq<VirtualInstruction>, dead: seq<bool>)
    requires Marks(code, dead) && dead == NoneDead(code)
    requires forall i :: 0 <= i < |code| ==> Threaded(code, i)
    ensures Tidy(code)
  {
    forall i | 0 <= i < |code| && code[i].Label?
      ensures Referenced(code, NoneDead(code), code[i].id)
    {
      var j :| 0 <= j < |code| && NamesLabel(code, j, code[i].id);
    }
    forall i | 0 < i < |code| && (code[i - 1].Return? || code[i - 1].UnconditionalJump?)
      ensures code[i].Label?
    {
      assert Unreachable(code, dead, i);
    }
  }

  method Pass(original: seq<VirtualInstruction>) returns (code: seq<VirtualInstruction>, changed: bool)
    requires UniqueLabels(original)
    ensures UniqueLabels(code) && Closed(code)
    ensures SameBehaviour(original, code)
    ensures |code| <= |original|
    ensures !changed <==> code == original
    ensures changed <==> !Tidy(original)
  {
    var threaded, undefined, moved, first := ThreadJumps(original);
    var useless := MarkJumpsToNextLabel(threaded, undefined);
    var references := CountReferences(threaded, useless);
    var dead := MarkUnreachable(threaded, useless, references);
    MarksMade(threaded, useless, references, dead);
    var deleted;
    code, deleted := Compact(threaded, dead);
    changed := moved || deleted;
    PassPreserves(original, threaded, dead);
    PassSettles(original, threaded, dead, moved, deleted);
  }

  lemma MarksMade(code: seq<VirtualInstruction>, useless: seq<bool>, references: map<nat, nat>, dead: seq<bool>)
    requires |useless| == |dead| == |code|
    requires forall i :: 0 <= i < |code| ==> (useless[i] <==> Useless(code, i))
    requires forall id: nat :: id in references <==> Referenced(code, useless, id)
    requires forall i :: 0 <= i < |code| ==>
               (dead[i] <==> if code[i].Label? then code[i].id !in references
                             else useless[i] || Unreachable(code, dead, i))
    ensures Marks(code, dead)
  {
    forall id: nat
      ensures id in references <==> exists j :: 0 <= j < |code| && NamesLabel(code, j, id)
    {
      if id in references {
        var j :| 0 <= j < |code| && code[j].IsJump() && !useless[j] && code[j].id == id;
        assert NamesLabel(code, j, id);
      }
    }
  }

  lemma PassPreserves(original: seq<VirtualInstruction>, threaded: seq<VirtualInstruction>, dead: seq<bool>)
    requires Rewritten(original, threaded)
    requires UniqueLabels(threaded) && Marks(threaded, dead)
    ensures SameBehaviour(original, Remaining(threaded, dead))
    ensures UniqueLabels(Remaining(threaded, dead)) && Closed(Remaining(threaded, dead))
    ensures |Remaining(threaded, dead)| <= |original|
  {
    MarksAreDeletable(threaded, dead);
    DeletePreserves(threaded, dead);
    SameBehaviourTransitive(original, threaded, Remaining(threaded, dead));
    RemainingLabels(threaded, dead);
    RemainingClosed(threaded, dead);
    SurvivorsPrefix(threaded, dead, 0, |threaded|);
  }

  /** A pass moves or deletes something exactly when the code is not tidy, and then it differs. */
  lemma PassSettles(original: seq<VirtualInstruction>, threaded: seq<VirtualInstruction>, dead: seq<bool>,
                    moved: bool, deleted: bool)
    requires |threaded| == |original| && Marks(threaded, dead)
    requires !moved <==> threaded == original
    requires moved <==> exists i :: 0 <= i < |original| && !Threaded(original, i)
    requires deleted <==> exists i :: 0 <= i < |dead| && dead[i]
    ensures (moved || deleted) <==> !Tidy(original)
    ensures (moved || deleted) <==> Remaining(threaded, dead) != original
  {
    if deleted {
      SomeDeleted(threaded, dead);
    } else {
      AllSurvive(threaded, dead, |threaded|);
    }
    if !moved && !deleted {
      assert dead == NoneDead(original);
      NoMarksMeansTidy(original, dead);
    }
    if Tidy(original) {
      assert !moved by {
        assert forall i :: 0 <= i < |original| ==> Threaded(original, i);
      }
      TidyMeansNoMarks(original, dead, |original|);
      assert dead == dead[..|original|] == NoneDead(original);
    }
  }

  lemma {:induction false} AllSurvive(code: seq<VirtualInstruction>, dead: seq<bool>, n: nat)
    requires |dead| == |code| && n <= |code| && forall i :: 0 <= i < |dead| ==> !dead[i]
    ensures Survivors(code, dead, n) == code[..n]
    decreases n
  {
    if n > 0 {
      AllSurvive(code, dead, n - 1);
    }
  }

  lemma SomeDeleted(code: seq<VirtualInstruction>, dead: seq<bool>)
    requires |dead| == |code| && exists i :: 0 <= i < |dead| && dead[i]
    ensures |Remaining(code, dead)| < |code|
  {
    var i :| 0 <= i < |dead| && dead[i];
    SurvivorsPrefix(code, dead, 0, i);
    SurvivorsPrefix(code, dead, i + 1, |code|);
  }

  lemma RemainingClosed(code: seq<VirtualInstruction>, dead: seq<bool>)
    requires Deletable(code, dead)
    ensures Closed(Remaining(code, dead))
  {
    var rest := Remaining(code, dead);
    forall q | 0 <= q < |rest| && rest[q].IsJump()
      ensures HasLabel(rest, rest[q].id)
    {
      var i := SurvivorOrigin(code, dead, |code|, q);
      RemainingPosition(code, dead, rest[q].id);
    }
  }
}
