/** The functions a body mentions, and the places in the table where its instructions find them. */
module FunctionTable {
  import opened Options
  import opened VirtualCode
  import opened Ssa
  import opened PseudoAssembly
  import opened ReferenceCounts
  import opened BodyTranslation
  import opened BodyLayout

  // ----- the table -----

  /** The function a node mentions: the one it calls, or the one it is a parameter of. */
  ghost predicate Mentions(node: Node, f: nat) {
    (node.CallNode? && node.callee == f) || (node.ParameterNode? && node.scope == f)
  }

  /** The table grows behind its entries. */
  lemma {:induction false} TableGrows(body: seq<Node>, m: nat, n: nat)
    requires m <= n <= |body|
    ensures FunctionsUsed(body, m) <= FunctionsUsed(body, n)
    decreases n
  {
    if m < n {
      TableGrows(body, m, n - 1);
    }
  }

  lemma OneMoreMentioned(body: seq<Node>, n: nat)
    requires 0 < n <= |body|
    ensures forall f :: f in FunctionsUsed(body, n) <==> f in FunctionsUsed(body, n - 1) || Mentions(body[n - 1], f)
  {
  }

  /** The table holds just the functions that are mentioned, each once. */
  lemma {:induction false} TableHolds(body: seq<Node>, n: nat)
    requires n <= |body|
    ensures forall f :: f in FunctionsUsed(body, n) <==> exists i :: 0 <= i < n && Mentions(body[i], f)
    ensures forall j, k :: 0 <= j < k < |FunctionsUsed(body, n)| ==> FunctionsUsed(body, n)[j] != FunctionsUsed(body, n)[k]
    decreases n
  {
    if n > 0 {
      TableHolds(body, n - 1);
      OneMoreMentioned(body, n);
    }
  }

  /** What a node mentions is found in the table where the node's instructions say. */
  lemma FoundInTable(body: seq<Node>, i: nat, f: nat)
    requires i < |body| && Mentions(body[i], f)
    ensures var table, k := FunctionsUsed(body, |body|), IndexIn(FunctionsUsed(body, i), f);
            k < |table| && table[k] == f
  {
    IndexFinds(FunctionsUsed(body, i), f);
    TableGrows(body, i + 1, |body|);
    assert FunctionsUsed(body, i + 1)[IndexIn(FunctionsUsed(body, i), f)] == f;
  }

  // ----- the instructions -----

  lemma {:induction false} ArgumentsInOrder(index: nat, arguments: seq<nat>, next: nat, regs: map<nat, nat>)
    ensures |Passing(index, arguments, next, regs)| == |arguments|
    ensures forall j :: 0 <= j < |arguments| ==>
              Passing(index, arguments, next, regs)[j] == Plain(PassArgument, [index, At(regs, arguments[j]), next + j])
    decreases |arguments|
  {
    hide At;
    if arguments != [] {
      ArgumentsInOrder(index, arguments[1..], next + 1, regs);
      var first, rest := Plain(PassArgument, [index, At(regs, arguments[0]), next]), Passing(index, arguments[1..], next + 1, regs);
      assert Passing(index, arguments, next, regs) == [first] + rest;
      forall j | 0 < j < |arguments|
        ensures ([first] + rest)[j] == Plain(PassArgument, [index, At(regs, arguments[j]), next + j])
      {
        assert ([first] + rest)[j] == rest[j - 1] && arguments[1..][j - 1] == arguments[j];
      }
    }
  }

  /** A call is translated to its arguments, each with its register and its number, and the call itself, and all
      of them name the place of the callee in the table. */
  lemma CallsFindTheirFunctions(body: seq<Node>, i: nat) returns (k: nat)
    requires i < |body| && body[i].CallNode?
    ensures k < |FunctionsUsed(body, |body|)| && FunctionsUsed(body, |body|)[k] == body[i].callee
    ensures var at, count := Offset(body, i), |body[i].arguments|;
            at + count < |Translation(body)|
            && (forall j :: 0 <= j < count ==>
                  Translation(body)[at + j] == Plain(PassArgument, [k, At(Registers(body), body[i].arguments[j]), j]))
            && Translation(body)[at + count]
               == if body[i].callResult.None? then Plain(Call, [k])
                  else Plain(CallWithResult, [At(Registers(body), body[i].callResult.value.index), k])
  {
    hide Registers, FunctionsUsed, Translation, Offset, Labels;
    k := IndexIn(FunctionsUsed(body, i), body[i].callee);
    FoundInTable(body, i, body[i].callee);
    ArgumentsInOrder(k, body[i].arguments, 0, Registers(body));
    ChunkInPlace(body, i);
    var chunk, at, count := Chunk(body, i, Registers(body), Labels(body)), Offset(body, i), |body[i].arguments|;
    assert |chunk| == count + 1 && Translation(body)[at + count] == chunk[count];
    forall j | 0 <= j < count
      ensures Translation(body)[at + j] == Plain(PassArgument, [k, At(Registers(body), body[i].arguments[j]), j])
    {
      assert Translation(body)[at + j] == chunk[j];
    }
  }

  /** A parameter is copied from the function it belongs to. */
  lemma ParametersFindTheirFunction(body: seq<Node>, i: nat) returns (k: nat)
    requires i < |body| && body[i].ParameterNode?
    ensures k < |FunctionsUsed(body, |body|)| && FunctionsUsed(body, |body|)[k] == body[i].scope
    ensures Offset(body, i) < |Translation(body)|
    ensures Translation(body)[Offset(body, i)]
         == Plain(CopyParameter, [k, At(Registers(body), body[i].register.index), body[i].index])
  {
    hide Registers, FunctionsUsed, Translation, Offset, Labels;
    k := IndexIn(FunctionsUsed(body, i), body[i].scope);
    FoundInTable(body, i, body[i].scope);
    ChunkInPlace(body, i);
    var chunk := Chunk(body, i, Registers(body), Labels(body));
    assert |chunk| == 1 && Translation(body)[Offset(body, i) + 0] == chunk[0];
  }
}
