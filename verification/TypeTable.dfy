/** The table of types: a request is answered with the type that was made for an equal request before. */
module TypeTable {
  import opened Options

  datatype Kind = Fundamental | Compound | Error
  datatype Signedness = Signed | Unsigned
  datatype ReferenceKind = LValue | RValue

  /** What is asked for; other types are known by their objects. */
  datatype Data =
    | VoidRequest
    | IntegerRequest(size: nat, signedness: Signedness, isCharWithoutSign: bool)
    | ArrayRequest(element: nat, count: nat)
    | PointerRequest(element: nat)
    | ReferenceRequest(element: nat, reference: ReferenceKind)
    | PlatformIntegerRequest(platform: nat)
    | BooleanRequest
    | ClassRequest(id: nat)
    | InvalidRequest(suggested: Option<TypeRequest>)

  datatype TypeRequest = TypeRequest(kind: Kind, qualifiers: nat, data: Data)

  /** Requests for types, and requests that failed with a suggestion of one. */
  predicate Askable(r: TypeRequest) {
    if r.kind == Error then r.data.InvalidRequest? && (r.data.suggested.Some? ==> Askable(r.data.suggested.value))
    else !r.data.InvalidRequest?
  }

  /** The request that is answered: a failed one stands for its suggestion. */
  function Meant(r: TypeRequest): (m: Option<TypeRequest>)
    requires Askable(r)
    ensures m.Some? ==> m.value.kind != Error && Askable(m.value)
  {
    if r.kind != Error then Some(r) else if r.data.suggested.None? then None else Meant(r.data.suggested.value)
  }

  /** A request for a type, after `failures` requests that failed with a suggestion. */
  ghost predicate Suggests(r: TypeRequest, failures: nat, meant: TypeRequest)
    decreases failures
  {
    if failures == 0 then r == meant
    else
      r.kind == Error && r.data.InvalidRequest? && r.data.suggested.Some?
      && Suggests(r.data.suggested.value, failures - 1, meant)
  }

  /** A request for a type means itself, and a failed one what its suggestions come to. */
  lemma {:induction false} MeansItself(r: TypeRequest, failures: nat, meant: TypeRequest)
    requires Askable(r) && meant.kind != Error && Suggests(r, failures, meant)
    ensures Meant(r) == Some(meant)
    decreases failures
  {
    if failures > 0 {
      MeansItself(r.data.suggested.value, failures - 1, meant);
    }
  }

  // ----- equality and hash -----

  /** Field by field, each alternative with its own fields. */
  predicate Equals(x: TypeRequest, y: TypeRequest) {
    x.kind == y.kind && x.qualifiers == y.qualifiers
    && match x.data
       case IntegerRequest(size, signedness, plain) =>
         y.data.IntegerRequest? && plain == y.data.isCharWithoutSign && signedness == y.data.signedness && size == y.data.size
       case ArrayRequest(element, count) => y.data.ArrayRequest? && element == y.data.element && count == y.data.count
       case PointerRequest(element) => y.data.PointerRequest? && element == y.data.element
       case ReferenceRequest(element, reference) =>
         y.data.ReferenceRequest? && element == y.data.element && reference == y.data.reference
       case VoidRequest => y.data.VoidRequest?
       case BooleanRequest => y.data.BooleanRequest?
       case PlatformIntegerRequest(platform) => y.data.PlatformIntegerRequest? && platform == y.data.platform
       case ClassRequest(id) => y.data.ClassRequest? && id == y.data.id
       case InvalidRequest(_) => false
  }

  /** One more value in a hash of 64 bits. */
  function Mix(seed: bv64, hash: bv64): bv64 {
    seed ^ (hash + 0x9e3779b97f4a7c15 + (seed << 6) + (seed >> 2))
  }

  function MixAll(seed: bv64, values: seq<nat>, standard: nat -> bv64): bv64
    decreases |values|
  {
    if values == [] then seed else MixAll(Mix(seed, standard(values[0])), values[1..], standard)
  }

  function Code(k: Kind): nat {
    match k
    case Compound => 0
    case Fundamental => 1
    case Error => 2
  }

  function Flag(b: bool): nat {
    if b then 1 else 0
  }

  /** The alternative of a request and its fields. */
  function Parts(d: Data): seq<nat> {
    match d
    case VoidRequest => [0]
    case IntegerRequest(size, signedness, plain) => [1, size, Flag(signedness == Unsigned), Flag(plain)]
    case ArrayRequest(element, count) => [2, element, count]
    case PointerRequest(element) => [3, element]
    case ReferenceRequest(element, reference) => [4, element, Flag(reference == RValue)]
    case PlatformIntegerRequest(platform) => [5, platform]
    case BooleanRequest => [6]
    case ClassRequest(id) => [7, id]
    case InvalidRequest(_) => [8]
  }

  function Hash(r: TypeRequest, standard: nat -> bv64): bv64 {
    MixAll(0, [Code(r.kind), r.qualifiers] + Parts(r.data), standard)
  }

  /** Requests for types are equal when they are the same; equal requests have equal hashes. */
  lemma EqualRequestsAreTheSame(x: TypeRequest, y: TypeRequest, standard: nat -> bv64)
    requires !x.data.InvalidRequest?
    ensures Equals(x, y) <==> x == y
    ensures Equals(x, y) ==> Hash(x, standard) == Hash(y, standard)
  {
    hide Hash;
  }

  // ----- the table -----

  datatype Node = Node(request: TypeRequest, entity: nat, hits: nat)

  /** The nodes by age, and how many types were made. */
  datatype Table = Table(nodes: seq<Node>, made: nat)

  /** The oldest node from `i` on that the hash and the equality lead to. */
  function Lookup(nodes: seq<Node>, r: TypeRequest, standard: nat -> bv64, i: nat): (k: nat)
    requires i <= |nodes|
    ensures i <= k <= |nodes|
    decreases |nodes| - i
  {
    if i == |nodes| then i
    else if Hash(nodes[i].request, standard) == Hash(r, standard) && Equals(nodes[i].request, r) then i
    else Lookup(nodes, r, standard, i + 1)
  }

  function Hit(n: Node): Node {
    n.(hits := n.hits + 1)
  }

  /** The table after a request. */
  function Asked(t: Table, r: TypeRequest, standard: nat -> bv64): Table {
    var k := Lookup(t.nodes, r, standard, 0);
    if k < |t.nodes| then t.(nodes := t.nodes[k := Hit(t.nodes[k])])
    else Table(t.nodes + [Node(r, t.made, 1)], t.made + 1)
  }

  /** The type that answers a request. */
  function Answer(t: Table, r: TypeRequest, standard: nat -> bv64): nat {
    var k := Lookup(t.nodes, r, standard, 0);
    if k < |t.nodes| then t.nodes[k].entity else t.made
  }

  ghost predicate Good(t: Table) {
    (forall k :: 0 <= k < |t.nodes| ==> !t.nodes[k].request.data.InvalidRequest? && t.nodes[k].entity < t.made)
    && forall j, k :: 0 <= j < k < |t.nodes| ==>
         t.nodes[j].request != t.nodes[k].request && t.nodes[j].entity != t.nodes[k].entity
  }

  lemma {:induction false} LookupFinds(nodes: seq<Node>, r: TypeRequest, standard: nat -> bv64, i: nat)
    requires i <= |nodes| && forall k :: 0 <= k < |nodes| ==> !nodes[k].request.data.InvalidRequest?
    ensures var k := Lookup(nodes, r, standard, i);
            (k < |nodes| ==> nodes[k].request == r) && forall j :: i <= j < k ==> nodes[j].request != r
    decreases |nodes| - i
  {
    hide Hash, Equals;
    if i < |nodes| {
      EqualRequestsAreTheSame(nodes[i].request, r, standard);
      LookupFinds(nodes, r, standard, i + 1);
    }
  }

  /** This type was made for this request. */
  ghost predicate Made(t: Table, r: TypeRequest, entity: nat) {
    exists k :: 0 <= k < |t.nodes| && t.nodes[k].request == r && t.nodes[k].entity == entity
  }

  lemma AskedKeeps(t: Table, r: TypeRequest, standard: nat -> bv64)
    requires Good(t) && !r.data.InvalidRequest?
    ensures Good(Asked(t, r, standard)) && Made(Asked(t, r, standard), r, Answer(t, r, standard))
    ensures forall q, entity :: Made(t, q, entity) ==> Made(Asked(t, r, standard), q, entity)
    ensures t.made <= Asked(t, r, standard).made
  {
    hide Lookup;
    LookupFinds(t.nodes, r, standard, 0);
    var k, after := Lookup(t.nodes, r, standard, 0), Asked(t, r, standard);
    assert after.nodes[k].request == r && after.nodes[k].entity == Answer(t, r, standard);
    forall q, entity | Made(t, q, entity)
      ensures Made(after, q, entity)
    {
      var j :| 0 <= j < |t.nodes| && t.nodes[j].request == q && t.nodes[j].entity == entity;
      assert after.nodes[j].request == q && after.nodes[j].entity == entity;
    }
  }

  /** Nothing made is forgotten, so what any two calls answered is the same type exactly if they asked for the same. */
  lemma MadeForOne(t: Table, q: TypeRequest, r: TypeRequest, x: nat, y: nat)
    requires Good(t) && Made(t, q, x) && Made(t, r, y)
    ensures x == y <==> q == r
  {
  }

  // ----- runs -----

  function After(t: Table, requests: seq<TypeRequest>, standard: nat -> bv64): Table
    decreases |requests|
  {
    if requests == [] then t else After(Asked(t, requests[0], standard), requests[1..], standard)
  }

  function Answers(t: Table, requests: seq<TypeRequest>, standard: nat -> bv64): (a: seq<nat>)
    ensures |a| == |requests|
    decreases |requests|
  {
    if requests == [] then []
    else [Answer(t, requests[0], standard)] + Answers(Asked(t, requests[0], standard), requests[1..], standard)
  }

  ghost predicate AllForTypes(requests: seq<TypeRequest>) {
    forall k :: 0 <= k < |requests| ==> !requests[k].data.InvalidRequest?
  }

  lemma {:induction false} RunKeeps(t: Table, requests: seq<TypeRequest>, standard: nat -> bv64)
    requires Good(t) && AllForTypes(requests)
    ensures Good(After(t, requests, standard))
    ensures forall q, entity :: Made(t, q, entity) ==> Made(After(t, requests, standard), q, entity)
    ensures forall k :: 0 <= k < |requests| ==>
              Made(After(t, requests, standard), requests[k], Answers(t, requests, standard)[k])
    decreases |requests|
  {
    hide Asked, Answer, Good, Made;
    if requests != [] {
      AskedKeeps(t, requests[0], standard);
      RunKeeps(Asked(t, requests[0], standard), requests[1..], standard);
      var last, answers := After(t, requests, standard), Answers(t, requests, standard);
      forall k | 0 <= k < |requests|
        ensures Made(last, requests[k], answers[k])
      {
        if k > 0 {
          assert requests[k] == requests[1..][k - 1];
          assert answers[k] == Answers(Asked(t, requests[0], standard), requests[1..], standard)[k - 1];
        }
      }
    }
  }

  /** Over any run, two requests get the same type exactly when they are equal, and what was made before
      stays. */
  lemma SameTypeForEqualRequests(t: Table, requests: seq<TypeRequest>, standard: nat -> bv64, i: nat, j: nat)
    requires Good(t) && AllForTypes(requests) && i < |requests| && j < |requests|
    ensures Answers(t, requests, standard)[i] == Answers(t, requests, standard)[j] <==> Equals(requests[i], requests[j])
  {
    hide Good, Made, Answers, After;
    RunKeeps(t, requests, standard);
    MadeForOne(After(t, requests, standard), requests[i], requests[j], Answers(t, requests, standard)[i],
               Answers(t, requests, standard)[j]);
    EqualRequestsAreTheSame(requests[i], requests[j], standard);
  }

  // ----- hits -----

  function Asks(requests: seq<TypeRequest>, r: TypeRequest): nat
    decreases |requests|
  {
    if requests == [] then 0 else (if requests[0] == r then 1 else 0) + Asks(requests[1..], r)
  }

  /** The hits of the type that was made for this request, if one was made. */
  ghost function Hits(nodes: seq<Node>, r: TypeRequest): nat {
    if nodes == [] then 0 else if nodes[0].request == r then nodes[0].hits else Hits(nodes[1..], r)
  }

  lemma {:induction false} HitsAt(nodes: seq<Node>, k: nat)
    requires k < |nodes| && forall j :: 0 <= j < k ==> nodes[j].request != nodes[k].request
    ensures Hits(nodes, nodes[k].request) == nodes[k].hits
    decreases k
  {
    if k > 0 {
      HitsAt(nodes[1..], k - 1);
    }
  }

  lemma {:induction false} HitsOfOthers(nodes: seq<Node>, k: nat, node: Node, r: TypeRequest)
    requires k < |nodes| && node.request == nodes[k].request && r != node.request
    ensures Hits(nodes[k := node], r) == Hits(nodes, r)
    decreases k
  {
    if k > 0 {
      assert nodes[k := node][1..] == nodes[1..][k - 1 := node];
      HitsOfOthers(nodes[1..], k - 1, node, r);
    } else {
      assert nodes[0 := node][1..] == nodes[1..];
    }
  }

  lemma {:induction false} HitsBehind(nodes: seq<Node>, node: Node, r: TypeRequest)
    requires forall j :: 0 <= j < |nodes| ==> nodes[j].request != node.request
    ensures Hits(nodes + [node], r) == if r == node.request then node.hits else Hits(nodes, r)
    decreases |nodes|
  {
    if nodes != [] {
      assert (nodes + [node])[1..] == nodes[1..] + [node];
      HitsBehind(nodes[1..], node, r);
    }
  }

  lemma OneMoreHit(t: Table, asked: TypeRequest, standard: nat -> bv64, r: TypeRequest)
    requires Good(t) && !asked.data.InvalidRequest?
    ensures Hits(Asked(t, asked, standard).nodes, r) == Hits(t.nodes, r) + if r == asked then 1 else 0
  {
    hide Lookup, Hits;
    LookupFinds(t.nodes, asked, standard, 0);
    var k := Lookup(t.nodes, asked, standard, 0);
    if k < |t.nodes| {
      var hit := t.nodes[k].(hits := t.nodes[k].hits + 1);
      assert Asked(t, asked, standard).nodes == t.nodes[k := hit];
      if r == asked {
        HitsAt(t.nodes, k);
        HitsAt(t.nodes[k := hit], k);
      } else {
        HitsOfOthers(t.nodes, k, hit, r);
      }
    } else {
      HitsBehind(t.nodes, Node(asked, t.made, 1), r);
      if r == asked {
        NoHits(t.nodes, r);
      }
    }
  }

  lemma {:induction false} NoHits(nodes: seq<Node>, r: TypeRequest)
    requires forall j :: 0 <= j < |nodes| ==> nodes[j].request != r
    ensures Hits(nodes, r) == 0
    decreases |nodes|
  {
    if nodes != [] {
      NoHits(nodes[1..], r);
    }
  }

  /** Over any run, every request is counted once with the type that was made for it. */
  lemma {:induction false} HitsCountRequests(t: Table, requests: seq<TypeRequest>, standard: nat -> bv64, r: TypeRequest)
    requires Good(t) && AllForTypes(requests)
    ensures Hits(After(t, requests, standard).nodes, r) == Hits(t.nodes, r) + Asks(requests, r)
    decreases |requests|
  {
    hide Asked, Good, Hits, Made;
    if requests != [] {
      AskedKeeps(t, requests[0], standard);
      OneMoreHit(t, requests[0], standard, r);
      HitsCountRequests(Asked(t, requests[0], standard), requests[1..], standard, r);
    }
  }

  class TypeContext {
    var table: Table
    const standard: nat -> bv64

    constructor (hash: nat -> bv64)
      ensures table == Table([], 0) && standard == hash && Good(table)
    {
      table := Table([], 0);
      standard := hash;
    }

    /** The search in the bucket of a hash. */
    method Find(r: TypeRequest) returns (k: nat)
      ensures k == Lookup(table.nodes, r, standard, 0)
    {
      hide Hash, Equals;
      k := 0;
      while k < |table.nodes|
            && !(Hash(table.nodes[k].request, standard) == Hash(r, standard) && Equals(table.nodes[k].request, r))
        invariant k <= |table.nodes| && Lookup(table.nodes, r, standard, k) == Lookup(table.nodes, r, standard, 0)
        decreases |table.nodes| - k
      {
        k := k + 1;
      }
    }

    /** A failed request is answered like its suggestion, or not at all. */
    method Get(request: TypeRequest) returns (answer: Option<nat>)
      requires Good(table) && Askable(request)
      modifies this`table
      ensures Good(table)
      ensures answer.Some? <==> Meant(request).Some?
      ensures Meant(request).Some? ==>
                answer.value == Answer(old(table), Meant(request).value, standard)
                && table == Asked(old(table), Meant(request).value, standard)
      ensures Meant(request).None? ==> table == old(table)
      ensures Meant(request).Some? ==> Made(table, Meant(request).value, answer.value)
      ensures request.kind != Error ==> answer.Some? && Made(table, request, answer.value)
      ensures forall q, entity :: Made(old(table), q, entity) ==> Made(table, q, entity)
      decreases request
    {
      if request.kind == Error {
        if request.data.suggested.Some? {
          answer := Get(request.data.suggested.value);
        } else {
          answer := None;
        }
        return;
      }
      AskedKeeps(table, request, standard);
      hide Good, Lookup, Made;
      var k := Find(request);
      if k < |table.nodes| {
        answer := Some(table.nodes[k].entity);
        table := table.(nodes := table.nodes[k := Hit(table.nodes[k])]);
      } else {
        answer := Some(table.made);
        table := Table(table.nodes + [Node(request, table.made, 1)], table.made + 1);
      }
    }
  }
}
